# Prompt enhancer: fallback formatter and form state, modelled in Dafny

The application turns a short website idea into a structured "enhanced prompt". It has two parts:

- The server's `POST /api/enhance` handler first checks whether the idea contains Arabic script. If an API key is configured, it asks a text-generation provider once. On any failure it fills a constant English or Arabic template with the idea. It always answers with status 200 and `{enhancedPrompt}`.
- The browser form component holds six state cells: `userInput`, `enhancedPrompt`, `isLoading`, `isCopied`, `showResult` and `charCount`. Its handlers edit the input, fill an example, submit, show the result, copy it, and reset.

The project has four files:

- `wrappers.dfy`: `Option` and `Result`.
- `js_text.dfy` (module `JsText`): JavaScript's `trim()` over the exact ECMAScript whitespace and line-terminator set, plus lemmas about where the pieces of a joined text occur.
- `enhance_server.dfy` (module `EnhanceServer`): the server, as pure functions. The templates are a constant map keyed by language code. The formatter is the template literal, built from its pieces and then trimmed. The provider is a function parameter from instruction to `Option<string>`, where `None` means the call threw. The handler returns a tagged `Outcome`, `Provider(text)` or `Fallback(text)`, and `HandleEnhance` wraps it in the wire reply.
- `prompt_form.dfy` (module `PromptForm`): the component, as a class with the six cells as fields. The asynchronous submit is split into `BeginSubmit` and `Complete(outcome)`. The copy timer is split into `Copy` and `CopyTimerFires`. Two ghost counters track what is in flight: scheduled copy callbacks and unsettled requests. A timer fires only after a copy has scheduled it, and an outcome arrives only for a request that was sent. The parsed JSON body is a map from member names to strings. A member the body lacks reads as `undefined`, modelled as `None`.

The submit button and the handler apply different length tests. The button is disabled while the untrimmed `charCount` is below 15 (src/components/PromptEnhancerHero.jsx:149). Only the handler's own safety check trims the input (src/components/PromptEnhancerHero.jsx:37-38). The label asks for "Min 15 characters" (src/components/PromptEnhancerHero.jsx:126). `LengthCheckImpliesEnabled` shows that a passing check always comes with an enabled button. `EnabledClickCanBeRejected` shows an input on which the two tests differ.

## Model

| member | source | states |
|---|---|---|
| `JsText.Trim` | src/components/PromptEnhancerHero.jsx:38 | The result is no longer than the input. It is empty exactly when the input is all whitespace. Otherwise it neither begins nor ends with whitespace. |
| `JsText.TrimSurrounded` | server/index.js:68-89 | Trimming whitespace + body + whitespace gives back the body, provided the body neither begins nor ends with whitespace. |
| `EnhanceServer.IsArabic` | server/index.js:94 | True exactly when some character of the idea lies in U+0600..U+06FF. |
| `EnhanceServer.FallbackLang` | server/index.js:115 | The chosen language code is "ar" exactly when the idea is Arabic and "en" exactly when it is not. The code is always a key of the template map. |
| `EnhanceServer.TemplatesTrimSafe` | server/index.js:32-63 | Both headers begin, and both stack lines end, with a non-whitespace character. |
| `EnhanceServer.TrimmedLiteralIsDocument` | server/index.js:68-89 | `trim()` removes only the literal's leading line break and its trailing line break and indentation, whatever the idea is. |
| `EnhanceServer.FillTemplate` | server/index.js:66-89 | The filled, trimmed literal equals the document assembled from the template and the idea. |
| `EnhanceServer.LookupTemplate` | server/index.js:32-66 | An omitted language or "en" gives the English template, and "ar" gives the Arabic one. Any other code finds nothing. |
| `EnhanceServer.FormatFallbackResponse` | server/index.js:65-90 | The default or "en" gives the English document, and "ar" gives the Arabic document. Any other code throws a TypeError. |
| `EnhanceServer.FallbackStartsWithHeader` | server/index.js:68-69 | The document begins with the template's header. |
| `EnhanceServer.FallbackEnds` | server/index.js:68-89 | "Project Concept: " + idea follows right after the header and its blank line, at the header's length + 2. The document ends with "Recommended Stack: " + stack. |
| `EnhanceServer.FallbackLayout` | server/index.js:73-85 | The four headings occur in the order proposition, design, modules, tech. The idea is embedded verbatim in "A premium digital solution for " + idea, in the proposition part. The design part lists Style, Typography and Color Palette from the same template. |
| `EnhanceServer.LanguageDemandEnding` | server/index.js:104-106 | Whatever precedes it, the closing clause ends the text with "written in Arabic only." exactly when it names Arabic, and otherwise with "written in English only.". |
| `EnhanceServer.ProviderInstruction` | server/index.js:102-106 | The instruction begins with the fixed opening sentence and quotes the idea verbatim right after it. It ends with "written in Arabic only." exactly when the idea was detected as Arabic, and with "written in English only." otherwise. |
| `EnhanceServer.Enhance` | server/index.js:92-117 | With no API key the outcome is always a fallback. The outcome comes from the provider exactly when a key exists and the provider returns text, and then it is that text verbatim. Every fallback is the Arabic document for Arabic ideas and the English document otherwise. |
| `EnhanceServer.HandleEnhance` | server/index.js:109-116 | Every path answers with status 200. The body's only field is `enhancedPrompt`. It holds the provider's text on success and the fallback document of the detected script otherwise. |
| `EnhanceServer.HeadersDiffer` | server/index.js:33-49 | The English and Arabic headers differ at their fifth character. |
| `EnhanceServer.FallbackHeaderFollowsScript` | server/index.js:112-116 | A fallback answer begins with the Arabic header exactly when the idea is Arabic, and with the English header exactly when it is not. |
| `EnhanceServer.NoKeyAnswerIgnoresProvider` | server/index.js:96-99 | Without an API key, the reply does not depend on the provider at all, and the outcome is a fallback. |
| `PromptForm.ResultText` | src/components/PromptEnhancerHero.jsx:52-63 | A received body without a truthy `error` yields its `enhancedPrompt` as it is, and `undefined` when the body has none. A failed request, or a body with a truthy error, yields "Server is waking up, please try again in a moment...". |
| `PromptForm.ParseBody` | src/components/PromptEnhancerHero.jsx:52-58 | `data.error` and `data.enhancedPrompt` are present exactly when the parsed body has those members, and then they hold the members' values. |
| `PromptForm.WireBody` | server/index.js:111-116 | The server's JSON body has exactly one member, `enhancedPrompt`, holding the reply's text. |
| `PromptForm.JsString` | src/components/PromptEnhancerHero.jsx:70 | `writeText` receives a string: the stored text itself, or "undefined" when the cell holds `undefined`. |
| `PromptForm.WireReplyIsShownVerbatim` | src/components/PromptEnhancerHero.jsx:52-58 | For any answer the server sends, the parsed body has no `error`, so the component stores the answer's `enhancedPrompt` verbatim. |
| `PromptForm.LengthCheckImpliesEnabled` | src/components/PromptEnhancerHero.jsx:149 | Whenever the trimmed-length check passes and no request is outstanding, the button is enabled. |
| `PromptForm.EnabledClickCanBeRejected` | src/components/PromptEnhancerHero.jsx:149 | Fifteen spaces enable the button (`charCount >= 15 && !isLoading`) but fail the trimmed check. |
| `PromptForm.ExamplesAreSubmittable` | src/components/PromptEnhancerHero.jsx:24-28 | Every example prompt enables the button and passes the trimmed check. |
| `PromptForm.ServerReplyIsShownVerbatim` | src/components/PromptEnhancerHero.jsx:52-59 | After the server's body is put on the wire and parsed, the form stores the handler's outcome text verbatim. |
| `PromptForm.PromptEnhancerHero.CheckPassEnablesButton` | src/components/PromptEnhancerHero.jsx:149 | In a valid form state, whenever the handler's trimmed check would pass and nothing is loading, the submit button is enabled. |
| `PromptForm.PromptEnhancerHero.constructor` | src/components/PromptEnhancerHero.jsx:15-20 | The initial state: empty input and result, all flags false, count 0, nothing scheduled and no request in flight. The count equals the input length. |
| `PromptForm.PromptEnhancerHero.HandleInputChange` | src/components/PromptEnhancerHero.jsx:30-34 | The input becomes the new value and the count becomes its length. Nothing else changes. The count invariant is re-established. |
| `PromptForm.PromptEnhancerHero.FillExample` | src/components/PromptEnhancerHero.jsx:82-85 | The input becomes the example and the count becomes its length. Nothing else changes. |
| `PromptForm.PromptEnhancerHero.BeginSubmit` | src/components/PromptEnhancerHero.jsx:36-49 | If the trimmed input is shorter than 15, no request is sent and no cell changes. Otherwise the request carries the untrimmed input, `isLoading` becomes true, `showResult` becomes false, and one more request is in flight. |
| `PromptForm.PromptEnhancerHero.Complete` | src/components/PromptEnhancerHero.jsx:52-66 | It may be called only for a request that was sent and has not settled. On either path `isLoading` becomes false and `showResult` true. `enhancedPrompt` becomes `ResultText` of the outcome. The input and count do not change. |
| `PromptForm.PromptEnhancerHero.Copy` | src/components/PromptEnhancerHero.jsx:69-72 | The stored text, converted to a string, is written to the clipboard. On success `isCopied` becomes true and one reset is scheduled. A rejected write changes nothing. |
| `PromptForm.PromptEnhancerHero.CopyTimerFires` | src/components/PromptEnhancerHero.jsx:72 | A scheduled callback sets `isCopied` to false, whatever the other state is, and changes nothing else. |
| `PromptForm.PromptEnhancerHero.Reset` | src/components/PromptEnhancerHero.jsx:75-80 | The input and result become "", `showResult` false and the count 0. `isLoading` and `isCopied` are unchanged. |
| `PromptForm.SubmitThenReset` | src/components/PromptEnhancerHero.jsx:75-80 | Filling an example, submitting, completing and resetting, with no copy in between, returns the form to its initial state. |

## Left out

- Express, CORS, dotenv, path setup and `app.listen` (server/index.js:1-17, 120-121): process and I/O plumbing.
- The Gemini SDK call (server/index.js:101, 108-109): a foreign network library. It is modelled only as the `provider` parameter, whose `None` stands for any exception.
- `fetch`, `response.json()` and `navigator.clipboard.writeText`: network and browser APIs. They are modelled as the `FetchOutcome` and `writeSucceeds` parameters.
- Clipboard rejection: a rejected clipboard write in `copyToClipboard` is an unhandled promise rejection. The model leaves the state unchanged and does not model the rejection itself.
- The 2000 ms delay of `setTimeout`: clock time is not modelled. The callback is the explicit event `CopyTimerFires`.
- React scheduling: the batching of state updates is not modelled. Each handler is applied as one atomic step.
- Closure capture: a React handler reads the state of the render that created it. The model applies every handler to the current state. An edit, a reset or a copy between `BeginSubmit` and `Complete` is modelled, with the effect each handler's contract states. A handler that acts on state that is stale by then is not modelled.
- JSX rendering, styling, icons and SimpleBar: presentation only.
- `console.log` and `console.error`: logging only.
- Non-string ideas: `req.body.idea` may be missing or not a string, in which case JavaScript would coerce it. The model takes the idea as a string.
- Inherited keys: lookups of inherited object keys in `FALLBACK_TEMPLATES`, such as `"toString"`, are treated as missing.
- `ErrorIsTruthy`: the parsed body is modelled as a map from member names to strings, so `error` and `enhancedPrompt` are either absent or strings. Other JSON values, such as numbers, `null` or objects, are not modelled. The truthiness of `error` is "present and non-empty".
- String length: JavaScript's `length` counts UTF-16 code units, while the model counts Unicode scalar values. The two agree on text in the Basic Multilingual Plane, which includes Latin and Arabic. A character outside that plane counts once here and twice in the browser. `isArabic` is unaffected, since no surrogate lies in U+0600..U+06FF.
