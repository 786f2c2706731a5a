/** The state of the `PromptEnhancerHero` form component: its six state cells and the
    handlers that update them. The asynchronous submit is split into the step that starts
    the request and the step that receives its outcome, and the copy timer into the copy
    and the timer's callback. */
module PromptForm {
  import opened Wrappers
  import opened JsText
  import EnhanceServer

  /** `MIN_CHARS`. */
  const MinChars := 15

  /** The example buttons' texts, `examplePrompts`. */
  const ExamplePrompts: seq<string> := ["موقع لبيع الكتب", "تطبيق للياقة البدنية", "E-Commerce for clothes"]

  /** The text shown when the request fails or its body carries an error. */
  const WakingUpMessage := "Server is waking up, please try again in a moment..."

  /** A JSON object with string members, as `response.json()` delivers it. */
  type Json = map<string, string>

  /** The members of the parsed body that the component reads; a member the body lacks
      reads as `undefined`, here `None`. */
  datatype ResponseBody = ResponseBody(error: Option<string>, enhancedPrompt: Option<string>)

  /** The value of member `key`, or `undefined` when the object has none. */
  function Member(json: Json, key: string): (v: Option<string>)
    ensures v.Some? <==> key in json
    ensures v.Some? ==> v.value == json[key]
  {
    if key in json then Some(json[key]) else None
  }

  /** Reading `data.error` and `data.enhancedPrompt` off the parsed body. */
  function ParseBody(json: Json): (body: ResponseBody)
    ensures body.error.Some? <==> "error" in json
    ensures body.enhancedPrompt.Some? <==> "enhancedPrompt" in json
    ensures "error" in json ==> body.error.value == json["error"]
    ensures "enhancedPrompt" in json ==> body.enhancedPrompt.value == json["enhancedPrompt"]
  {
    ResponseBody(Member(json, "error"), Member(json, "enhancedPrompt"))
  }

  /** What `res.json({enhancedPrompt})` puts on the wire: an object whose only member is
      `enhancedPrompt`. */
  function WireBody(reply: EnhanceServer.EnhanceResponse): (json: Json)
    ensures json.Keys == {"enhancedPrompt"} && json["enhancedPrompt"] == reply.enhancedPrompt
  {
    map["enhancedPrompt" := reply.enhancedPrompt]
  }

  /** `String(v)`, as `writeText` converts its argument: `undefined` becomes "undefined". */
  function JsString(v: Option<string>): (s: string)
    ensures v.Some? ==> s == v.value
    ensures v.None? ==> s == "undefined"
  {
    match v
    case Some(text) => text
    case None => "undefined"
  }

  /** What `fetch` and `response.json()` deliver: a body, or a rejection of either. */
  datatype FetchOutcome = FetchFailed | Received(body: ResponseBody)

  /** JavaScript truthiness of `data.error`: present and not the empty string. */
  predicate ErrorIsTruthy(error: Option<string>) {
    error.Some? && error.value != ""
  }

  /** The safety check of `enhancePrompt`: the trimmed input has at least `MinChars` characters. */
  predicate PassesLengthCheck(userInput: string) {
    |Trim(userInput)| >= MinChars
  }

  /** The `disabled` attribute of the submit button, negated: it counts the untrimmed input. */
  predicate SubmitEnabled(charCount: int, isLoading: bool) {
    charCount >= MinChars && !isLoading
  }

  /** The value the component stores once a request has finished: the body's
      `enhancedPrompt` as it is, `undefined` included, unless the request failed or the
      body carries an error, in which case the fixed waking-up message. */
  function ResultText(outcome: FetchOutcome): (text: Option<string>)
    ensures outcome.Received? && !ErrorIsTruthy(outcome.body.error) ==> text == outcome.body.enhancedPrompt
    ensures outcome.FetchFailed? || ErrorIsTruthy(outcome.body.error) ==> text == Some(WakingUpMessage)
  {
    match outcome
    case FetchFailed => Some(WakingUpMessage)
    case Received(body) => if ErrorIsTruthy(body.error) then Some(WakingUpMessage) else body.enhancedPrompt
  }

  /** The length check is stricter than the button: whenever the check passes and no
      request is outstanding, the button is enabled. */
  lemma LengthCheckImpliesEnabled(userInput: string, isLoading: bool)
    requires PassesLengthCheck(userInput) && !isLoading
    ensures SubmitEnabled(|userInput|, isLoading)
  {
  }

  /** The converse fails: fifteen spaces enable the button, yet a click on it changes nothing. */
  lemma EnabledClickCanBeRejected()
    ensures SubmitEnabled(|"               "|, false) && !PassesLengthCheck("               ")
  {
    var blank := "               ";
    assert AllWhitespace(blank);
  }

  /** Every example prompt enables the button and passes the length check. */
  lemma ExamplesAreSubmittable()
    ensures forall k :: 0 <= k < |ExamplePrompts| ==>
      SubmitEnabled(|ExamplePrompts[k]|, false) && PassesLengthCheck(ExamplePrompts[k])
  {
    forall k | 0 <= k < |ExamplePrompts|
      ensures SubmitEnabled(|ExamplePrompts[k]|, false) && PassesLengthCheck(ExamplePrompts[k])
    {
      var e := ExamplePrompts[k];
      assert e == ExamplePrompts[0] || e == ExamplePrompts[1] || e == ExamplePrompts[2];
      assert |e| >= MinChars;
      assert !IsJsWhitespace(e[0]) && !IsJsWhitespace(e[|e| - 1]);
      TrimSurrounded([], e, []);
      assert [] + e + [] == e;
    }
  }

  /** Whatever the server answers, the parsed body has no `error` member and carries the
      answer's `enhancedPrompt`, so the component stores that text as it is. */
  lemma {:induction false} WireReplyIsShownVerbatim(reply: EnhanceServer.EnhanceResponse)
    ensures ResultText(Received(ParseBody(WireBody(reply)))) == Some(reply.enhancedPrompt)
  {
    var json := WireBody(reply);
    assert "error" != "enhancedPrompt" by { assert "error"[1] != "enhancedPrompt"[1]; }
    assert "error" !in json;
  }

  /** The two layers of graceful degradation compose: once the server's answer arrives the
      component shows the handler's text, provider output or fallback document, and the
      waking-up message only when the request itself fails. */
  lemma {:induction false} ServerReplyIsShownVerbatim(idea: string, hasApiKey: bool, provider: string -> Option<string>)
    ensures ResultText(Received(ParseBody(WireBody(EnhanceServer.HandleEnhance(idea, hasApiKey, provider).body))))
      == Some(EnhanceServer.Enhance(idea, hasApiKey, provider).text)
  {
    WireReplyIsShownVerbatim(EnhanceServer.HandleEnhance(idea, hasApiKey, provider).body);
  }

  class PromptEnhancerHero {
    var userInput: string
    /** `undefined` (`None`) after a body without `enhancedPrompt` was accepted. */
    var enhancedPrompt: Option<string>
    var isLoading: bool
    var isCopied: bool
    var showResult: bool
    var charCount: int
    /** Copy callbacks scheduled with `setTimeout` and not yet run. */
    ghost var pendingCopyResets: nat
    /** Requests sent by `enhancePrompt` whose `fetch` has not settled yet. */
    ghost var pendingRequests: nat

    /** The character counter always shows the length of the input. */
    ghost predicate Valid()
      reads this
    {
      charCount == |userInput|
    }

    /** Whether the submit button is enabled. */
    predicate CanSubmit()
      reads this
    {
      SubmitEnabled(charCount, isLoading)
    }

    /** Whenever the handler's own length check would pass and nothing is loading, the
        button that calls the handler is enabled. */
    lemma CheckPassEnablesButton()
      requires Valid() && PassesLengthCheck(userInput) && !isLoading
      ensures CanSubmit()
    {
      LengthCheckImpliesEnabled(userInput, isLoading);
    }

    /** The initial values of the six `useState` cells. */
    constructor ()
      ensures Valid()
      ensures userInput == "" && enhancedPrompt == Some("") && charCount == 0
      ensures !isLoading && !isCopied && !showResult
      ensures pendingCopyResets == 0 && pendingRequests == 0
    {
      userInput := "";
      enhancedPrompt := Some("");
      isLoading := false;
      isCopied := false;
      showResult := false;
      charCount := 0;
      pendingCopyResets := 0;
      pendingRequests := 0;
    }

    /** `handleInputChange`: the input and its count follow the text area. */
    method HandleInputChange(value: string)
      modifies this
      ensures Valid()
      ensures userInput == value && charCount == |value|
      ensures enhancedPrompt == old(enhancedPrompt) && isLoading == old(isLoading)
      ensures isCopied == old(isCopied) && showResult == old(showResult)
      ensures pendingCopyResets == old(pendingCopyResets) && pendingRequests == old(pendingRequests)
    {
      userInput := value;
      charCount := |value|;
    }

    /** `fillExample`: the input and its count become the example's. */
    method FillExample(example: string)
      modifies this
      ensures Valid()
      ensures userInput == example && charCount == |example|
      ensures enhancedPrompt == old(enhancedPrompt) && isLoading == old(isLoading)
      ensures isCopied == old(isCopied) && showResult == old(showResult)
      ensures pendingCopyResets == old(pendingCopyResets) && pendingRequests == old(pendingRequests)
    {
      userInput := example;
      charCount := |example|;
    }

    /** The synchronous part of `enhancePrompt`, up to the awaited `fetch`. When the
        trimmed input is too short nothing changes and no request is sent; otherwise the
        loading flag is raised, the result hidden, and the idea sent is the input as typed. */
    method BeginSubmit() returns (request: Option<string>)
      modifies this
      ensures old(Valid()) ==> Valid()
      ensures request.Some? <==> PassesLengthCheck(old(userInput))
      ensures request.Some? ==> request.value == old(userInput) && isLoading && !showResult
      ensures request.Some? ==> pendingRequests == old(pendingRequests) + 1
      ensures request.None? ==> isLoading == old(isLoading) && showResult == old(showResult)
      ensures request.None? ==> pendingRequests == old(pendingRequests)
      ensures userInput == old(userInput) && charCount == old(charCount)
      ensures enhancedPrompt == old(enhancedPrompt) && isCopied == old(isCopied)
      ensures pendingCopyResets == old(pendingCopyResets)
    {
      if |Trim(userInput)| < MinChars {
        return None;
      }
      isLoading := true;
      showResult := false;
      pendingRequests := pendingRequests + 1;
      request := Some(userInput);
    }

    /** The part of `enhancePrompt` after the awaited `fetch`: on either path the result is
        shown and loading ends; the text shown is `ResultText` of the outcome. */
    method Complete(outcome: FetchOutcome)
      requires pendingRequests > 0
      modifies this
      ensures old(Valid()) ==> Valid()
      ensures enhancedPrompt == ResultText(outcome)
      ensures !isLoading && showResult && pendingRequests == old(pendingRequests) - 1
      ensures userInput == old(userInput) && charCount == old(charCount)
      ensures isCopied == old(isCopied) && pendingCopyResets == old(pendingCopyResets)
    {
      match outcome {
        case Received(body) =>
          if ErrorIsTruthy(body.error) {
            enhancedPrompt := Some(WakingUpMessage);
          } else {
            enhancedPrompt := body.enhancedPrompt;
          }
        case FetchFailed =>
          enhancedPrompt := Some(WakingUpMessage);
      }
      showResult := true;
      isLoading := false;
      pendingRequests := pendingRequests - 1;
    }

    /** `copyToClipboard`: the shown text is handed to the clipboard; once the write
        succeeds the copied flag is raised and its reset is scheduled. A rejected write
        leaves the state as it was. */
    method Copy(writeSucceeds: bool) returns (clipboardText: string)
      modifies this
      ensures clipboardText == JsString(enhancedPrompt)
      ensures writeSucceeds ==> isCopied && pendingCopyResets == old(pendingCopyResets) + 1
      ensures !writeSucceeds ==> isCopied == old(isCopied) && pendingCopyResets == old(pendingCopyResets)
      ensures userInput == old(userInput) && charCount == old(charCount)
      ensures enhancedPrompt == old(enhancedPrompt) && isLoading == old(isLoading)
      ensures showResult == old(showResult) && pendingRequests == old(pendingRequests)
    {
      clipboardText := JsString(enhancedPrompt);
      if writeSucceeds {
        isCopied := true;
        pendingCopyResets := pendingCopyResets + 1;
      }
    }

    /** The callback scheduled by `copyToClipboard`, run when its delay has elapsed: it
        lowers the copied flag whatever else happened since. */
    method CopyTimerFires()
      requires pendingCopyResets > 0
      modifies this
      ensures !isCopied && pendingCopyResets == old(pendingCopyResets) - 1
      ensures userInput == old(userInput) && charCount == old(charCount)
      ensures enhancedPrompt == old(enhancedPrompt) && isLoading == old(isLoading)
      ensures showResult == old(showResult) && pendingRequests == old(pendingRequests)
    {
      isCopied := false;
      pendingCopyResets := pendingCopyResets - 1;
    }

    /** `reset`: clears the input, its count and the result, and leaves the loading and
        copied flags alone. */
    method Reset()
      modifies this
      ensures Valid()
      ensures userInput == "" && enhancedPrompt == Some("") && !showResult && charCount == 0
      ensures isLoading == old(isLoading) && isCopied == old(isCopied)
      ensures pendingCopyResets == old(pendingCopyResets) && pendingRequests == old(pendingRequests)
    {
      userInput := "";
      enhancedPrompt := Some("");
      showResult := false;
      charCount := 0;
    }
  }

  /** A session: an example is filled in and submitted, the answer arrives, and the form is
      reset. Without a copy in between, the form is back in its initial state. */
  method SubmitThenReset(example: string, outcome: FetchOutcome) returns (form: PromptEnhancerHero)
    requires PassesLengthCheck(example)
    ensures fresh(form) && form.Valid()
    ensures form.userInput == "" && form.enhancedPrompt == Some("") && form.charCount == 0
    ensures !form.isLoading && !form.isCopied && !form.showResult
    ensures form.pendingCopyResets == 0 && form.pendingRequests == 0
  {
    form := new PromptEnhancerHero();
    form.FillExample(example);
    form.CheckPassEnablesButton();
    var request := form.BeginSubmit();
    assert request == Some(example);
    assert form.isLoading && !form.CanSubmit();
    form.Complete(outcome);
    assert form.showResult && form.enhancedPrompt == ResultText(outcome);
    form.Reset();
  }
}
