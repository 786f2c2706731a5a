/** The `/api/enhance` endpoint of the server: detection of Arabic script in the idea,
    the two constant fallback templates, the formatter that fills them, the instruction
    sent to the text-generation provider, and the try/fallback decision of the handler. */
module EnhanceServer {
  import opened Wrappers
  import opened JsText

  datatype Sections = Sections(proposition: string, design: string, modules: string, tech: string)

  datatype Details = Details(designStyle: string, typography: string, palette: string, stack: string)

  /** One language's entry of `FALLBACK_TEMPLATES`. */
  datatype Template = Template(header: string, sections: Sections, details: Details)

  const EnglishTemplate: Template := Template(
    "--- STRATEGIC WEBSITE ARCHITECTURE ---",
    Sections(
      "1. Core Value Proposition",
      "2. Visual and Design Direction",
      "3. Core UI/UX Modules",
      "4. Technical Infrastructure"),
    Details(
      "Modern Minimalism with high-fidelity components.",
      "High-contrast Sans-serif system.",
      "Deep Slate (#0F172A) and Electric Blue (#2563EB).",
      "React.js with Tailwind CSS (Mobile-first)."))

  const ArabicTemplate: Template := Template(
    "--- البنية الاستراتيجية للموقع ---",
    Sections(
      "1. عرض القيمة الأساسي",
      "2. التوجه البصري والتصميم",
      "3. الأقسام الأساسية لواجهة المستخدم",
      "4. البنية التحتية التقنية"),
    Details(
      "بساطة حديثة (Minimalism) مع مكونات عالية الدقة.",
      "نظام خطوط Sans-serif متباين.",
      "الأزرق الداكن العميق (#0F172A) والأزرق الملكي (#2563EB).",
      "React.js مع Tailwind CSS (استجابة كاملة)."))

  /** `FALLBACK_TEMPLATES`: a constant lookup keyed by language code. */
  const FallbackTemplates: map<string, Template> := map["en" := EnglishTemplate, "ar" := ArabicTemplate]

  /** The error a property read on `undefined` throws. */
  datatype JsError = TypeError

  /** A code unit of the Arabic block, the character class `[\u0600-\u06FF]`. */
  predicate IsArabicChar(c: char) {
    '\U{0600}' <= c <= '\U{06FF}'
  }

  /** `/[\u0600-\u06FF]/.test(idea)`: some character of the idea lies in the Arabic block. */
  function IsArabic(idea: string): (r: bool)
    ensures r <==> exists i :: 0 <= i < |idea| && IsArabicChar(idea[i])
  {
    if idea == [] then false
    else
      assert forall i :: 1 <= i < |idea| ==> idea[i] == idea[1..][i - 1];
      IsArabicChar(idea[0]) || IsArabic(idea[1..])
  }

  /** The language code the handler passes to the formatter. */
  function FallbackLang(idea: string): (lang: string)
    ensures lang in FallbackTemplates
    ensures lang == "ar" <==> IsArabic(idea)
    ensures lang == "en" <==> !IsArabic(idea)
  {
    if IsArabic(idea) then "ar" else "en"
  }

  /** The template literal of `formatFallbackResponse` between its first and last line
      breaks, as the sequence of its literal parts and interpolations. */
  const BlankLine := "\n\n"
  const LineBreak := "\n"
  const ConceptLabel := "Project Concept: "
  const PropositionLead := "A premium digital solution for "
  const PropositionTail := " designed to establish market authority through optimized UX."
  const StyleLabel := "- Style: "
  const TypographyLabel := "- Typography: "
  const PaletteLabel := "- Color Palette: "
  const ModuleList := "- Immersive Hero Section\n- Feature Ecosystem\n- Trust Architecture\n- Strategic Footer"
  const StackLabel := "Recommended Stack: "

  function FallbackPieces(t: Template, idea: string): (p: seq<string>)
    ensures |p| == 30
  {
    [ t.header, BlankLine,
      ConceptLabel, idea, BlankLine,
      t.sections.proposition, LineBreak,
      PropositionLead, idea, PropositionTail, BlankLine,
      t.sections.design, LineBreak,
      StyleLabel, t.details.designStyle, LineBreak,
      TypographyLabel, t.details.typography, LineBreak,
      PaletteLabel, t.details.palette, BlankLine,
      t.sections.modules, LineBreak,
      ModuleList, BlankLine,
      t.sections.tech, LineBreak,
      StackLabel, t.details.stack ]
  }

  /** The pieces of the document's first and last lines, by position. */
  lemma OuterPieces(t: Template, idea: string)
    ensures FallbackPieces(t, idea)[0] == t.header && |FallbackPieces(t, idea)[1]| == 2
    ensures FallbackPieces(t, idea)[2] == ConceptLabel && FallbackPieces(t, idea)[3] == idea
    ensures FallbackPieces(t, idea)[28] == StackLabel && FallbackPieces(t, idea)[29] == t.details.stack
  {
  }

  /** The pieces of the document's headings and labelled lines, by position. */
  lemma InnerPieces(t: Template, idea: string)
    ensures FallbackPieces(t, idea)[5] == t.sections.proposition
    ensures FallbackPieces(t, idea)[7] == PropositionLead && FallbackPieces(t, idea)[8] == idea
    ensures FallbackPieces(t, idea)[11] == t.sections.design
    ensures FallbackPieces(t, idea)[13] == StyleLabel && FallbackPieces(t, idea)[14] == t.details.designStyle
    ensures FallbackPieces(t, idea)[16] == TypographyLabel && FallbackPieces(t, idea)[17] == t.details.typography
    ensures FallbackPieces(t, idea)[19] == PaletteLabel && FallbackPieces(t, idea)[20] == t.details.palette
    ensures FallbackPieces(t, idea)[22] == t.sections.modules && FallbackPieces(t, idea)[26] == t.sections.tech
  {
  }

  /** The four-section document for template `t` and the idea. */
  function FallbackDocument(t: Template, idea: string): string {
    Concat(FallbackPieces(t, idea))
  }

  /** The whole template literal: it opens with the line break after the backtick and
      closes with a line break and the two spaces of indentation before the backtick. */
  function RawFallbackLiteral(t: Template, idea: string): string {
    "\n" + FallbackDocument(t, idea) + "\n  "
  }

  /** A template whose header begins and whose stack ends with a non-whitespace character,
      so that `trim()` removes only the literal's own surrounding whitespace. */
  predicate TrimSafe(t: Template) {
    t.header != [] && !IsJsWhitespace(t.header[0])
    && t.details.stack != [] && !IsJsWhitespace(t.details.stack[|t.details.stack| - 1])
  }

  lemma TemplatesTrimSafe()
    ensures TrimSafe(EnglishTemplate) && TrimSafe(ArabicTemplate)
  {
  }

  /** Trimming the literal removes exactly its leading line break and its trailing
      line break and indentation, whatever the idea contains. */
  lemma {:induction false} TrimmedLiteralIsDocument(t: Template, idea: string)
    requires TrimSafe(t)
    ensures Trim(RawFallbackLiteral(t, idea)) == FallbackDocument(t, idea)
  {
    var p := FallbackPieces(t, idea);
    var doc := FallbackDocument(t, idea);
    PiecesStart(p);
    PiecesEnd(p, 29);
    assert p[29..] == [t.details.stack];
    ConcatSingle(t.details.stack);
    assert doc[0] == t.header[0];
    assert doc[|doc| - 1] == t.details.stack[|t.details.stack| - 1];
    TrimSurrounded("\n", doc, "\n  ");
  }

  /** The template literal filled in and trimmed: for a trim-safe template this is exactly
      the document between the literal's surrounding whitespace. */
  function FillTemplate(t: Template, idea: string): (r: string)
    requires TrimSafe(t)
    ensures r == FallbackDocument(t, idea)
  {
    TrimmedLiteralIsDocument(t, idea);
    Trim(RawFallbackLiteral(t, idea))
  }

  /** `FALLBACK_TEMPLATES[lang]` after `lang` defaults to "en"; `None` is `undefined`. */
  function LookupTemplate(lang: Option<string>): (t: Option<Template>)
    ensures lang == None || lang == Some("en") ==> t == Some(EnglishTemplate)
    ensures lang == Some("ar") ==> t == Some(ArabicTemplate)
    ensures lang.Some? && lang.value != "en" && lang.value != "ar" ==> t == None
  {
    var key := if lang.None? then "en" else lang.value;
    if key in FallbackTemplates then Some(FallbackTemplates[key]) else None
  }

  /** `formatFallbackResponse(idea, lang)`; `None` stands for an omitted (undefined)
      `lang`, which defaults to "en". A code with no template makes the property read
      on `undefined` throw. */
  function FormatFallbackResponse(idea: string, lang: Option<string>): (r: Result<string, JsError>)
    ensures lang == None || lang == Some("en") ==> r == Success(FallbackDocument(EnglishTemplate, idea))
    ensures lang == Some("ar") ==> r == Success(FallbackDocument(ArabicTemplate, idea))
    ensures lang.Some? && lang.value != "en" && lang.value != "ar" ==> r == Failure(TypeError)
  {
    match LookupTemplate(lang)
    case None => Failure(TypeError)
    case Some(t) =>
      TemplatesTrimSafe();
      Success(FillTemplate(t, idea))
  }

  /** How a thirty-piece text, shaped like the fallback document, begins and ends;
      stated over an arbitrary sequence so that the proof never looks inside the
      literal parts. */
  lemma {:induction false} ThirtyPieceEnds(p: seq<string>)
    requires |p| == 30
    ensures StartsWith(Concat(p), p[0])
    ensures OccursAt(p[2] + p[3], Concat(p), |p[0]| + |p[1]|)
    ensures EndsWith(Concat(p), p[28] + p[29])
  {
    PiecesStart(p);
    PiecesEnd(p, 28);
    assert p[28..] == [p[28], p[29]];
    ConcatPair(p[28], p[29]);
    assert p[..0] == [];
    PieceAt(p, 0);
    PieceAt(p, 1);
    PairAt(p, 2);
  }

  /** Where the section headings and the labelled lines of a thirty-piece text occur. */
  lemma {:induction false} ThirtyPieceLayout(p: seq<string>)
    requires |p| == 30
    ensures exists p1, p2, p3, p4 ::
      && OccursAt(p[5], Concat(p), p1)
      && OccursAt(p[11], Concat(p), p2)
      && OccursAt(p[22], Concat(p), p3)
      && OccursAt(p[26], Concat(p), p4)
      && p1 + |p[5]| <= p2 && p2 + |p[11]| <= p3 && p3 + |p[22]| <= p4
      && OccursWithin(p[7] + p[8], Concat(p), p1, p2)
      && OccursWithin(p[13] + p[14], Concat(p), p2, p3)
      && OccursWithin(p[16] + p[17], Concat(p), p2, p3)
      && OccursWithin(p[19] + p[20], Concat(p), p2, p3)
  {
    PieceAt(p, 5);
    PieceAt(p, 11);
    PieceAt(p, 22);
    PieceAt(p, 26);
    PieceBefore(p, 5, 11);
    PieceBefore(p, 11, 22);
    PieceBefore(p, 22, 26);
    PairWithin(p, 7, 5, 11);
    PairWithin(p, 13, 11, 22);
    PairWithin(p, 16, 11, 22);
    PairWithin(p, 19, 11, 22);
    var p1, p2, p3, p4 := Offset(p, 5), Offset(p, 11), Offset(p, 22), Offset(p, 26);
    assert OccursAt(p[5], Concat(p), p1) && OccursAt(p[11], Concat(p), p2);
  }

  lemma {:induction false} FallbackStartsWithHeader(t: Template, idea: string)
    ensures StartsWith(FallbackDocument(t, idea), t.header)
  {
    PiecesStart(FallbackPieces(t, idea));
  }

  /** The opening and closing lines of the fallback document: right after the header and
      its blank line the idea follows "Project Concept: " verbatim, and the document
      closes with the recommended stack. */
  lemma {:induction false} FallbackEnds(t: Template, idea: string)
    ensures OccursAt(ConceptLabel + idea, FallbackDocument(t, idea), |t.header| + 2)
    ensures EndsWith(FallbackDocument(t, idea), StackLabel + t.details.stack)
  {
    ThirtyPieceEnds(FallbackPieces(t, idea));
    OuterPieces(t, idea);
  }

  /** The body of the fallback document: the four section headings come in the order
      proposition, design, modules, tech; the proposition paragraph embeds the idea; and
      the design block lists the style, typography and palette of the same template. */
  lemma {:induction false} FallbackLayout(t: Template, idea: string)
    ensures exists p1, p2, p3, p4 ::
      && OccursAt(t.sections.proposition, FallbackDocument(t, idea), p1)
      && OccursAt(t.sections.design, FallbackDocument(t, idea), p2)
      && OccursAt(t.sections.modules, FallbackDocument(t, idea), p3)
      && OccursAt(t.sections.tech, FallbackDocument(t, idea), p4)
      && p1 + |t.sections.proposition| <= p2
      && p2 + |t.sections.design| <= p3
      && p3 + |t.sections.modules| <= p4
      && OccursWithin(PropositionLead + idea, FallbackDocument(t, idea), p1, p2)
      && OccursWithin(StyleLabel + t.details.designStyle, FallbackDocument(t, idea), p2, p3)
      && OccursWithin(TypographyLabel + t.details.typography, FallbackDocument(t, idea), p2, p3)
      && OccursWithin(PaletteLabel + t.details.palette, FallbackDocument(t, idea), p2, p3)
  {
    var p, doc := FallbackPieces(t, idea), FallbackDocument(t, idea);
    ThirtyPieceLayout(p);
    InnerPieces(t, idea);
    var p1, p2, p3, p4 :|
      && OccursAt(p[5], doc, p1) && OccursAt(p[11], doc, p2)
      && OccursAt(p[22], doc, p3) && OccursAt(p[26], doc, p4)
      && p1 + |p[5]| <= p2 && p2 + |p[11]| <= p3 && p3 + |p[22]| <= p4
      && OccursWithin(p[7] + p[8], doc, p1, p2)
      && OccursWithin(p[13] + p[14], doc, p2, p3)
      && OccursWithin(p[16] + p[17], doc, p2, p3)
      && OccursWithin(p[19] + p[20], doc, p2, p3);
    assert OccursAt(t.sections.proposition, doc, p1) && OccursAt(t.sections.design, doc, p2);
  }

  /** The instruction's opening sentence, up to the quoted idea. */
  const InstructionOpening := "You are an expert website architect. Transform this website idea: "

  /** The instruction between the quoted idea and the language clause, with the line
      breaks and the indentation of the template literal kept. */
  const InstructionMiddle := " into a professional, structured prompt. \n    Include: Value Proposition, Design Style, and UI Sections. \n    Constraint: The entire response must be"

  /** The closing words of the instruction, naming the output language; the instruction
      puts a space between them and `InstructionMiddle`. */
  function LanguageDemand(isArabic: bool): string {
    if isArabic then "written in Arabic only." else "written in English only."
  }

  /** Whatever precedes it, the closing demand ends the text with "Arabic only." exactly
      when it names Arabic, and with "English only." exactly when it names English. */
  lemma {:induction false} LanguageDemandEnding(head: string, isArabic: bool)
    ensures EndsWith(head + " " + LanguageDemand(isArabic), "written in Arabic only.") <==> isArabic
    ensures EndsWith(head + " " + LanguageDemand(isArabic), "written in English only.") <==> !isArabic
  {
    var w := LanguageDemand(isArabic);
    var s := head + " " + w;
    assert s[|s| - |w|..] == w;
    if isArabic {
      assert |w| == 23;
      assert s[|s| - 24] == ' ' != "written in English only."[0];
    } else {
      assert |w| == 24;
      assert s[|s| - 23] == w[1] == 'r' != "written in Arabic only."[0];
    }
  }

  lemma {:induction false} QuotedIdeaOccurs(opening: string, quoted: string, rest: string)
    ensures StartsWith(opening + quoted + rest, opening)
    ensures OccursAt(quoted, opening + quoted + rest, |opening|)
  {
    assert (opening + quoted + rest)[|opening|..|opening| + |quoted|] == quoted;
  }

  /** The instruction sent to the provider: it quotes the idea verbatim and demands Arabic
      output exactly when the idea contains Arabic script, English otherwise. */
  function ProviderInstruction(idea: string, isArabic: bool): (prompt: string)
    ensures StartsWith(prompt, InstructionOpening)
    ensures OccursAt("\"" + idea + "\"", prompt, |InstructionOpening|)
    ensures EndsWith(prompt, "written in Arabic only.") <==> isArabic
    ensures EndsWith(prompt, "written in English only.") <==> !isArabic
  {
    var quoted := "\"" + idea + "\"";
    var rest := InstructionMiddle + " " + LanguageDemand(isArabic);
    QuotedIdeaOccurs(InstructionOpening, quoted, rest);
    LanguageDemandEnding(InstructionOpening + quoted + InstructionMiddle, isArabic);
    assert InstructionOpening + quoted + rest
        == InstructionOpening + quoted + InstructionMiddle + " " + LanguageDemand(isArabic);
    InstructionOpening + quoted + rest
  }

  /** Which way the handler answered; both paths send the same wire shape. */
  datatype Outcome = Provider(text: string) | Fallback(text: string)

  /** The JSON body of every answer: `{enhancedPrompt}` and nothing else. */
  datatype EnhanceResponse = EnhanceResponse(enhancedPrompt: string)

  datatype HttpReply = HttpReply(status: int, body: EnhanceResponse)

  /** The try/catch of the `/api/enhance` handler. `hasApiKey` is whether `genAI` was
      created; `provider` gives the text the provider returns for an instruction, or `None`
      when the call or the reading of its text throws. A missing key throws before the
      provider is called, and every throw lands in the fallback. */
  function Enhance(idea: string, hasApiKey: bool, provider: string -> Option<string>): (o: Outcome)
    ensures !hasApiKey ==> o.Fallback?
    ensures o.Provider? <==> hasApiKey && provider(ProviderInstruction(idea, IsArabic(idea))).Some?
    ensures o.Provider? ==> o.text == provider(ProviderInstruction(idea, IsArabic(idea))).value
    ensures o.Fallback? && IsArabic(idea) ==> o.text == FallbackDocument(ArabicTemplate, idea)
    ensures o.Fallback? && !IsArabic(idea) ==> o.text == FallbackDocument(EnglishTemplate, idea)
  {
    if hasApiKey && provider(ProviderInstruction(idea, IsArabic(idea))).Some? then
      Provider(provider(ProviderInstruction(idea, IsArabic(idea))).value)
    else
      Fallback(FormatFallbackResponse(idea, Some(FallbackLang(idea))).value)
  }

  /** The handler's answer: always status 200 with `{enhancedPrompt}`, holding the provider's
      text verbatim on success and the fallback document of the detected script otherwise. */
  function HandleEnhance(idea: string, hasApiKey: bool, provider: string -> Option<string>): (reply: HttpReply)
    ensures reply.status == 200
    ensures hasApiKey && provider(ProviderInstruction(idea, IsArabic(idea))).Some? ==>
      reply.body.enhancedPrompt == provider(ProviderInstruction(idea, IsArabic(idea))).value
    ensures !(hasApiKey && provider(ProviderInstruction(idea, IsArabic(idea))).Some?) ==>
      reply.body.enhancedPrompt == FallbackDocument(if IsArabic(idea) then ArabicTemplate else EnglishTemplate, idea)
  {
    HttpReply(200, EnhanceResponse(Enhance(idea, hasApiKey, provider).text))
  }

  /** The two headers already differ in their fifth character. */
  lemma HeadersDiffer()
    ensures |EnglishTemplate.header| > 4 && |ArabicTemplate.header| > 4
    ensures EnglishTemplate.header[4] != ArabicTemplate.header[4]
  {
    assert EnglishTemplate.header[4] == 'S';
    assert ArabicTemplate.header[4] == '\U{0627}';
  }

  /** The fallback document of an idea begins with the Arabic header exactly when the idea
      contains Arabic script, and with the English header otherwise. */
  lemma {:induction false} FallbackHeaderFollowsScript(idea: string, hasApiKey: bool, provider: string -> Option<string>)
    requires Enhance(idea, hasApiKey, provider).Fallback?
    ensures StartsWith(Enhance(idea, hasApiKey, provider).text, ArabicTemplate.header) <==> IsArabic(idea)
    ensures StartsWith(Enhance(idea, hasApiKey, provider).text, EnglishTemplate.header) <==> !IsArabic(idea)
  {
    var text := Enhance(idea, hasApiKey, provider).text;
    HeadersDiffer();
    if IsArabic(idea) {
      FallbackStartsWithHeader(ArabicTemplate, idea);
      StartsWithExclusive(text, ArabicTemplate.header, EnglishTemplate.header, 4);
    } else {
      FallbackStartsWithHeader(EnglishTemplate, idea);
      StartsWithExclusive(text, EnglishTemplate.header, ArabicTemplate.header, 4);
    }
  }

  /** With no API key, the answer is the fallback document whatever the provider would say. */
  lemma NoKeyAnswerIgnoresProvider(idea: string, provider: string -> Option<string>, other: string -> Option<string>)
    ensures HandleEnhance(idea, false, provider) == HandleEnhance(idea, false, other)
    ensures Enhance(idea, false, provider).Fallback?
  {
  }
}
