/** Reasoning channels: the framings the renderers write and the stripper that undoes them. */
module Channels {
  import opened Common
  import opened Text

  /** The chat-control tokens that a clean field may not contain. */
  const CONTROL_TOKENS: seq<string> := [
    "<think>", "</think>", "<|im_start|>", "<|im_end|>", "<|channel>", "<channel|>", "<|channel|>",
    "<|turn>", "<turn|>", "<|think|>", "<bos>", "<|start|>", "<|end|>", "<|message|>", "<|return|>"]

  const ANALYSIS: string := "<|start|>" + "assistant<|channel|>" + "analysis<|message|>"
  const FINAL: string := "<|start|>" + "assistant<|channel|>" + "final<|message|>"

  /** Clean content and the extracted reasoning, if a channel was found. */
  type Stripped = (string, Option<string>)

  // ---- Framing ----

  function ChatMl(reasoning: string, content: string): string {
    "<think>" + reasoning + "</think>" + content
  }

  /** A stripped model turn carries an empty channel. */
  function Gemma(reasoning: Option<string>, content: string): string {
    "<|channel>thought\n" + (if reasoning.Some? then reasoning.value + "\n" else "") + "<channel|>" + content
  }

  function Harmony(reasoning: Option<string>, content: string): string {
    (if reasoning.Some? then ANALYSIS + reasoning.value + "<|end|>" else "") + FINAL + content + "<|return|>"
  }

  // ---- Stripping ----

  function TrimNewline(s: string): string {
    if s != [] && s[|s| - 1] == '\n' then s[..|s| - 1] else s
  }

  function StripPair(content: string, open: string, close: string, trim: bool): Option<Stripped> {
    match StripPrefix(content, open)
    case None => None
    case Some(rest) =>
      match Find(rest, close)
      case None => None
      case Some(end) =>
        var raw := rest[..end];
        Some((rest[end + |close|..], Some(if trim then TrimNewline(raw) else raw)))
  }

  /** The answer of a final channel; a missing end marker is tolerated. */
  function BeforeReturn(after: string): string {
    match Find(after, "<|return|>")
    case Some(end) => after[..end]
    case None => after
  }

  function StripHarmony(content: string): Option<Stripped> {
    match StripPrefix(content, ANALYSIS)
    case None => None
    case Some(rest) =>
      match Find(rest, "<|end|>")
      case None => None
      case Some(end) =>
        match StripPrefix(rest[end + |"<|end|>"|..], FINAL)
        case None => None
        case Some(after) =>
          Some((BeforeReturn(after), Some(rest[..end])))
  }

  function StripChannelTokens(content: string): Stripped {
    match StripPair(content, "<think>", "</think>", false)
    case Some(s) => s
    case None =>
      match StripPair(content, "<|channel>thought\n", "<channel|>", true)
      case Some(s) => s
      case None =>
        match StripHarmony(content)
        case Some(s) => s
        case None => (content, None)
  }

  /** The first control token that occurs in the text, in diagnostic order. */
  function FirstControlToken(text: string, from: nat): (token: Option<string>)
    requires from <= |CONTROL_TOKENS|
    ensures token.None? <==> forall i | from <= i < |CONTROL_TOKENS| :: Free(text, CONTROL_TOKENS[i])
    decreases |CONTROL_TOKENS| - from
  {
    if from == |CONTROL_TOKENS| then None
    else if Find(text, CONTROL_TOKENS[from]).Some? then Some(CONTROL_TOKENS[from])
    else FirstControlToken(text, from + 1)
  }

  /**
   * Ingest of textual content: a control token that survives the stripping is refused, and a
   * nonempty reasoning from the provider takes precedence over an extracted one.
   */
  function Ingest(text: string, provider: Option<string>): Result<Stripped> {
    var (clean, extracted) := StripChannelTokens(text);
    match FirstControlToken(clean, 0)
    case Some(token) => Err(token)
    case None => Ok((clean, if provider.Some? && provider.value != "" then provider else extracted))
  }

  ghost predicate Clean(text: string) {
    forall i | 0 <= i < |CONTROL_TOKENS| :: Free(text, CONTROL_TOKENS[i])
  }

  // ---- One pair of markers ----

  /** The pair strips to what was framed exactly when the reasoning is free of the close marker. */
  lemma PairInverts(open: string, close: string, reasoning: string, content: string)
    requires Unbordered(close)
    ensures StripPair(open + reasoning + close + content, open, close, false).Some?
    ensures StripPair(open + reasoning + close + content, open, close, false) == Some((content, Some(reasoning)))
            <==> Free(reasoning, close)
  {
    var rest := reasoning + close + content;
    assert open + reasoning + close + content == open + rest;
    StripsPrefix(open, rest);
    if Free(reasoning, close) {
      FoundAfterFree(reasoning, close, content);
    } else {
      assert rest == reasoning + (close + content);
      FoundEarly(reasoning, close, close + content);
    }
  }

  /** What a pair strips frames back to the very same text: stripping loses nothing. */
  lemma PairReframes(text: string, open: string, close: string)
    requires close != "" && StripPair(text, open, close, false).Some?
    ensures var (content, reasoning) := StripPair(text, open, close, false).value;
            reasoning.Some? && text == open + reasoning.value + close + content && Free(reasoning.value, close)
  {
    var rest := StripPrefix(text, open).value;
    FreeBeforeFound(rest, close);
    assert text == open + rest;
  }

  /** A newline before the close marker belongs to the framing. */
  lemma TrimmedPairInverts(open: string, close: string, reasoning: string, content: string)
    requires Unbordered(close) && |close| > 1
    ensures StripPair(open + (reasoning + "\n") + close + content, open, close, true).Some?
    ensures StripPair(open + (reasoning + "\n") + close + content, open, close, true)
            == Some((content, Some(reasoning)))
            <==> Free(reasoning + "\n", close)
  {
    var raw := reasoning + "\n";
    var rest := raw + close + content;
    assert open + raw + close + content == open + rest;
    StripsPrefix(open, rest);
    if Free(raw, close) {
      FoundAfterFree(raw, close, content);
      assert TrimNewline(raw) == reasoning;
    } else {
      assert rest == raw + (close + content);
      FoundEarly(raw, close, close + content);
    }
  }

  // ---- The three framings ----

  lemma ClosersAreUnbordered()
    ensures Unbordered("</think>") && Unbordered("<channel|>") && Unbordered("<|end|>") && Unbordered("<|return|>")
  {
    LeadingMark("</think>");
    LeadingMark("<channel|>");
    LeadingMark("<|end|>");
    LeadingMark("<|return|>");
  }

  lemma ChatMlInverts(reasoning: string, content: string)
    ensures StripChannelTokens(ChatMl(reasoning, content)) == (content, Some(reasoning))
            <==> Free(reasoning, "</think>")
  {
    ClosersAreUnbordered();
    PairInverts("<think>", "</think>", reasoning, content);
  }

  /** What strips as ChatML frames back to the same text, because ChatML adds no newline of its own. */
  lemma ChatMlReframes(text: string)
    requires StripPair(text, "<think>", "</think>", false).Some?
    ensures var (content, reasoning) := StripChannelTokens(text);
            reasoning.Some? && ChatMl(reasoning.value, content) == text
  {
    PairReframes(text, "<think>", "</think>");
  }

  lemma NewlineIsForeign(reasoning: string)
    ensures Free(reasoning + "\n", "<channel|>") <==> Free(reasoning, "<channel|>")
  {
    var longer, close := reasoning + "\n", "<channel|>";
    forall i: nat ensures IsAt(longer, close, i) <==> IsAt(reasoning, close, i) {
      if IsAt(longer, close, i) {
        AtChar(longer, close, i, |close| - 1);
        InsidePrefix(reasoning, "\n", close, i);
      } else if IsAt(reasoning, close, i) {
        InsideTake(longer, |reasoning|, close, i) by { assert longer[..|reasoning|] == reasoning; }
      }
    }
  }

  lemma GemmaSkipsThink(rest: string)
    ensures StripPair("<|channel>thought\n" + rest, "<think>", "</think>", false) == None
  {
    var text := "<|channel>thought\n" + rest;
    assert text[1] == '|' && "<think>"[1] == 't';
  }

  lemma GemmaInverts(reasoning: string, content: string)
    ensures StripChannelTokens(Gemma(Some(reasoning), content)) == (content, Some(reasoning))
            <==> Free(reasoning, "<channel|>")
  {
    var open, close := "<|channel>thought\n", "<channel|>";
    assert Gemma(Some(reasoning), content) == open + (reasoning + "\n") + close + content;
    assert Gemma(Some(reasoning), content) == open + (reasoning + "\n" + close + content);
    GemmaSkipsThink(reasoning + "\n" + close + content);
    ClosersAreUnbordered();
    TrimmedPairInverts(open, close, reasoning, content);
    NewlineIsForeign(reasoning);
  }

  /** The empty channel of a stripped turn is present but empty, not absent. */
  lemma EmptyGemmaInverts(content: string)
    ensures StripChannelTokens(Gemma(None, content)) == (content, Some(""))
  {
    var rest := "" + "<channel|>" + content;
    assert Gemma(None, content) == "<|channel>thought\n" + rest;
    assert Gemma(None, content) == "<|channel>thought\n" + "" + "<channel|>" + content;
    GemmaSkipsThink(rest);
    ClosersAreUnbordered();
    FoundAfterFree("", "<channel|>", content);
    StripsPrefix("<|channel>thought\n", rest);
  }

  lemma HarmonyMarkers()
    ensures |FINAL| > 29 && |ANALYSIS| > 29 && ANALYSIS[..9] == "<|start|>" == FINAL[..9]
    ensures ANALYSIS[29] == 'a' && FINAL[29] == 'f'
  {
  }

  predicate Opens(text: string, open: string) {
    |open| <= |text| && text[..|open|] == open
  }

  lemma OpensWith(text: string, open: string, k: nat)
    requires Opens(text, open) && k < |open|
    ensures text[k] == open[k]
  {
    assert text[k] == text[..|open|][k];
  }

  /** A text that opens a Harmony turn opens no other channel. */
  lemma HarmonyIsNoPair(text: string)
    requires Opens(text, "<|start|>")
    ensures StripPair(text, "<think>", "</think>", false) == None
    ensures StripPair(text, "<|channel>thought\n", "<channel|>", true) == None
  {
    assert text[1] == text[..9][1] == '|' && text[2] == text[..9][2] == 's';
    if Opens(text, "<think>") { OpensWith(text, "<think>", 1); }
    if Opens(text, "<|channel>thought\n") { OpensWith(text, "<|channel>thought\n", 2); }
  }

  /** The answer part of a Harmony turn. */
  lemma FinalInverts(content: string)
    ensures StripPrefix(FINAL + content + "<|return|>", FINAL) == Some(content + "<|return|>")
    ensures BeforeReturn(content + "<|return|>") == content <==> Free(content, "<|return|>")
  {
    assert FINAL + content + "<|return|>" == FINAL + (content + "<|return|>");
    StripsPrefix(FINAL, content + "<|return|>");
    ClosersAreUnbordered();
    if Free(content, "<|return|>") {
      FoundAfterFree(content, "<|return|>", "");
      assert content + "<|return|>" + "" == content + "<|return|>";
    } else {
      FoundEarly(content, "<|return|>", "<|return|>");
    }
  }

  /** The reasoning part: cut where it ends, or too early. */
  lemma AnalysisInverts(reasoning: string, answer: string)
    ensures Free(reasoning, "<|end|>") ==>
              StripHarmony(ANALYSIS + (reasoning + "<|end|>" + answer))
              == match StripPrefix(answer, FINAL)
                 case Some(after) => Some((BeforeReturn(after), Some(reasoning)))
                 case None => None
    ensures var s := StripHarmony(ANALYSIS + (reasoning + "<|end|>" + answer));
            !Free(reasoning, "<|end|>") && s.Some? ==> s.value.1 != Some(reasoning)
  {
    var rest := reasoning + "<|end|>" + answer;
    StripsPrefix(ANALYSIS, rest);
    ClosersAreUnbordered();
    if Free(reasoning, "<|end|>") {
      FoundAfterFree(reasoning, "<|end|>", answer);
    } else {
      assert rest == reasoning + ("<|end|>" + answer);
      FoundEarly(reasoning, "<|end|>", "<|end|>" + answer);
    }
  }

  lemma HarmonyInverts(reasoning: string, content: string)
    ensures StripChannelTokens(Harmony(Some(reasoning), content)) == (content, Some(reasoning))
            <==> Free(reasoning, "<|end|>") && Free(content, "<|return|>")
  {
    var rest := reasoning + "<|end|>" + (FINAL + content + "<|return|>");
    var text := ANALYSIS + rest;
    assert Harmony(Some(reasoning), content) == text;
    HarmonyMarkers();
    assert text[..9] == ANALYSIS[..9];
    HarmonyIsNoPair(text);
    AnalysisInverts(reasoning, FINAL + content + "<|return|>");
    FinalInverts(content);
  }

  /** A Harmony turn without reasoning is not undone: its lone final channel stays in the text. */
  lemma FinalAloneIsKept(content: string)
    ensures StripChannelTokens(Harmony(None, content)) == (Harmony(None, content), None)
    ensures Ingest(Harmony(None, content), None).Err?
  {
    var rest := content + "<|return|>";
    var text := FINAL + rest;
    assert Harmony(None, content) == text;
    HarmonyMarkers();
    assert text[..9] == FINAL[..9];
    HarmonyIsNoPair(text);
    assert text[29] == FINAL[29];
    if Opens(text, ANALYSIS) { OpensWith(text, ANALYSIS, 29); }
    assert IsAt(text, CONTROL_TOKENS[11], 0);
  }

  // ---- Clean text ----

  /** A clean text has no channel to strip. */
  lemma CleanIsKept(content: string)
    requires Clean(content)
    ensures StripChannelTokens(content) == (content, None)
  {
    assert Free(content, CONTROL_TOKENS[0]) && Free(content, CONTROL_TOKENS[4]) && Free(content, CONTROL_TOKENS[11]);
    HarmonyMarkers();
    StartsFree(content, "<think>", "<think>");
    StartsFree(content, "<|channel>thought\n", "<|channel>");
    StartsFree(content, ANALYSIS, "<|start|>");
  }

  lemma StartsFree(content: string, open: string, token: string)
    requires Free(content, token) && Opens(open, token)
    ensures StripPrefix(content, open) == None
  {
    if StripPrefix(content, open).Some? {
      assert content[..|token|] == content[..|open|][..|token|];
      assert IsAt(content, token, 0);
    }
  }

  lemma CleanIsFree(text: string)
    requires Clean(text)
    ensures Free(text, "</think>") && Free(text, "<channel|>") && Free(text, "<|end|>") && Free(text, "<|return|>")
  {
    assert Free(text, CONTROL_TOKENS[1]) && Free(text, CONTROL_TOKENS[5]);
    assert Free(text, CONTROL_TOKENS[12]) && Free(text, CONTROL_TOKENS[14]);
  }

  lemma CleanIsAccepted(text: string, clean: string, reasoning: Option<string>)
    requires Clean(clean) && StripChannelTokens(text) == (clean, reasoning)
    ensures Ingest(text, None) == Ok((clean, reasoning))
  {
  }

  /** Ingest accepts every framing of a clean turn and gives back exactly the turn. */
  lemma IngestInverts(reasoning: string, content: string)
    requires Clean(reasoning) && Clean(content)
    ensures Ingest(ChatMl(reasoning, content), None) == Ok((content, Some(reasoning)))
    ensures Ingest(Gemma(Some(reasoning), content), None) == Ok((content, Some(reasoning)))
    ensures Ingest(Gemma(None, content), None) == Ok((content, Some("")))
    ensures Ingest(Harmony(Some(reasoning), content), None) == Ok((content, Some(reasoning)))
    ensures Ingest(content, None) == Ok((content, None))
  {
    CleanIsFree(reasoning);
    CleanIsFree(content);
    ChatMlInverts(reasoning, content);
    GemmaInverts(reasoning, content);
    EmptyGemmaInverts(content);
    HarmonyInverts(reasoning, content);
    CleanIsKept(content);
    CleanIsAccepted(ChatMl(reasoning, content), content, Some(reasoning));
    CleanIsAccepted(Gemma(Some(reasoning), content), content, Some(reasoning));
    CleanIsAccepted(Gemma(None, content), content, Some(""));
    CleanIsAccepted(Harmony(Some(reasoning), content), content, Some(reasoning));
    CleanIsAccepted(content, content, None);
  }

  /** Whatever ingest accepts is clean. */
  lemma IngestIsClean(text: string, provider: Option<string>)
    requires Ingest(text, provider).Ok?
    ensures Clean(Ingest(text, provider).value.0)
  {
  }
}
