/** The logic of the result panel (`TranslationView`) of both apps: the
    image preview size of CaptureLingo, the language label, and how the
    translation outcome lands in the panel's state. The localized language
    names are an oracle. */
module ResultPanel {
  import opened Wrappers
  import opened Common
  import opened TextOps
  import opened ScriptDetector
  import opened TranslationService

  // ------------------------------------------------ the preview size

  const MaxPreviewWidth: real := 680.0
  const MaxPreviewHeight: real := 200.0

  datatype Size = Size(width: real, height: real)

  function Max(a: real, b: real): real {
    if a >= b then a else b
  }

  /** The displayed size with each side raised to at least 1. */
  function SourceSize(display: Size): Size {
    Size(Max(1.0, display.width), Max(1.0, display.height))
  }

  /** `previewSize`: scale down to width 680, then to height 200; never up. */
  function PreviewSize(display: Size): (r: Size)
    ensures 0.0 < r.width <= MaxPreviewWidth && 0.0 < r.height <= MaxPreviewHeight
    ensures r.width <= SourceSize(display).width && r.height <= SourceSize(display).height
    ensures r.width * SourceSize(display).height == r.height * SourceSize(display).width
    ensures SourceSize(display).width <= MaxPreviewWidth && SourceSize(display).height <= MaxPreviewHeight ==>
      r == SourceSize(display)
  {
    var s := SourceSize(display);
    var afterWidth := if s.width > MaxPreviewWidth then Size(MaxPreviewWidth, s.height * (MaxPreviewWidth / s.width)) else s;
    ShrinkKeepsRatio(s, MaxPreviewWidth / s.width);
    assert afterWidth.width * s.height == afterWidth.height * s.width;
    var r := if afterWidth.height > MaxPreviewHeight
      then Size(afterWidth.width * (MaxPreviewHeight / afterWidth.height), MaxPreviewHeight)
      else afterWidth;
    RatioStep(s, afterWidth, r);
    r
  }

  /** Scaling both sides by the same factor keeps the ratio of `s`. */
  lemma ShrinkKeepsRatio(s: Size, f: real)
    ensures (s.height * f) * s.width == s.height * (s.width * f)
  {
  }

  /** The height step keeps the ratio the width step kept. */
  lemma RatioStep(s: Size, a: Size, r: Size)
    requires a.height > 0.0
    requires a.width * s.height == a.height * s.width
    requires r == (if a.height > MaxPreviewHeight then Size(a.width * (MaxPreviewHeight / a.height), MaxPreviewHeight) else a)
    ensures r.width * s.height == r.height * s.width
  {
    if a.height > MaxPreviewHeight {
      var f := MaxPreviewHeight / a.height;
      assert r.width * s.height == f * (a.width * s.height);
      assert f * a.height == MaxPreviewHeight;
    }
  }

  // ------------------------------------------------ the language label

  /** `Locale.current.localizedString(forIdentifier:)` and
      `localizedString(forLanguageCode:)`. */
  datatype LocaleNames = LocaleNames(
    forIdentifier: string -> Option<string>,
    forLanguageCode: string -> Option<string>)

  /** Trimmed, '_' replaced by '-', lower-cased. */
  function NormalizeCode(tab: CharTable, code: string): string {
    Lower(ReplaceAll(Trim(tab, code), "_", "-"))
  }

  const LabelPrefix: string := "Language: "
  const TaiwanLabel: string := "Language: 繁体中文（台湾）"

  predicate IsTaiwanCode(normalized: string) {
    normalized == "zh-tw" || normalized == "zh-hant-tw"
  }

  /** A name the locale gives, when present and non-empty. */
  function Named(name: Option<string>): Option<string> {
    if name.Some? && name.value != [] then name else None
  }

  /** The part before the first '-', or the whole code when there is
      none. */
  function BaseCode(normalized: string): string {
    FirstComponent(normalized, '-').GetOr(normalized)
  }

  /** `formatLanguageLabel(_:)` (the same in both apps). */
  function FormatLanguageLabel(tab: CharTable, names: LocaleNames, code: Option<string>): (r: Option<string>)
    ensures r.None? <==> code.None? || NormalizeCode(tab, code.value) == []
    ensures r.Some? ==> HasPrefix(r.value, LabelPrefix) && |r.value| > |LabelPrefix|
  {
    match code
    case None => None
    case Some(c) =>
      var normalized := NormalizeCode(tab, c);
      if normalized == [] then None
      else if IsTaiwanCode(normalized) then TaiwanPrefix(); Some(TaiwanLabel)
      else match Named(names.forIdentifier(normalized))
        case Some(exact) => Some(LabelPrefix + exact)
        case None =>
          match Named(names.forLanguageCode(BaseCode(normalized)))
          case Some(name) => Some(LabelPrefix + name)
          case None => Some(LabelPrefix + normalized)
  }

  lemma TaiwanPrefix()
    ensures HasPrefix(TaiwanLabel, LabelPrefix) && |TaiwanLabel| > |LabelPrefix|
  {
    assert TaiwanLabel == LabelPrefix + "繁体中文（台湾）";
  }

  // ------------------------------------------------ the panel state

  /** The view's state: the translation text, the error message, the
      label, the spinner flag, and whether a translation task is held. */
  datatype PanelState = PanelState(
    translation: string,
    errorMessage: Option<string>,
    detectedLanguageLabel: Option<string>,
    isTranslating: bool,
    hasTask: bool)

  const InitialPanel := PanelState("Translating...", None, None, false, false)

  /** How the translation task ended: with the service's result, or with a
      `CancellationError`. */
  datatype TaskEnd = Finished(result: Result<TranslationOutput, Err>) | CancellationThrown

  /** `startTranslation`: does nothing while a task is held. */
  function StartTranslation(state: PanelState): PanelState {
    if state.hasTask then state else state.(isTranslating := true, hasTask := true)
  }

  /** The label source on success: the detected language, else the hint. */
  function SuccessLabelSource(output: TranslationOutput, hint: Option<string>): Option<string> {
    if output.detectedSourceLanguage.Some? then output.detectedSourceLanguage else hint
  }

  /** The end of the task in `startTranslation`. A result that arrives
      after the task was cancelled is dropped without touching the state. */
  function FinishTranslation(tab: CharTable, names: LocaleNames, state: PanelState, hint: Option<string>,
                             end: TaskEnd, cancelled: bool): PanelState
  {
    match end
    case CancellationThrown => state.(isTranslating := false, hasTask := false)
    case Finished(result) =>
      if cancelled then state
      else match result
        case Success(output) =>
          state.(translation := output.translatedText,
                 detectedLanguageLabel := FormatLanguageLabel(tab, names, SuccessLabelSource(output, hint)),
                 isTranslating := false, hasTask := false)
        case Failure(e) =>
          state.(errorMessage := Some("Translation failed: " + e.Description()),
                 detectedLanguageLabel := FormatLanguageLabel(tab, names, hint),
                 isTranslating := false, hasTask := false)
  }

  /** `cancelTranslation`: drops the task and stops the spinner; the text,
      the error and the label stay as they are. */
  function CancelTranslation(state: PanelState): (r: PanelState)
    ensures !r.hasTask && !r.isTranslating
    ensures r.translation == state.translation && r.errorMessage == state.errorMessage
    ensures r.detectedLanguageLabel == state.detectedLanguageLabel
  {
    state.(isTranslating := false, hasTask := false)
  }

  // ---------------------------------------------------------------- lemmas

  /** A display size within the bounds, each side at least 1, is shown as
      it is. */
  lemma PreviewOfSmallImage(w: real, h: real)
    requires 1.0 <= w <= MaxPreviewWidth && 1.0 <= h <= MaxPreviewHeight
    ensures PreviewSize(Size(w, h)) == Size(w, h)
  {
  }

  /** A wide image is capped at width 680 and keeps its ratio. */
  lemma PreviewOfWideImage(w: real, h: real)
    requires w > MaxPreviewWidth && 1.0 <= h && h * MaxPreviewWidth <= MaxPreviewHeight * w
    ensures PreviewSize(Size(w, h)) == Size(MaxPreviewWidth, h * (MaxPreviewWidth / w))
  {
    var f := MaxPreviewWidth / w;
    assert f * w == MaxPreviewWidth;
    assert h * f <= MaxPreviewHeight by {
      assert h * f * w == h * MaxPreviewWidth;
    }
  }

  /** The Taiwan codes get the fixed label whatever the locale says. */
  lemma TaiwanLabelFixed(tab: CharTable, names: LocaleNames, other: LocaleNames, code: string)
    requires IsTaiwanCode(NormalizeCode(tab, code))
    ensures FormatLanguageLabel(tab, names, Some(code)) == Some(TaiwanLabel)
    ensures FormatLanguageLabel(tab, names, Some(code)) == FormatLanguageLabel(tab, other, Some(code))
  {
  }

  /** With no name from the locale the label is the normalised code. */
  lemma LabelFallback(tab: CharTable, names: LocaleNames, code: string)
    requires NormalizeCode(tab, code) != [] && !IsTaiwanCode(NormalizeCode(tab, code))
    requires Named(names.forIdentifier(NormalizeCode(tab, code))).None?
    requires Named(names.forLanguageCode(BaseCode(NormalizeCode(tab, code)))).None?
    ensures FormatLanguageLabel(tab, names, Some(code)) == Some(LabelPrefix + NormalizeCode(tab, code))
  {
  }

  /** The exact identifier is looked up before the base code. */
  lemma ExactNameFirst(tab: CharTable, names: LocaleNames, code: string)
    requires NormalizeCode(tab, code) != [] && !IsTaiwanCode(NormalizeCode(tab, code))
    requires Named(names.forIdentifier(NormalizeCode(tab, code))).Some?
    ensures FormatLanguageLabel(tab, names, Some(code))
         == Some(LabelPrefix + names.forIdentifier(NormalizeCode(tab, code)).value)
  {
  }

  /** Without a name for the exact identifier, the base code's name is
      used: the first '-'-free run of the normalised code, which is the part
      before its first '-' when the code does not start with one. */
  lemma BaseNameFallback(tab: CharTable, names: LocaleNames, code: string)
    requires NormalizeCode(tab, code) != [] && !IsTaiwanCode(NormalizeCode(tab, code))
    requires Named(names.forIdentifier(NormalizeCode(tab, code))).None?
    requires Named(names.forLanguageCode(BaseCode(NormalizeCode(tab, code)))).Some?
    ensures FormatLanguageLabel(tab, names, Some(code))
         == Some(LabelPrefix + names.forLanguageCode(BaseCode(NormalizeCode(tab, code))).value)
    ensures var n := NormalizeCode(tab, code);
      n[0] != '-' ==>
        (HasPrefix(n, BaseCode(n)) && '-' !in BaseCode(n) && (|BaseCode(n)| == |n| || n[|BaseCode(n)|] == '-'))
  {
    var n := NormalizeCode(tab, code);
    if n[0] != '-' {
      assert SkipSeparators(n, '-') == n;
    }
  }

  /** Normalising twice changes nothing more. */
  lemma NormalizeIdempotent(tab: CharTable, code: string)
    requires WellFormedCodeTable(tab)
    ensures NormalizeCode(tab, NormalizeCode(tab, code)) == NormalizeCode(tab, code)
  {
    var n := NormalizeCode(tab, code);
    NormalizedIsTrimmed(tab, code);
    NormalizedHasNoUnderscore(tab, code);
    ReplaceAllAbsent(n, "_", "-");
    assert NormalizeCode(tab, n) == Lower(n);
    LowerIdempotent(ReplaceAll(Trim(tab, code), "_", "-"));
  }

  /** A normalised code is its own trim. */
  lemma NormalizedIsTrimmed(tab: CharTable, code: string)
    requires WellFormedCodeTable(tab)
    ensures Trim(tab, NormalizeCode(tab, code)) == NormalizeCode(tab, code)
  {
    var t := Trim(tab, code);
    var replaced := ReplaceAll(t, "_", "-");
    ReplaceAllRemoves(t, "_", "-");
    LowerKeepsEdges(tab, replaced, t);
    TrimFixedPoint(tab, Lower(replaced));
  }

  /** A normalised code holds no '_'. */
  lemma NormalizedHasNoUnderscore(tab: CharTable, code: string)
    ensures '_' !in NormalizeCode(tab, code)
  {
    var t := Trim(tab, code);
    ReplaceAllRemoves(t, "_", "-");
    LowerNoUnderscore(ReplaceAll(t, "_", "-"));
  }

  /** The whitespace facts normalising relies on: '-' is not whitespace,
      and lower-casing a character that is not whitespace does not make it
      whitespace. */
  ghost predicate WellFormedCodeTable(tab: CharTable) {
    && !tab.isWhitespace('-')
    && forall c :: !tab.isWhitespace(c) ==> !tab.isWhitespace(LowerChar(c))
  }

  /** After the replacement no '_' is left. */
  lemma {:induction false} ReplaceAllRemoves(s: string, pat: string, rep: string)
    requires pat == "_" && rep == "-"
    ensures '_' !in ReplaceAll(s, pat, rep)
    ensures |ReplaceAll(s, pat, rep)| == |s|
    ensures forall k :: 0 <= k < |s| ==> ReplaceAll(s, pat, rep)[k] == if s[k] == '_' then '-' else s[k]
    decreases |s|
  {
    if |s| >= 1 {
      ReplaceAllRemoves(s[1..], pat, rep);
      var tail := ReplaceAll(s[1..], pat, rep);
      assert s[..1] == [s[0]];
      if s[0] == '_' {
        assert ReplaceAll(s, pat, rep) == "-" + tail;
      } else {
        assert s[..|pat|] != pat;
        assert ReplaceAll(s, pat, rep) == [s[0]] + tail;
      }
    }
  }

  /** Replacing and lower-casing keep the ends of trimmed text
      non-whitespace. */
  lemma LowerKeepsEdges(tab: CharTable, replaced: string, t: string)
    requires WellFormedCodeTable(tab)
    requires t == [] || (!tab.isWhitespace(t[0]) && !tab.isWhitespace(t[|t| - 1]))
    requires |replaced| == |t|
    requires forall k :: 0 <= k < |t| ==> replaced[k] == if t[k] == '_' then '-' else t[k]
    ensures var n := Lower(replaced);
      n == [] || (!tab.isWhitespace(n[0]) && !tab.isWhitespace(n[|n| - 1]))
  {
  }

  lemma LowerNoUnderscore(s: string)
    requires '_' !in s
    ensures '_' !in Lower(s)
  {
  }

  /** On success the label comes from the detected language when there is
      one, else from the OCR hint; on failure from the hint alone, and the
      error message replaces the text. */
  lemma FinishLabels(tab: CharTable, names: LocaleNames, state: PanelState, hint: Option<string>,
                     result: Result<TranslationOutput, Err>)
    ensures var s := FinishTranslation(tab, names, state, hint, Finished(result), false);
      && !s.isTranslating && !s.hasTask
      && (result.Success? && result.value.detectedSourceLanguage.Some? ==>
            s.detectedLanguageLabel == FormatLanguageLabel(tab, names, result.value.detectedSourceLanguage)
            && s.translation == result.value.translatedText && s.errorMessage == state.errorMessage)
      && (result.Success? && result.value.detectedSourceLanguage.None? ==>
            s.detectedLanguageLabel == FormatLanguageLabel(tab, names, hint))
      && (result.Failure? ==>
            s.detectedLanguageLabel == FormatLanguageLabel(tab, names, hint)
            && s.errorMessage == Some("Translation failed: " + result.error.Description())
            && s.translation == state.translation)
  {
  }

  /** A result that arrives after cancellation changes nothing; a thrown
      `CancellationError` only stops the spinner and drops the task. */
  lemma CancelledResultDropped(tab: CharTable, names: LocaleNames, state: PanelState, hint: Option<string>,
                               result: Result<TranslationOutput, Err>, cancelled: bool)
    ensures FinishTranslation(tab, names, state, hint, Finished(result), true) == state
    ensures FinishTranslation(tab, names, state, hint, CancellationThrown, cancelled)
         == state.(isTranslating := false, hasTask := false)
  {
  }

  /** Starting while a task is held is a no-op, and starting twice is
      starting once. */
  lemma StartTwice(state: PanelState)
    ensures StartTranslation(StartTranslation(state)) == StartTranslation(state)
    ensures StartTranslation(state).hasTask && StartTranslation(state).isTranslating == (state.isTranslating || !state.hasTask)
  {
  }

  /** After a cancellation a new translation can start, and the old task's
      late result is dropped. */
  lemma CancelThenRestart(tab: CharTable, names: LocaleNames, state: PanelState, hint: Option<string>,
                          result: Result<TranslationOutput, Err>)
    ensures var s := StartTranslation(CancelTranslation(state));
      s.hasTask && s.isTranslating && s.translation == state.translation
    ensures FinishTranslation(tab, names, CancelTranslation(state), hint, Finished(result), true) == CancelTranslation(state)
  {
  }

  /** "zh_TW" normalises to a Taiwan code. */
  lemma TaiwanUnderscore(tab: CharTable, a: string)
    requires WellFormed(tab) && a == "zh_TW"
    ensures NormalizeCode(tab, a) == "zh-tw"
    ensures IsTaiwanCode(NormalizeCode(tab, a))
  {
    UnderscoreNormalized(tab, a);
    FiveChars(NormalizeCode(tab, a), 'z', 'h', '-', 't', 'w');
    assert "zh-tw" == ['z', 'h', '-', 't', 'w'];
  }

  /** The characters of the normal form of "zh_TW". */
  lemma UnderscoreNormalized(tab: CharTable, a: string)
    requires WellFormed(tab) && a == "zh_TW"
    ensures var n := NormalizeCode(tab, a);
      |n| == 5 && n[0] == 'z' && n[1] == 'h' && n[2] == '-' && n[3] == 't' && n[4] == 'w'
  {
    UnderscorePrintable(a);
    NormalizePrintable(tab, a);
    assert LowerChar('T') == 't' && LowerChar('W') == 'w';
  }

  /** "zh_TW" is printable ASCII. */
  lemma UnderscorePrintable(a: string)
    requires a == "zh_TW"
    ensures |a| > 0 && forall k :: 0 <= k < |a| ==> 0x21 <= a[k] as int <= 0x7E
    ensures a[0] == 'z' && a[1] == 'h' && a[2] == '_' && a[3] == 'T' && a[4] == 'W'
  {
  }

  /** A five-character string is the sequence of its characters. */
  lemma FiveChars(x: string, c0: char, c1: char, c2: char, c3: char, c4: char)
    requires |x| == 5 && x[0] == c0 && x[1] == c1 && x[2] == c2 && x[3] == c3 && x[4] == c4
    ensures x == [c0, c1, c2, c3, c4]
  {
  }

  /** "ZH-Hant-TW" is not itself a Taiwan code, but normalises to one. */
  lemma TaiwanMixedCase(tab: CharTable, b: string)
    requires WellFormed(tab) && b == "ZH-Hant-TW"
    ensures !IsTaiwanCode(b) && NormalizeCode(tab, b) != b
    ensures IsTaiwanCode(NormalizeCode(tab, b))
  {
    NormalizePrintable(tab, b);
    assert NormalizeCode(tab, b) == "zh-hant-tw";
    assert b[0] == 'Z' && |b| != |"zh-tw"|;
  }

  /** Printable ASCII text normalises character by character. */
  lemma NormalizePrintable(tab: CharTable, s: string)
    requires WellFormed(tab) && |s| > 0
    requires forall k :: 0 <= k < |s| ==> 0x21 <= s[k] as int <= 0x7E
    ensures |NormalizeCode(tab, s)| == |s|
    ensures forall k :: 0 <= k < |s| ==> NormalizeCode(tab, s)[k] == LowerChar(if s[k] == '_' then '-' else s[k])
  {
    PrintableIsOwnTrim(tab, s);
    ReplaceAllRemoves(s, "_", "-");
  }

  /** Printable ASCII text is its own trim. */
  lemma PrintableIsOwnTrim(tab: CharTable, s: string)
    requires WellFormed(tab) && |s| > 0
    requires forall k :: 0 <= k < |s| ==> 0x21 <= s[k] as int <= 0x7E
    ensures Trim(tab, s) == s
  {
    TrimFixedPoint(tab, s);
  }
}
