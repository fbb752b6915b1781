/** The local OCR fallback: the six-pass per-image cascade
    (`performLocalFallbackOCR`, the same in both apps) and CaptureLingo's
    best-of-variants loop (`performBestLocalFallbackOCR`). */
module LocalCascade {
  import opened Wrappers
  import opened Common
  import opened TextOps
  import opened ScriptDetector
  import opened TextQuality
  import opened ImageVariants
  import opened Recognition

  /** `OCRTextResult` */
  datatype OCRTextResult = OCRTextResult(text: string, detectedLanguage: Option<string>)

  /** The locales of the last-resort mixed pass, in request order. */
  const MixedLanguages: seq<string> :=
    ["en-US", "ja-JP", "zh-Hant", "zh-Hans", "ko-KR", "fr-FR", "de-DE", "es-ES", "it-IT", "pt-BR", "ru-RU"]

  /** One recognition call of a pass: the hint list and the
      language-correction flag in, the joined text or the thrown error out. */
  type Runner = (seq<string>, bool) -> Result<string, Err>

  /** `performOCR` on one image with one engine, as a runner. */
  function LocalRunner(app: App, engine: Engine, image: Image): Runner {
    (languages, correction) => PerformOCR(app, engine, image, languages, correction)
  }

  /** The six passes of `performLocalFallbackOCR`: auto, Japanese,
      Traditional Chinese, Simplified Chinese, English, mixed; each pass
      returns when its own gate holds, and any thrown error ends the
      cascade. */
  function Cascade(tab: CharTable, run: Runner): Result<OCRTextResult, Err> {
    var autoText :- run([], true);
    if IsUsableOCRText(tab, autoText) then
      Success(OCRTextResult(autoText, GuessLanguageCode(tab, autoText)))
    else
    var japaneseText :- run(["ja-JP"], false);
    if ContainsJapanese(japaneseText) then
      Success(OCRTextResult(japaneseText, Some("ja")))
    else
    var traditionalChineseText :- run(["zh-Hant"], false);
    if ContainsChinese(traditionalChineseText) then
      Success(OCRTextResult(traditionalChineseText, Some("zh-TW")))
    else
    var simplifiedChineseText :- run(["zh-Hans"], false);
    if ContainsChinese(simplifiedChineseText) then
      Success(OCRTextResult(simplifiedChineseText, Some("zh-CN")))
    else
    var englishText :- run(["en-US"], true);
    if Trim(tab, englishText) != [] then
      Success(OCRTextResult(englishText, Some("en")))
    else
    var mixedText :- run(MixedLanguages, true);
    Success(OCRTextResult(mixedText, GuessLanguageCode(tab, mixedText)))
  }

  /** `performLocalFallbackOCR` */
  function LocalFallbackOCR(app: App, tab: CharTable, engine: Engine, image: Image): Result<OCRTextResult, Err> {
    Cascade(tab, LocalRunner(app, engine, image))
  }

  // ----------------------------------------------- reference definition

  /** The acceptance rule of a pass. */
  datatype Gate = Usable | HasJapanese | HasChinese | NonBlank | Always

  /** One pass: its hints, its language-correction flag, its gate, and its
      fixed detected-language label (nil: guess from the text). */
  datatype LocalPass = LocalPass(languages: seq<string>, usesLanguageCorrection: bool,
                                 gate: Gate, fixedLabel: Option<string>)

  /** The number of passes. */
  const PassCount: nat := 6

  /** Pass `k` of the six, in the order they run. */
  function PassAt(k: nat): LocalPass
    requires k < PassCount
  {
    if k == 0 then LocalPass([], true, Usable, None)
    else if k == 1 then LocalPass(["ja-JP"], false, HasJapanese, Some("ja"))
    else if k == 2 then LocalPass(["zh-Hant"], false, HasChinese, Some("zh-TW"))
    else if k == 3 then LocalPass(["zh-Hans"], false, HasChinese, Some("zh-CN"))
    else if k == 4 then LocalPass(["en-US"], true, NonBlank, Some("en"))
    else LocalPass(MixedLanguages, true, Always, None)
  }

  predicate Accepts(tab: CharTable, gate: Gate, text: string) {
    match gate
    case Usable => IsUsableOCRText(tab, text)
    case HasJapanese => ContainsJapanese(text)
    case HasChinese => ContainsChinese(text)
    case NonBlank => Trim(tab, text) != []
    case Always => true
  }

  function Labelled(tab: CharTable, pass: LocalPass, text: string): OCRTextResult {
    OCRTextResult(text, if pass.fixedLabel.Some? then pass.fixedLabel else GuessLanguageCode(tab, text))
  }

  /** The recognized text of pass `k`. */
  function PassText(run: Runner, k: nat): Result<string, Err>
    requires k < PassCount
  {
    run(PassAt(k).languages, PassAt(k).usesLanguageCorrection)
  }

  /** Pass `j` ran, did not throw, and its gate rejected the text. */
  predicate Rejected(tab: CharTable, run: Runner, j: nat)
    requires j < PassCount
  {
    PassText(run, j).Success? && !Accepts(tab, PassAt(j).gate, PassText(run, j).value)
  }

  /** The cascade ends at pass `k`: every earlier pass was rejected, and
      pass `k` threw or was accepted. */
  predicate EndsAt(tab: CharTable, run: Runner, k: nat)
    requires k < PassCount
  {
    && (forall j :: 0 <= j < k ==> Rejected(tab, run, j))
    && !Rejected(tab, run, k)
  }

  /** The outcome of the cascade ending at pass `k`. */
  function OutcomeAt(tab: CharTable, run: Runner, k: nat): Result<OCRTextResult, Err>
    requires k < PassCount
  {
    match PassText(run, k)
    case Failure(e) => Failure(e)
    case Success(t) => Success(Labelled(tab, PassAt(k), t))
  }

  // ---------------------------------------------------------------- lemmas

  /** The cascade ends at some pass. */
  lemma EndsAtSome(tab: CharTable, run: Runner)
    ensures exists k :: 0 <= k < PassCount && EndsAt(tab, run, k)
  {
    var k: nat := 0;
    while k < 5 && Rejected(tab, run, k)
      invariant k <= 5
      invariant forall j :: 0 <= j < k ==> Rejected(tab, run, j)
    {
      k := k + 1;
    }
    assert EndsAt(tab, run, k);
  }

  /** The cascade ends at only one pass. */
  lemma EndsAtUnique(tab: CharTable, run: Runner, k: nat, k': nat)
    requires k < PassCount && EndsAt(tab, run, k)
    requires k' < PassCount && EndsAt(tab, run, k')
    ensures k == k'
  {
  }

  // One lemma per pass the cascade can end at.

  lemma EndsAtAuto(tab: CharTable, run: Runner)
    requires EndsAt(tab, run, 0)
    ensures Cascade(tab, run) == OutcomeAt(tab, run, 0)
  {
    assert PassAt(0) == LocalPass([], true, Usable, None);
  }

  lemma EndsAtJapanese(tab: CharTable, run: Runner)
    requires EndsAt(tab, run, 1)
    ensures Cascade(tab, run) == OutcomeAt(tab, run, 1)
  {
    assert PassAt(1) == LocalPass(["ja-JP"], false, HasJapanese, Some("ja"));
    assert Rejected(tab, run, 0);
  }

  lemma EndsAtTraditionalChinese(tab: CharTable, run: Runner)
    requires EndsAt(tab, run, 2)
    ensures Cascade(tab, run) == OutcomeAt(tab, run, 2)
  {
    assert PassAt(2) == LocalPass(["zh-Hant"], false, HasChinese, Some("zh-TW"));
    assert Rejected(tab, run, 0);
    assert Rejected(tab, run, 1);
  }

  lemma EndsAtSimplifiedChinese(tab: CharTable, run: Runner)
    requires EndsAt(tab, run, 3)
    ensures Cascade(tab, run) == OutcomeAt(tab, run, 3)
  {
    assert PassAt(3) == LocalPass(["zh-Hans"], false, HasChinese, Some("zh-CN"));
    assert Rejected(tab, run, 0);
    assert Rejected(tab, run, 1);
    assert Rejected(tab, run, 2);
  }

  lemma EndsAtEnglish(tab: CharTable, run: Runner)
    requires EndsAt(tab, run, 4)
    ensures Cascade(tab, run) == OutcomeAt(tab, run, 4)
  {
    assert PassAt(4) == LocalPass(["en-US"], true, NonBlank, Some("en"));
    assert Rejected(tab, run, 0);
    assert Rejected(tab, run, 1);
    assert Rejected(tab, run, 2);
    assert Rejected(tab, run, 3);
  }

  lemma EndsAtMixed(tab: CharTable, run: Runner)
    requires EndsAt(tab, run, 5)
    ensures Cascade(tab, run) == OutcomeAt(tab, run, 5)
  {
    assert PassAt(5) == LocalPass(MixedLanguages, true, Always, None);
    assert Rejected(tab, run, 0);
    assert Rejected(tab, run, 1);
    assert Rejected(tab, run, 2);
    assert Rejected(tab, run, 3);
    assert Rejected(tab, run, 4);
  }

  /** The cascade returns the outcome of the pass it ends at: the text of
      the first pass whose gate holds, with that pass's label (a guess for
      the auto and mixed passes), or the error of the first pass that threw
      before any gate held. */
  lemma CascadeIsFirstAccepted(tab: CharTable, run: Runner, k: nat)
    requires k < PassCount && EndsAt(tab, run, k)
    ensures Cascade(tab, run) == OutcomeAt(tab, run, k)
  {
    if k == 0 { EndsAtAuto(tab, run); }
    else if k == 1 { EndsAtJapanese(tab, run); }
    else if k == 2 { EndsAtTraditionalChinese(tab, run); }
    else if k == 3 { EndsAtSimplifiedChinese(tab, run); }
    else if k == 4 { EndsAtEnglish(tab, run); }
    else { EndsAtMixed(tab, run); }
  }

  /** No pass after the one the cascade ends at is consulted: a runner that
      gives the same texts for passes 0..k gives the same outcome. */
  lemma LaterPassesIrrelevant(tab: CharTable, run: Runner, other: Runner, k: nat)
    requires k < PassCount && EndsAt(tab, run, k)
    requires forall j :: 0 <= j <= k ==> PassText(other, j) == PassText(run, j)
    ensures Cascade(tab, other) == Cascade(tab, run)
  {
    forall j | 0 <= j <= k
      ensures Rejected(tab, other, j) == Rejected(tab, run, j)
    {
      assert PassText(other, j) == PassText(run, j);
    }
    assert EndsAt(tab, other, k);
    CascadeIsFirstAccepted(tab, run, k);
    CascadeIsFirstAccepted(tab, other, k);
  }

  /** When the first five passes recognize text their gates reject, the
      mixed pass's text is returned, with a guessed language, whatever it is. */
  lemma MixedPassIsLastResort(tab: CharTable, run: Runner)
    requires forall j :: 0 <= j < 5 ==> Rejected(tab, run, j)
    requires PassText(run, 5).Success?
    ensures var mixed := PassText(run, 5).value;
      Cascade(tab, run) == Success(OCRTextResult(mixed, GuessLanguageCode(tab, mixed)))
  {
    assert PassAt(5) == LocalPass(MixedLanguages, true, Always, None);
    EndsAtMixed(tab, run);
  }

  /** A cascade failure is always the error thrown by some pass's
      `performOCR` call. */
  lemma LocalFallbackErrorFromPass(app: App, tab: CharTable, engine: Engine, image: Image)
    requires LocalFallbackOCR(app, tab, engine, image).Failure?
    ensures var e := LocalFallbackOCR(app, tab, engine, image).error;
      exists k :: 0 <= k < PassCount
        && PerformOCR(app, engine, image, PassAt(k).languages, PassAt(k).usesLanguageCorrection) == Failure(e)
  {
    var run := LocalRunner(app, engine, image);
    EndsAtSome(tab, run);
    var k :| 0 <= k < PassCount && EndsAt(tab, run, k);
    CascadeIsFirstAccepted(tab, run, k);
    assert PassText(run, k) == PerformOCR(app, engine, image, PassAt(k).languages, PassAt(k).usesLanguageCorrection);
  }

  /** Only the Japanese and Traditional Chinese passes can prefer a
      script, and each does exactly when the engine supports its hint. */
  lemma SinglePassPreference(supported: seq<string>)
    ensures PrefersJapanese(FilterSupported(PassAt(1).languages, supported)) <==> "ja-JP" in supported
    ensures PrefersChinese(FilterSupported(PassAt(2).languages, supported)) <==> "zh-Hant" in supported
    ensures !PrefersChinese(FilterSupported(PassAt(1).languages, supported))
    ensures !PrefersJapanese(FilterSupported(PassAt(2).languages, supported))
    ensures !PrefersJapanese(FilterSupported(PassAt(0).languages, supported))
    ensures !PrefersChinese(FilterSupported(PassAt(0).languages, supported))
    ensures !PrefersJapanese(FilterSupported(PassAt(3).languages, supported))
    ensures !PrefersChinese(FilterSupported(PassAt(3).languages, supported))
    ensures !PrefersJapanese(FilterSupported(PassAt(4).languages, supported))
    ensures !PrefersChinese(FilterSupported(PassAt(4).languages, supported))
  {
    assert PassAt(1).languages == ["ja-JP"] && PassAt(2).languages == ["zh-Hant"];
    assert PassAt(0).languages == [] && PassAt(3).languages == ["zh-Hans"] && PassAt(4).languages == ["en-US"];
    FilterSupportedSingle("ja-JP", supported);
    FilterSupportedSingle("zh-Hant", supported);
    FilterSupportedSingle("zh-Hans", supported);
    FilterSupportedSingle("en-US", supported);
  }

  /** The mixed pass asks for "en-US" first, so it prefers Japanese only
      when the engine lacks English but has Japanese, and Chinese only when
      it lacks both and has Traditional Chinese. */
  lemma MixedPassPreference(supported: seq<string>)
    ensures var f := FilterSupported(PassAt(5).languages, supported);
      && (PrefersJapanese(f) <==> "en-US" !in supported && "ja-JP" in supported)
      && (PrefersChinese(f) <==> "en-US" !in supported && "ja-JP" !in supported && "zh-Hant" in supported)
  {
    var m := MixedLanguages;
    assert PassAt(5).languages == m;
    assert m[0] == "en-US" && m[1] == "ja-JP" && m[2] == "zh-Hant";
    assert forall i :: 3 <= i < |m| ==> m[i] != "ja-JP" && m[i] != "zh-Hant";
    HeadPreference(m, supported);
  }

  /** The preference of a hint list that starts "en-US", "ja-JP",
      "zh-Hant" and names neither of the last two again. */
  lemma HeadPreference(m: seq<string>, supported: seq<string>)
    requires |m| >= 3 && m[0] == "en-US" && m[1] == "ja-JP" && m[2] == "zh-Hant"
    requires forall i :: 3 <= i < |m| ==> m[i] != "ja-JP" && m[i] != "zh-Hant"
    ensures var f := FilterSupported(m, supported);
      && (PrefersJapanese(f) <==> "en-US" !in supported && "ja-JP" in supported)
      && (PrefersChinese(f) <==> "en-US" !in supported && "ja-JP" !in supported && "zh-Hant" in supported)
  {
    var f := FilterSupported(m, supported);
    if "en-US" in supported {
      FilterSupportedHead(m, supported, 0);
    } else if "ja-JP" in supported {
      FilterSupportedHead(m, supported, 1);
    } else if "zh-Hant" in supported {
      FilterSupportedHead(m, supported, 2);
    } else {
      var rest := m[3..];
      assert m == m[..3] + rest;
      NoSupportedHintNoPreference(m[..3], supported);
      FilterSupportedAppend(m[..3], rest, supported);
      assert f == FilterSupported(rest, supported);
      if |f| > 0 {
        assert f[0] in rest;
      }
    }
  }

  // ------------------------------------------------ best of the variants

  /** The loop of `performBestLocalFallbackOCR` from a given point, with
      the last result and the last error seen so far. */
  function BestLoop(tab: CharTable, run: Image -> Result<OCRTextResult, Err>, images: seq<Image>,
                    lastResult: OCRTextResult, lastError: Option<Err>): Result<OCRTextResult, Err>
  {
    if images == [] then
      (match lastError
       case Some(e) => Failure(e)
       case None => Success(lastResult))
    else
      match run(images[0])
      case Success(result) =>
        if IsUsableOCRText(tab, result.text) then Success(result)
        else BestLoop(tab, run, images[1..], result, lastError)
      case Failure(e) => BestLoop(tab, run, images[1..], lastResult, Some(e))
  }

  function Images(variants: seq<Variant>): (r: seq<Image>)
    ensures |r| == |variants| && forall i :: 0 <= i < |r| ==> r[i] == variants[i].image
  {
    seq(|variants|, i requires 0 <= i < |variants| => variants[i].image)
  }

  /** `performBestLocalFallbackOCR` */
  function BestLocalFallbackOCR(app: App, tab: CharTable, ops: ImageOps, engine: Engine, image: Image): Result<OCRTextResult, Err> {
    var variants := Images(MakeLocalOCRVariants(ops, image));
    BestLoop(tab, img => LocalFallbackOCR(app, tab, engine, img), variants, OCRTextResult([], None), None)
  }

  predicate UsableOutcome(tab: CharTable, o: Result<OCRTextResult, Err>) {
    o.Success? && IsUsableOCRText(tab, o.value.text)
  }

  /** The loop returns the first usable variant result. */
  lemma {:induction false} BestLoopFirstUsable(tab: CharTable, run: Image -> Result<OCRTextResult, Err>,
      images: seq<Image>, lastResult: OCRTextResult, lastError: Option<Err>, i: nat)
    requires i < |images| && UsableOutcome(tab, run(images[i]))
    requires forall j :: 0 <= j < i ==> !UsableOutcome(tab, run(images[j]))
    ensures BestLoop(tab, run, images, lastResult, lastError) == run(images[i])
  {
    if i > 0 {
      assert !UsableOutcome(tab, run(images[0]));
      var next := if run(images[0]).Success? then run(images[0]).value else lastResult;
      var err := if run(images[0]).Success? then lastError else Some(run(images[0]).error);
      assert BestLoop(tab, run, images, lastResult, lastError) == BestLoop(tab, run, images[1..], next, err);
      BestLoopFirstUsable(tab, run, images[1..], next, err, i - 1);
    }
  }

  /** With no usable result, the loop throws the error of the LAST variant
      that threw, even when other variants returned text. */
  lemma {:induction false} BestLoopLastError(tab: CharTable, run: Image -> Result<OCRTextResult, Err>,
      images: seq<Image>, lastResult: OCRTextResult, lastError: Option<Err>, i: nat)
    requires forall j :: 0 <= j < |images| ==> !UsableOutcome(tab, run(images[j]))
    requires i < |images| && run(images[i]).Failure?
    requires forall j :: i < j < |images| ==> run(images[j]).Success?
    ensures BestLoop(tab, run, images, lastResult, lastError) == run(images[i])
  {
    var next := if run(images[0]).Success? then run(images[0]).value else lastResult;
    var err := if run(images[0]).Success? then lastError else Some(run(images[0]).error);
    assert BestLoop(tab, run, images, lastResult, lastError) == BestLoop(tab, run, images[1..], next, err);
    if i > 0 {
      BestLoopLastError(tab, run, images[1..], next, err, i - 1);
    } else {
      BestLoopNoMoreErrors(tab, run, images[1..], next, run(images[0]).error);
    }
  }

  /** Once an error has been seen, later variants that all return unusable
      text leave that error to be thrown. */
  lemma {:induction false} BestLoopNoMoreErrors(tab: CharTable, run: Image -> Result<OCRTextResult, Err>,
      images: seq<Image>, lastResult: OCRTextResult, e: Err)
    requires forall j :: 0 <= j < |images| ==> run(images[j]).Success? && !UsableOutcome(tab, run(images[j]))
    ensures BestLoop(tab, run, images, lastResult, Some(e)) == Failure(e)
  {
    if images != [] {
      BestLoopNoMoreErrors(tab, run, images[1..], run(images[0]).value, e);
    }
  }

  /** With no usable result and no error, the loop returns the last
      variant's result. */
  lemma {:induction false} BestLoopLastResult(tab: CharTable, run: Image -> Result<OCRTextResult, Err>,
      images: seq<Image>, lastResult: OCRTextResult)
    requires |images| > 0
    requires forall j :: 0 <= j < |images| ==> run(images[j]).Success? && !UsableOutcome(tab, run(images[j]))
    ensures BestLoop(tab, run, images, lastResult, None) == run(images[|images| - 1])
  {
    if |images| > 1 {
      BestLoopLastResult(tab, run, images[1..], run(images[0]).value);
    }
  }

  /** The best-of-variants search answers with the first usable outcome
      among the variants. */
  lemma BestLocalFallbackOutcome(app: App, tab: CharTable, ops: ImageOps, engine: Engine, image: Image, i: nat)
    requires var vs := MakeLocalOCRVariants(ops, image);
      i < |vs| && UsableOutcome(tab, LocalFallbackOCR(app, tab, engine, vs[i].image))
      && forall j :: 0 <= j < i ==> !UsableOutcome(tab, LocalFallbackOCR(app, tab, engine, vs[j].image))
    ensures BestLocalFallbackOCR(app, tab, ops, engine, image) ==
      LocalFallbackOCR(app, tab, engine, MakeLocalOCRVariants(ops, image)[i].image)
  {
    var run := img => LocalFallbackOCR(app, tab, engine, img);
    var images := Images(MakeLocalOCRVariants(ops, image));
    BestLoopFirstUsable(tab, run, images, OCRTextResult([], None), None, i);
  }

  /** A failing loop saw no usable result, and its error is the one it
      started with or one a variant threw. */
  lemma {:induction false} BestLoopFailureSource(tab: CharTable, run: Image -> Result<OCRTextResult, Err>,
      images: seq<Image>, lastResult: OCRTextResult, lastError: Option<Err>)
    requires BestLoop(tab, run, images, lastResult, lastError).Failure?
    ensures forall j :: 0 <= j < |images| ==> !UsableOutcome(tab, run(images[j]))
    ensures var r := BestLoop(tab, run, images, lastResult, lastError);
      (lastError.Some? && r == Failure(lastError.value))
      || exists j :: 0 <= j < |images| && run(images[j]) == r
  {
    if images != [] {
      var r := BestLoop(tab, run, images, lastResult, lastError);
      var o := run(images[0]);
      var next := if o.Success? then o.value else lastResult;
      var err := if o.Failure? then Some(o.error) else lastError;
      assert !UsableOutcome(tab, o);
      assert r == BestLoop(tab, run, images[1..], next, err);
      BestLoopFailureSource(tab, run, images[1..], next, err);
      assert forall j :: 1 <= j < |images| ==> images[j] == images[1..][j - 1];
      if o.Failure? && r == Failure(o.error) {
        assert run(images[0]) == r;
      } else if !(lastError.Some? && r == Failure(lastError.value)) {
        var j :| 0 <= j < |images[1..]| && run(images[1..][j]) == r;
        assert run(images[j + 1]) == r;
      }
    }
  }

  /** `performBestLocalFallbackOCR` fails only when no variant gave usable
      text, and then with the error the cascade threw on some variant. */
  lemma BestLocalFallbackFailure(app: App, tab: CharTable, ops: ImageOps, engine: Engine, image: Image)
    requires BestLocalFallbackOCR(app, tab, ops, engine, image).Failure?
    ensures var vs := MakeLocalOCRVariants(ops, image);
      forall j :: 0 <= j < |vs| ==> !UsableOutcome(tab, LocalFallbackOCR(app, tab, engine, vs[j].image))
    ensures var vs := MakeLocalOCRVariants(ops, image);
      exists j :: 0 <= j < |vs| && LocalFallbackOCR(app, tab, engine, vs[j].image) == BestLocalFallbackOCR(app, tab, ops, engine, image)
  {
    var vs := MakeLocalOCRVariants(ops, image);
    var run := img => LocalFallbackOCR(app, tab, engine, img);
    var images := Images(vs);
    BestLoopFailureSource(tab, run, images, OCRTextResult([], None), None);
    var j :| 0 <= j < |images| && run(images[j]) == BestLocalFallbackOCR(app, tab, ops, engine, image);
    assert images[j] == vs[j].image;
  }
}
