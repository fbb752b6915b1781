/** One local Vision text-recognition call (`performOCR`), shared by both
    apps: hint filtering against the supported languages, the request, and
    the per-line choice among the ranked candidates. The Vision engine is an
    oracle. */
module Recognition {
  import opened Wrappers
  import opened Common
  import opened TextOps
  import opened ScriptDetector
  import opened ImageVariants

  /** The configuration of one `VNRecognizeTextRequest` at accurate level.
      An empty language list leaves the engine's default languages in place
      (the source assigns `recognitionLanguages` only when its filtered list
      is non-empty). CaptureLingo also sets `minimumTextHeight = 0`. */
  datatype RecognitionRequest = RecognitionRequest(
    recognitionLanguages: seq<string>,
    usesLanguageCorrection: bool,
    minimumTextHeight: Option<real>)

  /** The local engine: `supportedRecognitionLanguages()` (which may throw)
      and `perform` on an image, which may throw or yield one observation per
      text line, each with its candidate strings best first. */
  datatype Engine = Engine(
    supportedRecognitionLanguages: Result<seq<string>, Err>,
    perform: (Image, RecognitionRequest) -> Result<seq<seq<string>>, Err>)

  /** The requested languages the engine supports, in request order. */
  function FilterSupported(languages: seq<string>, supported: seq<string>): (r: seq<string>)
    ensures |r| <= |languages|
    ensures forall l :: l in r <==> l in languages && l in supported
  {
    if languages == [] then []
    else (if languages[0] in supported then [languages[0]] else []) + FilterSupported(languages[1..], supported)
  }

  /** `observation.topCandidates(3)` */
  function TopCandidates(candidates: seq<string>): (r: seq<string>)
    ensures |r| == if |candidates| < 3 then |candidates| else 3
    ensures r == candidates[..|r|]
  {
    if |candidates| <= 3 then candidates else candidates[..3]
  }

  /** `candidates.first(where: p)` */
  function FirstMatching(candidates: seq<string>, p: string -> bool): (r: Option<string>)
    ensures r.None? <==> forall i :: 0 <= i < |candidates| ==> !p(candidates[i])
    ensures r.Some? ==> exists i :: 0 <= i < |candidates| && candidates[i] == r.value && p(r.value)
                                   && forall j :: 0 <= j < i ==> !p(candidates[j])
  {
    if candidates == [] then None
    else if p(candidates[0]) then Some(candidates[0])
    else
      var r := FirstMatching(candidates[1..], p);
      assert forall j :: 1 <= j < |candidates| ==> candidates[j] == candidates[1..][j - 1];
      r
  }

  /** The line text chosen from one observation: under a script preference
      the first of the top three candidates in that script, otherwise (or
      when none is) the top candidate; nil for an observation without
      candidates. */
  function SelectCandidate(candidates: seq<string>, preferJapanese: bool, preferChinese: bool): (r: Option<string>)
    ensures r.None? <==> candidates == []
    ensures r.Some? ==> r.value in TopCandidates(candidates)
    ensures !preferJapanese && !preferChinese && candidates != [] ==> r == Some(candidates[0])
    ensures preferJapanese && FirstMatching(TopCandidates(candidates), ContainsJapanese).Some? ==>
      r == FirstMatching(TopCandidates(candidates), ContainsJapanese)
    ensures (&& !(preferJapanese && FirstMatching(TopCandidates(candidates), ContainsJapanese).Some?)
             && preferChinese && FirstMatching(TopCandidates(candidates), ContainsChinese).Some?) ==>
      r == FirstMatching(TopCandidates(candidates), ContainsChinese)
    ensures (&& candidates != []
             && !(preferJapanese && FirstMatching(TopCandidates(candidates), ContainsJapanese).Some?)
             && !(preferChinese && FirstMatching(TopCandidates(candidates), ContainsChinese).Some?)) ==>
      r == Some(candidates[0])
  {
    var top := TopCandidates(candidates);
    var japanese := FirstMatching(top, ContainsJapanese);
    var chinese := FirstMatching(top, ContainsChinese);
    if preferJapanese && japanese.Some? then japanese
    else if preferChinese && chinese.Some? then chinese
    else if top == [] then None
    else Some(top[0])
  }

  /** The observations that have at least one candidate, in order. */
  function NonEmpty(observations: seq<seq<string>>): (r: seq<seq<string>>)
    ensures |r| <= |observations|
    ensures forall k :: 0 <= k < |r| ==> r[k] != []
    ensures forall o :: o in r <==> o in observations && o != []
    ensures (forall i :: 0 <= i < |observations| ==> observations[i] != []) ==> r == observations
  {
    if observations == [] then []
    else
      var rest := NonEmpty(observations[1..]);
      assert forall j :: 1 <= j < |observations| ==> observations[j] == observations[1..][j - 1];
      assert observations == [observations[0]] + observations[1..];
      (if observations[0] != [] then [observations[0]] else []) + rest
  }

  /** `observations.compactMap(choose)` for a choice that is nil exactly for
      an observation without candidates: the k-th result is the choice for
      the k-th observation that has candidates. */
  function CompactMap(observations: seq<seq<string>>, choose: seq<string> -> Option<string>): (r: seq<string>)
    requires forall o :: choose(o).None? <==> o == []
    ensures |r| == |NonEmpty(observations)|
    ensures forall k :: 0 <= k < |r| ==> choose(NonEmpty(observations)[k]) == Some(r[k])
  {
    if observations == [] then []
    else
      var head := observations[0];
      var rest := CompactMap(observations[1..], choose);
      var tail := NonEmpty(observations[1..]);
      if head == [] then
        assert NonEmpty(observations) == tail;
        rest
      else
        var r := [choose(head).value] + rest;
        var kept := NonEmpty(observations);
        assert kept == [head] + tail;
        assert forall k :: 1 <= k < |r| ==> kept[k] == tail[k - 1];
        assert forall k :: 1 <= k < |r| ==> r[k] == rest[k - 1];
        r
  }

  /** The per-line choice of `performOCR` as a function of one observation. */
  function Chooser(preferJapanese: bool, preferChinese: bool): (f: seq<string> -> Option<string>)
    ensures forall o :: f(o).None? <==> o == []
  {
    o => SelectCandidate(o, preferJapanese, preferChinese)
  }

  /** The lines `performOCR` joins: one per observation that has a
      candidate, in order, the k-th being the choice made for the k-th such
      observation. */
  function SelectLines(observations: seq<seq<string>>, preferJapanese: bool, preferChinese: bool): (r: seq<string>)
    ensures |r| == |NonEmpty(observations)| <= |observations|
    ensures forall k :: 0 <= k < |r| ==> SelectCandidate(NonEmpty(observations)[k], preferJapanese, preferChinese) == Some(r[k])
  {
    CompactMap(observations, Chooser(preferJapanese, preferChinese))
  }

  /** The request of one pass before hint filtering. */
  function BaseRequest(app: App, usesLanguageCorrection: bool): RecognitionRequest {
    RecognitionRequest([], usesLanguageCorrection, if app == CaptureLingo then Some(0.0) else None)
  }

  /** The script preference of a filtered hint list: Japanese when it
      starts with "ja-JP", Chinese when it starts with "zh-Hant". */
  predicate PrefersJapanese(filtered: seq<string>) {
    |filtered| > 0 && filtered[0] == "ja-JP"
  }

  predicate PrefersChinese(filtered: seq<string>) {
    |filtered| > 0 && filtered[0] == "zh-Hant"
  }

  /** `performOCR`: recognize `image` with the supported subset of
      `languages` and join the chosen line texts with newlines. */
  function PerformOCR(app: App, engine: Engine, image: Image, languages: seq<string>,
                      usesLanguageCorrection: bool): Result<string, Err>
  {
    var supported :- engine.supportedRecognitionLanguages;
    var filtered := FilterSupported(languages, supported);
    var observations :- engine.perform(image, FilteredRequest(app, supported, languages, usesLanguageCorrection));
    Success(Join(SelectLines(observations, PrefersJapanese(filtered), PrefersChinese(filtered)), "\n"))
  }

  /** The request `performOCR` hands the engine once it knows the
      supported languages. */
  function FilteredRequest(app: App, supported: seq<string>, languages: seq<string>,
                           usesLanguageCorrection: bool): RecognitionRequest {
    BaseRequest(app, usesLanguageCorrection).(recognitionLanguages := FilterSupported(languages, supported))
  }

  // ---------------------------------------------------------------- lemmas

  /** Filtering keeps the request order: the result is the requested list
      with the unsupported languages removed. */
  lemma {:induction false} FilterSupportedAllKept(languages: seq<string>, supported: seq<string>)
    requires forall l :: l in languages ==> l in supported
    ensures FilterSupported(languages, supported) == languages
  {
    if languages != [] {
      FilterSupportedAllKept(languages[1..], supported);
      assert languages == [languages[0]] + languages[1..];
    }
  }

  /** A single requested language survives exactly when it is supported. */
  lemma FilterSupportedSingle(l: string, supported: seq<string>)
    ensures FilterSupported([l], supported) == if l in supported then [l] else []
  {
    assert [l][1..] == [];
  }

  /** Filtering distributes over concatenation of the requested list. */
  lemma {:induction false} FilterSupportedAppend(a: seq<string>, b: seq<string>, supported: seq<string>)
    ensures FilterSupported(a + b, supported) == FilterSupported(a, supported) + FilterSupported(b, supported)
  {
    if a == [] {
      assert a + b == b;
    } else {
      assert (a + b)[0] == a[0];
      assert (a + b)[1..] == a[1..] + b;
      FilterSupportedAppend(a[1..], b, supported);
    }
  }

  /** The first filtered hint is the first requested hint the engine
      supports; so no filtered list starts with a hint that was not asked for
      ahead of every other supported one. */
  lemma {:induction false} FilterSupportedHead(languages: seq<string>, supported: seq<string>, i: nat)
    requires i < |languages| && languages[i] in supported
    requires forall j :: 0 <= j < i ==> languages[j] !in supported
    ensures var f := FilterSupported(languages, supported); |f| > 0 && f[0] == languages[i]
  {
    if i > 0 {
      FilterSupportedHead(languages[1..], supported, i - 1);
    }
  }

  /** `performOCR` throws exactly when one of its two engine calls throws,
      and then it throws that call's error. */
  lemma PerformOCRFailure(app: App, engine: Engine, image: Image, languages: seq<string>, correction: bool)
    ensures var r := PerformOCR(app, engine, image, languages, correction);
      var supported := engine.supportedRecognitionLanguages;
      && (supported.Failure? ==> r == Failure(supported.error))
      && (supported.Success? ==>
            var performed := engine.perform(image, FilteredRequest(app, supported.value, languages, correction));
            (r.Failure? <==> performed.Failure?) && (performed.Failure? ==> r.error == performed.error))
  {
  }

  /** The engine is asked about one image with one request: two engines
      that agree on the supported languages and on that call give the same
      text. */
  lemma PerformOCROneCall(app: App, engine: Engine, other: Engine, image: Image, languages: seq<string>, correction: bool)
    requires other.supportedRecognitionLanguages == engine.supportedRecognitionLanguages
    requires engine.supportedRecognitionLanguages.Success? ==>
      var request := FilteredRequest(app, engine.supportedRecognitionLanguages.value, languages, correction);
      other.perform(image, request) == engine.perform(image, request)
    ensures PerformOCR(app, engine, image, languages, correction) == PerformOCR(app, other, image, languages, correction)
  {
  }

  /** A successful `performOCR` is the chosen lines joined by "\n": one line
      per observation that has a candidate, in order, each the choice made
      for that observation under the preference of the filtered hints. */
  lemma PerformOCRLines(app: App, engine: Engine, image: Image, languages: seq<string>, correction: bool)
    requires PerformOCR(app, engine, image, languages, correction).Success?
    ensures engine.supportedRecognitionLanguages.Success?
    ensures var supported := engine.supportedRecognitionLanguages.value;
      var filtered := FilterSupported(languages, supported);
      var performed := engine.perform(image, FilteredRequest(app, supported, languages, correction));
      && performed.Success?
      && exists lines: seq<string> ::
           && |lines| == |NonEmpty(performed.value)|
           && (forall k :: 0 <= k < |lines| ==>
                 SelectCandidate(NonEmpty(performed.value)[k], PrefersJapanese(filtered), PrefersChinese(filtered)) == Some(lines[k]))
           && PerformOCR(app, engine, image, languages, correction).value == Join(lines, "\n")
  {
    var supported := engine.supportedRecognitionLanguages.value;
    var filtered := FilterSupported(languages, supported);
    var observations := engine.perform(image, FilteredRequest(app, supported, languages, correction)).value;
    var lines := SelectLines(observations, PrefersJapanese(filtered), PrefersChinese(filtered));
    assert PerformOCR(app, engine, image, languages, correction).value == Join(lines, "\n");
  }

  /** A request that names no supported language prefers no script. */
  lemma NoSupportedHintNoPreference(languages: seq<string>, supported: seq<string>)
    requires forall l :: l in languages ==> l !in supported
    ensures var f := FilterSupported(languages, supported);
      f == [] && !PrefersJapanese(f) && !PrefersChinese(f)
  {
  }
}
