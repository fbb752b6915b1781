/** `recognizeText(from:completion:)` of both apps: Cloud Vision first when
    an API key is configured, the local cascade otherwise or when the cloud
    gives nothing usable. Cloud errors are swallowed; only the local path
    can fail. The completion handler is modelled as the returned result. */
module OCRService {
  import opened Wrappers
  import opened Common
  import opened TextOps
  import opened TextQuality
  import opened ImageVariants
  import opened Recognition
  import opened LocalCascade
  import opened TranslationService
  import opened CloudVision

  /** What the services need from the outside world. */
  datatype Environment = Environment(
    tab: CharTable,
    defaults: Defaults,
    ops: ImageOps,
    client: VisionClient,
    engine: Engine)

  /** One cloud call, as a function of the input image. */
  type CloudCall = Image -> Result<CloudVisionOCRResult, Err>

  function CloudCallOf(app: App, env: Environment): CloudCall {
    img => PerformCloudVisionOCR(app, env.tab, env.defaults, env.ops, env.client, img)
  }

  /** CaptureLingo's cloud inputs: the captured image, then the cloud-retry
      image when it could be made. */
  function CloudInputs(image: Image, retry: Option<Image>): (r: seq<Image>)
    ensures 1 <= |r| <= 2 && r[0] == image
    ensures |r| == 2 <==> retry.Some?
    ensures |r| == 2 ==> r[1] == retry.value
  {
    match retry
    case Some(img) => [image, img]
    case None => [image]
  }

  /** A cloud outcome that ends the search: a result with usable text. */
  predicate CloudUsable(tab: CharTable, o: Result<CloudVisionOCRResult, Err>) {
    o.Success? && IsUsableOCRText(tab, o.value.text)
  }

  /** The cloud loop: the first input whose call returns usable text wins;
      unusable text and thrown errors both move on to the next input. */
  function CloudLoop(tab: CharTable, cloud: CloudCall, inputs: seq<Image>): Option<OCRTextResult>
  {
    if inputs == [] then None
    else
      var o := cloud(inputs[0]);
      if CloudUsable(tab, o) then Some(OCRTextResult(o.value.text, o.value.locale))
      else CloudLoop(tab, cloud, inputs[1..])
  }

  /** The cloud part of `recognizeText`, for a given cloud call: nothing
      without a key; SnapLingo makes one attempt on the image, CaptureLingo
      also tries the retry image. */
  function CloudSearch(app: App, tab: CharTable, hasKey: bool, cloud: CloudCall, retry: Option<Image>, image: Image): Option<OCRTextResult> {
    if !hasKey then None
    else
      var inputs := match app
        case CaptureLingo => CloudInputs(image, retry)
        case SnapLingo => [image];
      CloudLoop(tab, cloud, inputs)
  }

  /** The cloud part of `recognizeText` with the app's Cloud Vision call. */
  function CloudAnswer(app: App, env: Environment, image: Image): Option<OCRTextResult> {
    CloudSearch(app, env.tab, HasAPIKey(env.tab, env.defaults), CloudCallOf(app, env), MakeCloudRetryImage(env.ops, image), image)
  }

  /** The local part: CaptureLingo searches its variants, SnapLingo runs
      the cascade on the image alone. */
  function LocalAnswer(app: App, env: Environment, image: Image): Result<OCRTextResult, Err> {
    match app
    case CaptureLingo => BestLocalFallbackOCR(CaptureLingo, env.tab, env.ops, env.engine, image)
    case SnapLingo => LocalFallbackOCR(SnapLingo, env.tab, env.engine, image)
  }

  /** `recognizeText(from:completion:)`: what reaches the completion. */
  function RecognizeText(app: App, env: Environment, image: Image): Result<OCRTextResult, Err> {
    match CloudAnswer(app, env, image)
    case Some(answer) => Success(answer)
    case None => LocalAnswer(app, env, image)
  }

  // ---------------------------------------------------------------- lemmas

  /** The loop answers with the first input whose call is usable. */
  lemma {:induction false} CloudLoopFirstUsable(tab: CharTable, cloud: CloudCall, inputs: seq<Image>, i: nat)
    requires i < |inputs| && CloudUsable(tab, cloud(inputs[i]))
    requires forall j :: 0 <= j < i ==> !CloudUsable(tab, cloud(inputs[j]))
    ensures CloudLoop(tab, cloud, inputs)
         == Some(OCRTextResult(cloud(inputs[i]).value.text, cloud(inputs[i]).value.locale))
  {
    if i > 0 {
      assert !CloudUsable(tab, cloud(inputs[0]));
      CloudLoopFirstUsable(tab, cloud, inputs[1..], i - 1);
    }
  }

  /** The loop gives nothing exactly when no input's call is usable. */
  lemma {:induction false} CloudLoopNone(tab: CharTable, cloud: CloudCall, inputs: seq<Image>)
    ensures CloudLoop(tab, cloud, inputs).None? <==> forall j :: 0 <= j < |inputs| ==> !CloudUsable(tab, cloud(inputs[j]))
  {
    if inputs != [] {
      CloudLoopNone(tab, cloud, inputs[1..]);
      assert forall j :: 1 <= j < |inputs| ==> inputs[j] == inputs[1..][j - 1];
    }
  }

  /** Whatever the loop answers came from a usable call on one of the
      inputs, with that call's text and locale. */
  lemma {:induction false} CloudLoopSome(tab: CharTable, cloud: CloudCall, inputs: seq<Image>)
    requires CloudLoop(tab, cloud, inputs).Some?
    ensures exists i :: (0 <= i < |inputs| && CloudUsable(tab, cloud(inputs[i]))
      && CloudLoop(tab, cloud, inputs).value == OCRTextResult(cloud(inputs[i]).value.text, cloud(inputs[i]).value.locale))
  {
    var answer := CloudLoop(tab, cloud, inputs).value;
    if !CloudUsable(tab, cloud(inputs[0])) {
      var rest := inputs[1..];
      assert CloudLoop(tab, cloud, inputs) == CloudLoop(tab, cloud, rest);
      CloudLoopSome(tab, cloud, rest);
      var i :| 0 <= i < |rest| && CloudUsable(tab, cloud(rest[i]))
        && CloudLoop(tab, cloud, rest).value == OCRTextResult(cloud(rest[i]).value.text, cloud(rest[i]).value.locale);
      assert rest[i] == inputs[i + 1];
      assert CloudUsable(tab, cloud(inputs[i + 1]))
        && answer == OCRTextResult(cloud(inputs[i + 1]).value.text, cloud(inputs[i + 1]).value.locale);
    } else {
      assert CloudUsable(tab, cloud(inputs[0]))
        && answer == OCRTextResult(cloud(inputs[0]).value.text, cloud(inputs[0]).value.locale);
    }
  }

  /** Whatever the cloud search answers came from a usable call on some
      image. */
  lemma CloudSearchSome(app: App, tab: CharTable, hasKey: bool, cloud: CloudCall, retry: Option<Image>, image: Image)
      returns (img: Image)
    requires CloudSearch(app, tab, hasKey, cloud, retry, image).Some?
    ensures CloudUsable(tab, cloud(img))
    ensures CloudSearch(app, tab, hasKey, cloud, retry, image).value == OCRTextResult(cloud(img).value.text, cloud(img).value.locale)
  {
    var inputs := match app
      case CaptureLingo => CloudInputs(image, retry)
      case SnapLingo => [image];
    CloudLoopSome(tab, cloud, inputs);
    var i :| 0 <= i < |inputs| && CloudUsable(tab, cloud(inputs[i]))
      && CloudLoop(tab, cloud, inputs).value == OCRTextResult(cloud(inputs[i]).value.text, cloud(inputs[i]).value.locale);
    img := inputs[i];
  }

  /** Without a key the cloud is never called: the answer is the local one,
      whatever the endpoint. */
  lemma NoKeyMeansLocal(app: App, env: Environment, client: VisionClient, image: Image)
    requires !HasAPIKey(env.tab, env.defaults)
    ensures RecognizeText(app, env, image) == LocalAnswer(app, env, image)
    ensures RecognizeText(app, env, image) == RecognizeText(app, env.(client := client), image)
  {
  }

  /** A usable cloud answer short-circuits: the local engine is never
      consulted. */
  lemma CloudShortCircuits(app: App, env: Environment, engine: Engine, image: Image)
    requires CloudAnswer(app, env, image).Some?
    ensures RecognizeText(app, env, image) == Success(CloudAnswer(app, env, image).value)
    ensures RecognizeText(app, env, image) == RecognizeText(app, env.(engine := engine), image)
  {
    assert CloudAnswer(app, env, image) == CloudAnswer(app, env.(engine := engine), image) by {
      assert CloudCallOf(app, env) == CloudCallOf(app, env.(engine := engine));
    }
  }

  /** Cloud errors never reach the caller: every failure is the local
      path's failure. */
  lemma FailureIsLocal(app: App, env: Environment, image: Image)
    ensures RecognizeText(app, env, image).Failure? ==>
      CloudAnswer(app, env, image).None? && RecognizeText(app, env, image) == LocalAnswer(app, env, image)
  {
  }

  /** A cloud answer carries trimmed, non-blank, usable text. */
  lemma CloudAnswerTrimmed(app: App, env: Environment, image: Image)
    requires CloudAnswer(app, env, image).Some?
    ensures var t := CloudAnswer(app, env, image).value.text;
      t != [] && Trim(env.tab, t) == t && IsUsableOCRText(env.tab, t)
  {
    var img := CloudSearchSome(app, env.tab, HasAPIKey(env.tab, env.defaults), CloudCallOf(app, env),
                               MakeCloudRetryImage(env.ops, image), image);
    CloudTextTrimmed(app, env.tab, env.defaults, env.ops, env.client, img);
  }

  /** CaptureLingo answers with the captured image's call when it is
      usable, whatever the retry image would give. */
  lemma FirstImageWins(tab: CharTable, cloud: CloudCall, retry: Option<Image>, image: Image)
    requires CloudUsable(tab, cloud(image))
    ensures CloudSearch(CaptureLingo, tab, true, cloud, retry, image)
         == Some(OCRTextResult(cloud(image).value.text, cloud(image).value.locale))
  {
    CloudLoopFirstUsable(tab, cloud, CloudInputs(image, retry), 0);
  }

  /** CaptureLingo tries the retry image only when the captured image's
      call is not usable, and then a usable retry answer wins. */
  lemma RetryAfterUnusable(tab: CharTable, cloud: CloudCall, retry: Image, image: Image)
    requires !CloudUsable(tab, cloud(image)) && CloudUsable(tab, cloud(retry))
    ensures CloudSearch(CaptureLingo, tab, true, cloud, Some(retry), image)
         == Some(OCRTextResult(cloud(retry).value.text, cloud(retry).value.locale))
  {
    var inputs := CloudInputs(image, Some(retry));
    assert inputs[1..] == [retry];
    var o := cloud(retry);
    assert CloudLoop(tab, cloud, [retry]) == Some(OCRTextResult(o.value.text, o.value.locale));
    assert CloudLoop(tab, cloud, inputs) == CloudLoop(tab, cloud, [retry]);
  }

  /** With neither call usable the cloud search gives nothing. */
  lemma NoUsableCloudCall(tab: CharTable, cloud: CloudCall, retry: Option<Image>, image: Image)
    requires !CloudUsable(tab, cloud(image))
    requires retry.Some? ==> !CloudUsable(tab, cloud(retry.value))
    ensures CloudSearch(CaptureLingo, tab, true, cloud, retry, image).None?
  {
    CloudLoopNone(tab, cloud, CloudInputs(image, retry));
  }

  /** SnapLingo makes exactly one cloud attempt, on the captured image. */
  lemma SnapLingoSingleAttempt(tab: CharTable, cloud: CloudCall, retry: Option<Image>, image: Image)
    ensures CloudSearch(SnapLingo, tab, true, cloud, retry, image)
         == if CloudUsable(tab, cloud(image)) then Some(OCRTextResult(cloud(image).value.text, cloud(image).value.locale)) else None
  {
    assert [image][1..] == [];
    assert CloudLoop(tab, cloud, [image][1..]) == None;
  }
}
