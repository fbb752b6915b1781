/** `performCloudVisionOCR` of both apps: the key check, the image
    encoding, one Cloud Vision `images:annotate` request, and the reading
    of the reply. The apps differ in the detection feature they ask for and
    in the order in which they try the image encodings. The HTTP call is an
    oracle and the JSON bodies arrive already decoded. */
module CloudVision {
  import opened Wrappers
  import opened Common
  import opened TextOps
  import opened ImageVariants
  import opened TranslationService

  // ------------------------------------------------ the decoded response

  /** `CloudVisionError` */
  datatype VisionError = VisionError(code: Option<int>, message: Option<string>)

  /** `CloudVisionFullTextAnnotation` */
  datatype FullTextAnnotation = FullTextAnnotation(text: Option<string>)

  /** `CloudVisionTextAnnotation` */
  datatype TextAnnotation = TextAnnotation(locale: Option<string>, description: Option<string>)

  /** `CloudVisionResponse` */
  datatype VisionResponse = VisionResponse(
    fullTextAnnotation: Option<FullTextAnnotation>,
    textAnnotations: Option<seq<TextAnnotation>>,
    error: Option<VisionError>)

  /** `CloudVisionBatchResponse` */
  datatype BatchResponse = BatchResponse(responses: Option<seq<VisionResponse>>)

  /** `CloudVisionTopLevelErrorResponse` */
  datatype TopLevelErrorResponse = TopLevelErrorResponse(error: Option<VisionError>)

  /** A response body as the three readers see it: the batch decoder (which
      may throw), the `try?` decode of the top-level error envelope, and
      `String(data:encoding: .utf8)`. */
  datatype VisionBody = VisionBody(
    asBatch: Result<BatchResponse, Err>,
    asTopLevelError: Option<TopLevelErrorResponse>,
    asUTF8: Option<string>)

  /** `CloudVisionOCRResult` */
  datatype CloudVisionOCRResult = CloudVisionOCRResult(text: string, locale: Option<string>)

  // ------------------------------------------------ the request

  /** The detection feature named in the request. */
  datatype Feature = TextDetection | DocumentTextDetection

  /** CaptureLingo asks for TEXT_DETECTION, SnapLingo for
      DOCUMENT_TEXT_DETECTION. */
  function FeatureFor(app: App): Feature {
    match app
    case CaptureLingo => TextDetection
    case SnapLingo => DocumentTextDetection
  }

  /** The language hints both apps send, in this order. */
  const LanguageHints: seq<string> := ["ja", "zh-TW", "zh-CN", "en", "ko", "fr", "de", "es", "it", "pt", "ru"]

  /** One `images:annotate` request: the encoded image (sent base64-encoded),
      the feature and the language hints. */
  datatype VisionRequest = VisionRequest(content: seq<bv8>, feature: Feature, languageHints: seq<string>)

  /** The endpoint: the URL built from the key, and the one POST. */
  datatype VisionClient = VisionClient(
    urlFor: string -> Option<string>,
    post: (string, VisionRequest) -> HttpOutcome<VisionBody>)

  /** `encodeImageData`: CaptureLingo tries PNG, then JPEG at compression
      factor 1.0; SnapLingo tries JPEG at 0.9, then PNG. */
  function EncodeImageData(app: App, ops: ImageOps, image: Image): (r: Option<seq<bv8>>)
    ensures app == CaptureLingo ==>
      r == if ops.encodePNG(image).Some? then ops.encodePNG(image) else ops.encodeJPEG(image, 1.0)
    ensures app == SnapLingo ==>
      r == if ops.encodeJPEG(image, 0.9).Some? then ops.encodeJPEG(image, 0.9) else ops.encodePNG(image)
  {
    match app
    case CaptureLingo =>
      (match ops.encodePNG(image)
       case Some(png) => Some(png)
       case None => ops.encodeJPEG(image, 1.0))
    case SnapLingo =>
      (match ops.encodeJPEG(image, 0.9)
       case Some(jpeg) => Some(jpeg)
       case None => ops.encodePNG(image))
  }

  function OCRError(code: int, message: string): Err {
    ServiceError(OCRServiceDomain, code, message)
  }

  // ------------------------------------------------ reading the reply

  /** A message that is present and not empty. */
  function NonEmptyMessage(e: Option<VisionError>): Option<string> {
    match e
    case Some(VisionError(_, Some(m))) => if m != [] then Some(m) else None
    case _ => None
  }

  /** `result.responses?.first` */
  function FirstResponse(batch: BatchResponse): Option<VisionResponse> {
    match batch.responses
    case Some(rs) => if rs != [] then Some(rs[0]) else None
    case None => None
  }

  /** `responses?.first?.textAnnotations?.first` */
  function FirstAnnotation(response: VisionResponse): Option<TextAnnotation> {
    match response.textAnnotations
    case Some(ts) => if ts != [] then Some(ts[0]) else None
    case None => None
  }

  /** The top-level error envelope's message, when present and non-empty. */
  function TopLevelMessage(body: VisionBody): Option<string> {
    match body.asTopLevelError
    case Some(envelope) => NonEmptyMessage(envelope.error)
    case None => None
  }

  /** The first response's error message in a body that decodes as a
      batch, when present and non-empty. */
  function BatchMessage(body: VisionBody): Option<string> {
    match body.asBatch.ToOption()
    case Some(batch) =>
      (match FirstResponse(batch)
       case Some(response) => NonEmptyMessage(response.error)
       case None => None)
    case None => None
  }

  /** `extractCloudVisionErrorMessage`: the top-level error's message,
      else the first response's error message, else the body as UTF-8
      text, else "Unknown Error"; the message is empty only for an empty
      body. */
  function ExtractCloudVisionErrorMessage(body: VisionBody): (r: string)
    ensures TopLevelMessage(body).Some? ==> r == TopLevelMessage(body).value
    ensures TopLevelMessage(body).None? && BatchMessage(body).Some? ==> r == BatchMessage(body).value
    ensures TopLevelMessage(body).None? && BatchMessage(body).None? ==> r == body.asUTF8.GetOr("Unknown Error")
    ensures r == [] <==> TopLevelMessage(body).None? && BatchMessage(body).None? && body.asUTF8 == Some([])
  {
    match TopLevelMessage(body)
    case Some(m) => m
    case None =>
      match BatchMessage(body)
      case Some(m) => m
      case None => body.asUTF8.GetOr("Unknown Error")
  }

  /** `fullTextAnnotation?.text ?? textAnnotations?.first?.description ?? ""`:
      the full text whenever it is present, even when it is empty. */
  function RawText(response: VisionResponse): string {
    match response.fullTextAnnotation
    case Some(FullTextAnnotation(Some(t))) => t
    case _ =>
      match FirstAnnotation(response)
      case Some(TextAnnotation(_, Some(description))) => description
      case _ => []
  }

  /** The part of `performCloudVisionOCR` after the batch decode. */
  function ReadBatch(tab: CharTable, batch: BatchResponse): Result<CloudVisionOCRResult, Err> {
    match FirstResponse(batch)
    case None => Failure(OCRError(502, "Cloud Vision returned empty response"))
    case Some(response) =>
      match NonEmptyMessage(response.error)
      case Some(m) => Failure(OCRError(response.error.value.code.GetOr(500), "Cloud Vision Error: " + m))
      case None =>
        var locale := match FirstAnnotation(response)
          case Some(a) => a.locale
          case None => None;
        var normalized := Trim(tab, RawText(response));
        if normalized == [] then Failure(OCRError(502, "Cloud Vision returned empty OCR text"))
        else Success(CloudVisionOCRResult(normalized, locale))
  }

  /** What the reply to the request turns into. */
  function Respond(tab: CharTable, outcome: HttpOutcome<VisionBody>): Result<CloudVisionOCRResult, Err> {
    match outcome
    case TransportFailed(e) => Failure(e)
    case NotHTTP => Failure(OCRError(500, "Invalid Cloud Vision response"))
    case Response(status, body) =>
      if status != 200 then
        Failure(OCRError(status, "Cloud Vision API Error: " + ExtractCloudVisionErrorMessage(body)))
      else
        var batch :- body.asBatch;
        ReadBatch(tab, batch)
  }

  /** `performCloudVisionOCR(image:)` */
  function PerformCloudVisionOCR(app: App, tab: CharTable, d: Defaults, ops: ImageOps, client: VisionClient,
                                 image: Image): Result<CloudVisionOCRResult, Err>
  {
    var key := StoredAPIKey(tab, d);
    if key == [] then Failure(OCRError(401, "Google Cloud API key not set"))
    else
    match EncodeImageData(app, ops, image)
    case None => Failure(OCRError(400, "Failed to encode image for Cloud Vision"))
    case Some(data) =>
      match client.urlFor(key)
      case None => Failure(OCRError(400, "Invalid Cloud Vision API URL"))
      case Some(url) => Respond(tab, client.post(url, VisionRequest(data, FeatureFor(app), LanguageHints)))
  }

  // ---------------------------------------------------------------- lemmas

  /** The first response is read exactly when it exists, carries no
      non-empty error message and has text that is not blank; the text is
      then the trimmed raw text and the locale that of the first
      annotation. */
  lemma ReadBatchSuccess(tab: CharTable, batch: BatchResponse)
    ensures var r := ReadBatch(tab, batch);
      r.Success? <==>
        && FirstResponse(batch).Some?
        && NonEmptyMessage(FirstResponse(batch).value.error).None?
        && Trim(tab, RawText(FirstResponse(batch).value)) != []
    ensures var r := ReadBatch(tab, batch);
      r.Success? ==>
        && r.value.text == Trim(tab, RawText(FirstResponse(batch).value))
        && r.value.locale == (match FirstAnnotation(FirstResponse(batch).value)
                              case Some(a) => a.locale
                              case None => None)
  {
  }

  /** The failures of reading a batch, in order: no response at all (502),
      a non-empty error message (its code, else 500), blank text (502). */
  lemma ReadBatchFailures(tab: CharTable, batch: BatchResponse)
    ensures FirstResponse(batch).None? ==>
      ReadBatch(tab, batch) == Failure(OCRError(502, "Cloud Vision returned empty response"))
    ensures FirstResponse(batch).Some? && NonEmptyMessage(FirstResponse(batch).value.error).Some? ==>
      var response := FirstResponse(batch).value;
      ReadBatch(tab, batch)
      == Failure(OCRError(response.error.value.code.GetOr(500), "Cloud Vision Error: " + NonEmptyMessage(response.error).value))
    ensures (&& FirstResponse(batch).Some? && NonEmptyMessage(FirstResponse(batch).value.error).None?
             && Trim(tab, RawText(FirstResponse(batch).value)) == []) ==>
      ReadBatch(tab, batch) == Failure(OCRError(502, "Cloud Vision returned empty OCR text"))
  {
  }

  /** A present full text shadows the annotations: when it is blank the
      read fails even though the first annotation's description has text. */
  lemma BlankFullTextWins(tab: CharTable, t: string, description: string, locale: Option<string>)
    requires WhitespaceOnly(tab, t)
    ensures var response := VisionResponse(Some(FullTextAnnotation(Some(t))),
                                           Some([TextAnnotation(locale, Some(description))]), None);
      ReadBatch(tab, BatchResponse(Some([response]))) == Failure(OCRError(502, "Cloud Vision returned empty OCR text"))
  {
    TrimEmptyIff(tab, t);
  }

  /** Without a full text, the first annotation's description is read. */
  lemma DescriptionFallback(tab: CharTable, description: string, locale: Option<string>, rest: seq<TextAnnotation>)
    requires Trim(tab, description) != []
    ensures var response := VisionResponse(None, Some([TextAnnotation(locale, Some(description))] + rest), None);
      ReadBatch(tab, BatchResponse(Some([response]))) == Success(CloudVisionOCRResult(Trim(tab, description), locale))
  {
    var response := VisionResponse(None, Some([TextAnnotation(locale, Some(description))] + rest), None);
    var batch := BatchResponse(Some([response]));
    assert FirstResponse(batch) == Some(response);
    assert NonEmptyMessage(response.error) == None;
    assert FirstAnnotation(response) == Some(TextAnnotation(locale, Some(description)));
    assert RawText(response) == description;
  }

  /** A successful cloud result is never blank and is already trimmed. */
  lemma CloudTextTrimmed(app: App, tab: CharTable, d: Defaults, ops: ImageOps, client: VisionClient, image: Image)
    ensures var r := PerformCloudVisionOCR(app, tab, d, ops, client, image);
      r.Success? ==> r.value.text != [] && Trim(tab, r.value.text) == r.value.text
  {
    var key := StoredAPIKey(tab, d);
    var data := EncodeImageData(app, ops, image);
    if key != [] && data.Some? && client.urlFor(key).Some? {
      OneRequest(app, tab, d, ops, client, image);
      RespondTrimmed(tab, client.post(client.urlFor(key).value, VisionRequest(data.value, FeatureFor(app), LanguageHints)));
    }
  }

  lemma RespondTrimmed(tab: CharTable, outcome: HttpOutcome<VisionBody>)
    ensures var r := Respond(tab, outcome);
      r.Success? ==> r.value.text != [] && Trim(tab, r.value.text) == r.value.text
  {
    if outcome.Response? && outcome.statusCode == 200 && outcome.body.asBatch.Success? {
      ReadBatchTrimmed(tab, outcome.body.asBatch.value);
    }
  }

  lemma ReadBatchTrimmed(tab: CharTable, batch: BatchResponse)
    ensures var r := ReadBatch(tab, batch);
      r.Success? ==> r.value.text != [] && Trim(tab, r.value.text) == r.value.text
  {
    if FirstResponse(batch).Some? {
      TrimIdempotent(tab, RawText(FirstResponse(batch).value));
    }
  }

  /** The key check, the encoding and the URL come before the request:
      when one of them fails the endpoint is never consulted. */
  lemma ChecksPrecedeRequest(app: App, tab: CharTable, d: Defaults, ops: ImageOps, client: VisionClient,
                             other: VisionClient, image: Image)
    requires StoredAPIKey(tab, d) == [] || EncodeImageData(app, ops, image).None?
    ensures PerformCloudVisionOCR(app, tab, d, ops, client, image) == PerformCloudVisionOCR(app, tab, d, ops, other, image)
    ensures StoredAPIKey(tab, d) == [] ==>
      PerformCloudVisionOCR(app, tab, d, ops, client, image) == Failure(OCRError(401, "Google Cloud API key not set"))
    ensures StoredAPIKey(tab, d) != [] ==>
      PerformCloudVisionOCR(app, tab, d, ops, client, image) == Failure(OCRError(400, "Failed to encode image for Cloud Vision"))
  {
  }

  /** Past the checks, exactly one request is sent to the URL built from
      the key: the encoded image, the app's feature and the hints. */
  lemma OneRequest(app: App, tab: CharTable, d: Defaults, ops: ImageOps, client: VisionClient, image: Image)
    requires StoredAPIKey(tab, d) != [] && EncodeImageData(app, ops, image).Some?
    ensures client.urlFor(StoredAPIKey(tab, d)).None? ==>
      PerformCloudVisionOCR(app, tab, d, ops, client, image) == Failure(OCRError(400, "Invalid Cloud Vision API URL"))
    ensures client.urlFor(StoredAPIKey(tab, d)).Some? ==>
      PerformCloudVisionOCR(app, tab, d, ops, client, image)
      == Respond(tab, client.post(client.urlFor(StoredAPIKey(tab, d)).value,
                                  VisionRequest(EncodeImageData(app, ops, image).value, FeatureFor(app), LanguageHints)))
  {
  }

  /** Past the key and encoding checks, the outcome depends on the
      endpoint only through the URL it builds from the key and its reply to
      the one POST of the encoded image with the app's feature and the
      eleven hints; without a URL the call fails with 400. */
  lemma RequestDecides(app: App, tab: CharTable, d: Defaults, ops: ImageOps, client: VisionClient,
                       other: VisionClient, image: Image)
    requires StoredAPIKey(tab, d) != [] && EncodeImageData(app, ops, image).Some?
    requires other.urlFor(StoredAPIKey(tab, d)) == client.urlFor(StoredAPIKey(tab, d))
    requires client.urlFor(StoredAPIKey(tab, d)).Some? ==>
      var request := VisionRequest(EncodeImageData(app, ops, image).value, FeatureFor(app), LanguageHints);
      var url := client.urlFor(StoredAPIKey(tab, d)).value;
      other.post(url, request) == client.post(url, request)
    ensures PerformCloudVisionOCR(app, tab, d, ops, client, image) == PerformCloudVisionOCR(app, tab, d, ops, other, image)
    ensures client.urlFor(StoredAPIKey(tab, d)).None? ==>
      PerformCloudVisionOCR(app, tab, d, ops, client, image) == Failure(OCRError(400, "Invalid Cloud Vision API URL"))
  {
    OneRequest(app, tab, d, ops, client, image);
    OneRequest(app, tab, d, ops, other, image);
  }

  /** A reply succeeds only as a 200 whose body decodes as a batch that
      reads successfully; every other status fails with that status as its
      code and the extracted message after "Cloud Vision API Error: "; a
      reply that is not HTTP fails with 500; a transport error and the
      batch decoder's error are passed on as they are. */
  lemma RespondStatus(tab: CharTable, outcome: HttpOutcome<VisionBody>)
    ensures Respond(tab, outcome).Success? <==>
      && outcome.Response? && outcome.statusCode == 200 && outcome.body.asBatch.Success?
      && ReadBatch(tab, outcome.body.asBatch.value).Success?
    ensures var r := Respond(tab, outcome);
      outcome.Response? && outcome.statusCode != 200 ==>
        && r.Failure? && r.error.ServiceError? && r.error.domain == OCRServiceDomain
        && r.error.code == outcome.statusCode
        && r.error.message == "Cloud Vision API Error: " + ExtractCloudVisionErrorMessage(outcome.body)
    ensures outcome.NotHTTP? ==>
      Respond(tab, outcome).Failure? && Respond(tab, outcome).error.code == 500
    ensures outcome.TransportFailed? ==> Respond(tab, outcome) == Failure(outcome.error)
    ensures outcome.Response? && outcome.statusCode == 200 && outcome.body.asBatch.Failure? ==>
      Respond(tab, outcome) == Failure(outcome.body.asBatch.error)
  {
  }

  /** The encoding falls back to the second format only when the first
      fails, and there is no data only when both fail. */
  lemma EncodeFallback(app: App, ops: ImageOps, image: Image)
    ensures EncodeImageData(app, ops, image).None? <==>
      ops.encodePNG(image).None? && (if app == CaptureLingo then ops.encodeJPEG(image, 1.0) else ops.encodeJPEG(image, 0.9)).None?
  {
  }
}
