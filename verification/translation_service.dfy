/** SnapLingo's translation service: API-key and target-language
    resolution from the user defaults, and `generateTranslationOutput`, which
    checks its inputs, may answer without a request (short-circuit A), calls
    Google Translate, and may hand back the original text when the detected
    source already is the target (short-circuit B). The HTTP call is an
    oracle. */
module TranslationService {
  import opened Wrappers
  import opened Common
  import opened TextOps
  import opened ScriptDetector
  import opened HtmlEntities

  /** The three user-defaults entries the service reads: "GoogleTranslateAPIKey",
      the legacy "GeminiAPIKey" and "TargetLanguage" (nil: never stored). */
  datatype Defaults = Defaults(
    googleTranslateAPIKey: Option<string>,
    geminiAPIKey: Option<string>,
    targetLanguage: Option<string>)

  /** `apiKey`: the stored key, else the legacy key, else "", trimmed. */
  function APIKey(tab: CharTable, d: Defaults): string {
    Trim(tab, d.googleTranslateAPIKey.GetOr(d.geminiAPIKey.GetOr("")))
  }

  /** `defaultTargetLanguage`: the stored target, else "ja", trimmed. */
  function DefaultTargetLanguage(tab: CharTable, d: Defaults): string {
    Trim(tab, d.targetLanguage.GetOr("ja"))
  }

  predicate HasAPIKey(tab: CharTable, d: Defaults) {
    APIKey(tab, d) != []
  }

  function StoredAPIKey(tab: CharTable, d: Defaults): string {
    APIKey(tab, d)
  }

  /** `setAPIKey`: stores the trimmed key under the primary entry. */
  function SetAPIKey(tab: CharTable, d: Defaults, key: string): Defaults {
    d.(googleTranslateAPIKey := Some(Trim(tab, key)))
  }

  /** The letters of `CharacterSet(charactersIn: "a...zA...Z")`. */
  predicate IsLatinLetter(c: char) {
    'a' <= c <= 'z' || 'A' <= c <= 'Z'
  }

  /** `shouldKeepOriginalTextAsJapanese`: no ASCII letter, and some kana. */
  predicate ShouldKeepOriginalTextAsJapanese(text: string) {
    if exists i :: 0 <= i < |text| && IsLatinLetter(text[i]) then false
    else ContainsKana(text)
  }

  // ------------------------------------------------ the decoded response

  /** `GoogleTranslation` */
  datatype GoogleTranslation = GoogleTranslation(translatedText: Option<string>, detectedSourceLanguage: Option<string>)

  /** `GoogleTranslateData` */
  datatype GoogleTranslateData = GoogleTranslateData(translations: Option<seq<GoogleTranslation>>)

  /** `GoogleTranslateResponse` */
  datatype GoogleTranslateResponse = GoogleTranslateResponse(data: Option<GoogleTranslateData>)

  /** `GoogleTranslateErrorDetail` */
  datatype GoogleTranslateErrorDetail = GoogleTranslateErrorDetail(code: Option<int>, message: Option<string>)

  /** `GoogleTranslateErrorEnvelope` */
  datatype GoogleTranslateErrorEnvelope = GoogleTranslateErrorEnvelope(error: Option<GoogleTranslateErrorDetail>)

  /** A response body as each reader of it sees it: `JSONDecoder` for the
      success shape (which may throw), `try?` decoding of the error envelope,
      and `String(data:encoding: .utf8)`. */
  datatype TranslateBody = TranslateBody(
    asResponse: Result<GoogleTranslateResponse, Err>,
    asErrorEnvelope: Option<GoogleTranslateErrorEnvelope>,
    asUTF8: Option<string>)

  /** The JSON request body: `q`, `target`, and `format` "text". */
  datatype TranslateRequest = TranslateRequest(q: string, target: string, format: string)

  /** The outside world of one translation: whether `URLComponents` yields a
      URL for a key, and the POST of a request to that URL. */
  datatype TranslateClient = TranslateClient(
    urlFor: string -> Option<string>,
    post: (string, TranslateRequest) -> HttpOutcome<TranslateBody>)

  /** `TranslationOutput` */
  datatype TranslationOutput = TranslationOutput(translatedText: string, detectedSourceLanguage: Option<string>)

  /** The non-empty `error.message` of the error envelope, if any. */
  function EnvelopeMessage(body: TranslateBody): Option<string> {
    match body.asErrorEnvelope
    case Some(GoogleTranslateErrorEnvelope(Some(GoogleTranslateErrorDetail(_, Some(m))))) =>
      if m != [] then Some(m) else None
    case _ => None
  }

  /** `extractAPIErrorMessage`: the envelope's message when it is present
      and non-empty, else the body as UTF-8 text, else "Unknown Error". */
  function ExtractAPIErrorMessage(body: TranslateBody): (r: string)
    ensures EnvelopeMessage(body).Some? ==> r == EnvelopeMessage(body).value && r != []
    ensures EnvelopeMessage(body).None? && body.asUTF8.Some? ==> r == body.asUTF8.value
    ensures EnvelopeMessage(body).None? && body.asUTF8.None? ==> r == "Unknown Error"
    ensures r == [] <==> EnvelopeMessage(body).None? && body.asUTF8 == Some([])
  {
    match EnvelopeMessage(body)
    case Some(m) => m
    case None => body.asUTF8.GetOr("Unknown Error")
  }

  function TranslationError(code: int, message: string): Err {
    ServiceError(TranslationServiceDomain, code, message)
  }

  /** `result.data?.translations?.first` */
  function FirstTranslation(response: GoogleTranslateResponse): Option<GoogleTranslation> {
    match response.data
    case Some(GoogleTranslateData(Some(ts))) => if ts != [] then Some(ts[0]) else None
    case _ => None
  }

  /** The trimmed `translatedText` of the first entry, or "". */
  function TranslatedText(tab: CharTable, entry: Option<GoogleTranslation>): string {
    match entry
    case Some(GoogleTranslation(Some(t), _)) => Trim(tab, t)
    case _ => []
  }

  /** The lower-cased `detectedSourceLanguage` of the first entry, if any. */
  function DetectedSource(entry: Option<GoogleTranslation>): Option<string> {
    match entry
    case Some(GoogleTranslation(_, Some(l))) => Some(Lower(l))
    case _ => None
  }

  /** The lower-cased target: the argument, else the default target. */
  function Target(tab: CharTable, d: Defaults, targetLanguage: Option<string>): string {
    Lower(targetLanguage.GetOr(DefaultTargetLanguage(tab, d)))
  }

  /** Short-circuit A: a Japanese target and kana text without Latin
      letters. */
  predicate KeepsJapanese(target: string, trimmed: string) {
    HasPrefix(target, "ja") && ShouldKeepOriginalTextAsJapanese(trimmed)
  }

  /** What a 200 response's body turns into, after the request. */
  function ReadTranslation(tab: CharTable, trimmed: string, target: string, body: TranslateBody): Result<TranslationOutput, Err> {
    var result :- body.asResponse;
    var normalized := DecodedTranslation(tab, result);
    var detected := DetectedSource(FirstTranslation(result));
    if normalized == [] then
      Failure(TranslationError(502, "Empty response from Google Translate API"))
    else if detected.Some? && HasPrefix(detected.value, target) then
      Success(TranslationOutput(trimmed, detected))
    else
      Success(TranslationOutput(normalized, detected))
  }

  /** The first entry's translated text, trimmed and with its HTML
      entities decoded ("" when there is none). */
  function DecodedTranslation(tab: CharTable, response: GoogleTranslateResponse): string {
    DecodeCommonHTMLEntities(TranslatedText(tab, FirstTranslation(response)))
  }

  /** What the response to the request turns into. */
  function Respond(tab: CharTable, trimmed: string, target: string, outcome: HttpOutcome<TranslateBody>): Result<TranslationOutput, Err> {
    match outcome
    case TransportFailed(e) => Failure(e)
    case NotHTTP => Failure(TranslationError(500, "Invalid Google Translate API response"))
    case Response(status, body) =>
      if status != 200 then
        Failure(TranslationError(status, "Google Translate API Error: " + ExtractAPIErrorMessage(body)))
      else
        ReadTranslation(tab, trimmed, target, body)
  }

  /** Builds the URL from the key and sends the one request. */
  function SendRequest(tab: CharTable, client: TranslateClient, key: string, trimmed: string, target: string): Result<TranslationOutput, Err> {
    match client.urlFor(key)
    case None => Failure(TranslationError(400, "Invalid Google Translate API URL"))
    case Some(url) => Respond(tab, trimmed, target, client.post(url, TranslateRequest(trimmed, target, "text")))
  }

  /** `generateTranslationOutput(for:targetLanguage:)` */
  function GenerateTranslationOutput(tab: CharTable, d: Defaults, client: TranslateClient, text: string,
                                     targetLanguage: Option<string>): Result<TranslationOutput, Err>
  {
    var key := APIKey(tab, d);
    if key == [] then
      Failure(TranslationError(401, "Google Translate API key not set"))
    else
    var trimmed := Trim(tab, text);
    if trimmed == [] then
      Failure(TranslationError(422, "No text detected in selected area"))
    else
    var target := Target(tab, d, targetLanguage);
    if KeepsJapanese(target, trimmed) then
      Success(TranslationOutput(trimmed, Some("ja")))
    else
      SendRequest(tab, client, key, trimmed, target)
  }

  /** `generateTranslation(for:targetLanguage:)`: the translated text only. */
  function GenerateTranslation(tab: CharTable, d: Defaults, client: TranslateClient, text: string,
                               targetLanguage: Option<string>): (r: Result<string, Err>)
    ensures r.Success? <==> GenerateTranslationOutput(tab, d, client, text, targetLanguage).Success?
    ensures r.Success? ==> r.value != []
    ensures r.Failure? ==> r.error == GenerateTranslationOutput(tab, d, client, text, targetLanguage).error
  {
    TranslationNeverEmpty(tab, d, client, text, targetLanguage);
    match GenerateTranslationOutput(tab, d, client, text, targetLanguage)
    case Success(out) => Success(out.translatedText)
    case Failure(e) => Failure(e)
  }

  // ---------------------------------------------------------------- lemmas

  /** The key precedence: the primary entry whenever it exists (even when it
      is blank), else the legacy entry, else none. */
  lemma APIKeyPrecedence(tab: CharTable, d: Defaults)
    ensures d.googleTranslateAPIKey.Some? ==> APIKey(tab, d) == Trim(tab, d.googleTranslateAPIKey.value)
    ensures d.googleTranslateAPIKey.None? && d.geminiAPIKey.Some? ==> APIKey(tab, d) == Trim(tab, d.geminiAPIKey.value)
    ensures d.googleTranslateAPIKey.None? && d.geminiAPIKey.None? ==> !HasAPIKey(tab, d)
  {
  }

  /** The resolved key and target never start or end with whitespace. */
  lemma ResolvedSettingsTrimmed(tab: CharTable, d: Defaults)
    ensures Trim(tab, APIKey(tab, d)) == APIKey(tab, d)
    ensures Trim(tab, DefaultTargetLanguage(tab, d)) == DefaultTargetLanguage(tab, d)
  {
    TrimIdempotent(tab, d.googleTranslateAPIKey.GetOr(d.geminiAPIKey.GetOr("")));
    TrimIdempotent(tab, d.targetLanguage.GetOr("ja"));
  }

  /** With no stored target the default is "ja". */
  lemma DefaultTargetIsJapanese(tab: CharTable, d: Defaults)
    requires WellFormed(tab) && d.targetLanguage.None?
    ensures DefaultTargetLanguage(tab, d) == "ja"
  {
    var ja := "ja";
    assert 0x21 <= ja[0] as int <= 0x7E && 0x21 <= ja[1] as int <= 0x7E;
    TrimFixedPoint(tab, ja);
  }

  /** Setting a key and reading it back gives the trimmed key; the legacy
      entry no longer matters, so storing a blank key removes the key even
      when a legacy one exists. */
  lemma SetAPIKeyRoundTrip(tab: CharTable, d: Defaults, key: string)
    ensures StoredAPIKey(tab, SetAPIKey(tab, d, key)) == Trim(tab, key)
    ensures HasAPIKey(tab, SetAPIKey(tab, d, key)) <==> Trim(tab, key) != []
    ensures SetAPIKey(tab, d, key).targetLanguage == d.targetLanguage
    ensures SetAPIKey(tab, d, key).geminiAPIKey == d.geminiAPIKey
  {
    var t := Trim(tab, key);
    var stored := SetAPIKey(tab, d, key);
    assert stored.googleTranslateAPIKey == Some(t);
    assert APIKey(tab, stored) == Trim(tab, t);
    TrimIdempotent(tab, key);
  }

  /** Short-circuit A keeps text exactly when it has kana and no Latin
      letter: text of ideographs alone is sent. */
  lemma KeepNeedsKana(text: string)
    ensures ShouldKeepOriginalTextAsJapanese(text) <==>
      ContainsKana(text) && forall i :: 0 <= i < |text| ==> !IsLatinLetter(text[i])
    ensures ShouldKeepOriginalTextAsJapanese(text) ==> ContainsKana(text)
    ensures (forall i :: 0 <= i < |text| ==> !IsKana(text[i])) ==> !ShouldKeepOriginalTextAsJapanese(text)
    ensures ShouldKeepOriginalTextAsJapanese(text) ==> forall i :: 0 <= i < |text| ==> !IsLatinLetter(text[i])
  {
  }

  /** A missing key fails with 401 before anything else is looked at. */
  lemma MissingKeyFirst(tab: CharTable, d: Defaults, client: TranslateClient, text: string, targetLanguage: Option<string>)
    requires !HasAPIKey(tab, d)
    ensures GenerateTranslationOutput(tab, d, client, text, targetLanguage)
         == Failure(TranslationError(401, "Google Translate API key not set"))
  {
  }

  /** With a key, blank text fails with 422. */
  lemma BlankTextSecond(tab: CharTable, d: Defaults, client: TranslateClient, text: string, targetLanguage: Option<string>)
    requires HasAPIKey(tab, d) && Trim(tab, text) == []
    ensures GenerateTranslationOutput(tab, d, client, text, targetLanguage)
         == Failure(TranslationError(422, "No text detected in selected area"))
  {
  }

  /** Short-circuit A answers with the trimmed text as Japanese. */
  lemma ShortCircuitA(tab: CharTable, d: Defaults, client: TranslateClient, text: string, targetLanguage: Option<string>)
    requires HasAPIKey(tab, d) && Trim(tab, text) != []
    requires KeepsJapanese(Target(tab, d, targetLanguage), Trim(tab, text))
    ensures GenerateTranslationOutput(tab, d, client, text, targetLanguage)
         == Success(TranslationOutput(Trim(tab, text), Some("ja")))
  {
  }

  /** The key check, the text check and short-circuit A all come before
      any request: in those cases the client is never consulted. */
  lemma ChecksPrecedeRequest(tab: CharTable, d: Defaults, client: TranslateClient, other: TranslateClient,
                             text: string, targetLanguage: Option<string>)
    requires !HasAPIKey(tab, d) || Trim(tab, text) == []
          || KeepsJapanese(Target(tab, d, targetLanguage), Trim(tab, text))
    ensures GenerateTranslationOutput(tab, d, client, text, targetLanguage)
         == GenerateTranslationOutput(tab, d, other, text, targetLanguage)
  {
  }

  /** Past the checks, exactly one request is sent: the trimmed text and
      the lower-cased target, to the URL built from the key. */
  lemma OneRequest(tab: CharTable, d: Defaults, client: TranslateClient, text: string, targetLanguage: Option<string>)
    requires HasAPIKey(tab, d) && Trim(tab, text) != []
    requires !KeepsJapanese(Target(tab, d, targetLanguage), Trim(tab, text))
    ensures GenerateTranslationOutput(tab, d, client, text, targetLanguage)
         == SendRequest(tab, client, APIKey(tab, d), Trim(tab, text), Target(tab, d, targetLanguage))
  {
  }

  /** Past the checks, the outcome depends on the client only through the
      URL it builds from the key and its reply to the one POST of the
      trimmed text and the lower-cased target in format "text"; without a
      URL the call fails with 400. */
  lemma RequestDecides(tab: CharTable, d: Defaults, client: TranslateClient, other: TranslateClient,
                       text: string, targetLanguage: Option<string>)
    requires HasAPIKey(tab, d) && Trim(tab, text) != []
    requires !KeepsJapanese(Target(tab, d, targetLanguage), Trim(tab, text))
    requires other.urlFor(APIKey(tab, d)) == client.urlFor(APIKey(tab, d))
    requires client.urlFor(APIKey(tab, d)).Some? ==>
      var request := TranslateRequest(Trim(tab, text), Target(tab, d, targetLanguage), "text");
      other.post(client.urlFor(APIKey(tab, d)).value, request) == client.post(client.urlFor(APIKey(tab, d)).value, request)
    ensures GenerateTranslationOutput(tab, d, client, text, targetLanguage)
         == GenerateTranslationOutput(tab, d, other, text, targetLanguage)
    ensures client.urlFor(APIKey(tab, d)).None? ==>
      GenerateTranslationOutput(tab, d, client, text, targetLanguage)
      == Failure(TranslationError(400, "Invalid Google Translate API URL"))
  {
    OneRequest(tab, d, client, text, targetLanguage);
    OneRequest(tab, d, other, text, targetLanguage);
  }

  /** A reply succeeds only as a 200 whose body reads successfully; every
      other status fails with that status as its code and the API's message
      after "Google Translate API Error: "; a reply that is not HTTP fails
      with 500; a transport error is passed on as it is. */
  lemma RespondStatus(tab: CharTable, trimmed: string, target: string, outcome: HttpOutcome<TranslateBody>)
    ensures var r := Respond(tab, trimmed, target, outcome);
      r.Success? <==> outcome.Response? && outcome.statusCode == 200 && ReadTranslation(tab, trimmed, target, outcome.body).Success?
    ensures var r := Respond(tab, trimmed, target, outcome);
      outcome.Response? && outcome.statusCode != 200 ==>
        && r.Failure? && r.error.ServiceError? && r.error.domain == TranslationServiceDomain
        && r.error.code == outcome.statusCode
        && r.error.message == "Google Translate API Error: " + ExtractAPIErrorMessage(outcome.body)
    ensures outcome.NotHTTP? ==>
      Respond(tab, trimmed, target, outcome).Failure? && Respond(tab, trimmed, target, outcome).error.code == 500
    ensures outcome.TransportFailed? ==> Respond(tab, trimmed, target, outcome) == Failure(outcome.error)
  {
  }

  /** Reading a 200 body: a decoding error is thrown on; otherwise it
      succeeds exactly when the decoded translation is not empty (else 502),
      always reports the entry's lower-cased detected language, and answers
      either the request text or the decoded translation: the request text
      whenever the detected language starts with the target
      (short-circuit B), the decoded translation otherwise. */
  lemma ReadTranslationMeaning(tab: CharTable, trimmed: string, target: string, body: TranslateBody)
    ensures body.asResponse.Failure? ==> ReadTranslation(tab, trimmed, target, body) == Failure(body.asResponse.error)
    ensures body.asResponse.Success? ==>
      var r := ReadTranslation(tab, trimmed, target, body);
      var response := body.asResponse.value;
      var detected := DetectedSource(FirstTranslation(response));
      && (r.Success? <==> DecodedTranslation(tab, response) != [])
      && (r.Failure? ==> r.error == TranslationError(502, "Empty response from Google Translate API"))
      && (r.Success? ==> r.value.detectedSourceLanguage == detected)
      && (r.Success? ==> r.value.translatedText == trimmed || r.value.translatedText == DecodedTranslation(tab, response))
      && (r.Success? && detected.Some? && HasPrefix(detected.value, target) ==> r.value.translatedText == trimmed)
      && (r.Success? && !(detected.Some? && HasPrefix(detected.value, target)) ==>
            r.value.translatedText == DecodedTranslation(tab, response))
  {
  }

  /** A response without any translation entry is an empty response. */
  lemma NoEntryIsEmpty(tab: CharTable, trimmed: string, target: string, body: TranslateBody)
    requires body.asResponse.Success? && FirstTranslation(body.asResponse.value).None?
    ensures ReadTranslation(tab, trimmed, target, body)
         == Failure(TranslationError(502, "Empty response from Google Translate API"))
  {
    assert TranslatedText(tab, None) == [];
    DecodeWithoutAmpersand([]);
    assert DecodedTranslation(tab, body.asResponse.value) == [];
  }

  /** Reading a 200 body never succeeds with empty text when the request
      text was not empty, and any detected language it reports is
      lower-cased. */
  lemma ReadTranslationNonEmpty(tab: CharTable, trimmed: string, target: string, body: TranslateBody)
    requires trimmed != []
    ensures var out := ReadTranslation(tab, trimmed, target, body);
      out.Success? ==> out.value.translatedText != [] && LowerCased(out.value.detectedSourceLanguage)
  {
    if body.asResponse.Success? {
      var entry := FirstTranslation(body.asResponse.value);
      if entry.Some? && entry.value.detectedSourceLanguage.Some? {
        LowerIdempotent(entry.value.detectedSourceLanguage.value);
      }
    }
  }

  /** A language code that lower-casing leaves alone (or none at all). */
  predicate LowerCased(code: Option<string>) {
    code.Some? ==> Lower(code.value) == code.value
  }

  /** A successful translation is never empty, and its detected language,
      when present, is already lower-cased. */
  lemma TranslationNeverEmpty(tab: CharTable, d: Defaults, client: TranslateClient, text: string, targetLanguage: Option<string>)
    ensures var out := GenerateTranslationOutput(tab, d, client, text, targetLanguage);
      out.Success? ==> out.value.translatedText != [] && LowerCased(out.value.detectedSourceLanguage)
  {
    var trimmed := Trim(tab, text);
    var target := Target(tab, d, targetLanguage);
    if !HasAPIKey(tab, d) {
      MissingKeyFirst(tab, d, client, text, targetLanguage);
    } else if trimmed == [] {
      BlankTextSecond(tab, d, client, text, targetLanguage);
    } else if KeepsJapanese(target, trimmed) {
      ShortCircuitA(tab, d, client, text, targetLanguage);
      JapaneseIsLowerCased();
    } else {
      NeverEmptyAfterRequest(tab, d, client, text, targetLanguage);
    }
  }

  lemma NeverEmptyAfterRequest(tab: CharTable, d: Defaults, client: TranslateClient, text: string, targetLanguage: Option<string>)
    requires HasAPIKey(tab, d) && Trim(tab, text) != []
    requires !KeepsJapanese(Target(tab, d, targetLanguage), Trim(tab, text))
    ensures var out := GenerateTranslationOutput(tab, d, client, text, targetLanguage);
      out.Success? ==> out.value.translatedText != [] && LowerCased(out.value.detectedSourceLanguage)
  {
    var key := APIKey(tab, d);
    var trimmed := Trim(tab, text);
    var target := Target(tab, d, targetLanguage);
    OneRequest(tab, d, client, text, targetLanguage);
    SendRequestNonEmpty(tab, client, key, trimmed, target);
  }

  lemma SendRequestNonEmpty(tab: CharTable, client: TranslateClient, key: string, trimmed: string, target: string)
    requires trimmed != []
    ensures var out := SendRequest(tab, client, key, trimmed, target);
      out.Success? ==> out.value.translatedText != [] && LowerCased(out.value.detectedSourceLanguage)
  {
    var url := client.urlFor(key);
    if url.Some? {
      RespondNonEmpty(tab, trimmed, target, client.post(url.value, TranslateRequest(trimmed, target, "text")));
    }
  }

  lemma RespondNonEmpty(tab: CharTable, trimmed: string, target: string, outcome: HttpOutcome<TranslateBody>)
    requires trimmed != []
    ensures var out := Respond(tab, trimmed, target, outcome);
      out.Success? ==> out.value.translatedText != [] && LowerCased(out.value.detectedSourceLanguage)
  {
    if outcome.Response? && outcome.statusCode == 200 {
      ReadTranslationNonEmpty(tab, trimmed, target, outcome.body);
    }
  }

  lemma JapaneseIsLowerCased()
    ensures LowerCased(Some("ja"))
  {
    var ja := "ja";
    assert Lower(ja)[0] == 'j' && Lower(ja)[1] == 'a';
  }

  /** Short-circuit B compares prefixes of the lower-cased codes: a detected
      "zh-CN" matches the target "zh", but a detected "ja" does not match the
      target "ja-JP". */
  lemma SourceMatchExamples(zhcn: string, zh: string, ja: string, jajp: string)
    requires zhcn == "zh-CN" && zh == "zh" && ja == "ja" && jajp == "ja-JP"
    ensures HasPrefix(Lower(zhcn), Lower(zh))
    ensures !HasPrefix(Lower(ja), Lower(jajp))
  {
    assert Lower(zh) == "zh";
    assert Lower(zhcn) == "zh-cn";
  }
}
