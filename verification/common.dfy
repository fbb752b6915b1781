/** Values shared by the OCR and translation services of both apps. */
module Common {

  /** The two app variants built from this repository. */
  datatype App = CaptureLingo | SnapLingo

  /** The `NSError` domains the services throw under. */
  datatype Domain = OCRServiceDomain | TranslationServiceDomain

  /** A thrown error: an `NSError` the services build themselves (domain,
      code, localized description), or an error thrown by a framework call
      this model does not see (Vision, URLSession, JSONDecoder), known only
      by its description. */
  datatype Err =
    | ServiceError(domain: Domain, code: int, message: string)
    | ExternalError(description: string)
  {
    /** `error.localizedDescription` */
    function Description(): string {
      match this
      case ServiceError(_, _, m) => m
      case ExternalError(d) => d
    }
  }

  /** What `URLSession.data(for:)` and the `as? HTTPURLResponse` cast
      produce: a thrown transport error, a response that is not HTTP, or a
      status code with the body as the decoders see it. */
  datatype HttpOutcome<+B> =
    | TransportFailed(error: Err)
    | NotHTTP
    | Response(statusCode: int, body: B)
}
