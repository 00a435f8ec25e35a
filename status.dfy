/**
  The status table: the `HttpStatus` enumeration with its discriminants, the
  discriminant of a variant (`code`), and the reason phrase of a number
  (`reason`), which covers a subset of the registry of section 15 of RFC 9110.
*/
module StatusCodes {
  import opened Wrappers

  type u16 = n: int | 0 <= n < 0x1_0000

  datatype HttpStatus =
      Continue
    | SwitchingProtocols
    | Processing
    | EarlyHints
    | OK
    | Created
    | Accepted
    | NonAuthoritativeInformation
    | NoContent
    | ResetContent
    | PartialContent
    | MultiStatus
    | AlreadyReported
    | ImUsed
    | MultipleChoices
    | MovedPermanently
    | Found
    | SeeOther
    | NotModified
    | UseProxy
    | TemporaryRedirect
    | PermanentRedirect
    | BadRequest
    | Unauthorized
    | PaymentRequired
    | Forbidden
    | NotFound
    | MethodNotAllowed
    | NotAcceptable
    | ProxyAuthenticationRequired
    | RequestTimeout
    | Conflict
    | Gone
    | LengthRequired
    | PreconditionFailed
    | PayloadTooLarge
    | UriTooLong
    | UnsupportedMediaType
    | RangeNotSatisfiable
    | ExpectationFailed
    | ImATeapot
    | MisdirectedRequest
    | UnprocessableEntity
    | Locked
    | FailedDependency
    | TooEarly
    | UpgradeRequired
    | PreconditionRequired
    | TooManyRequests
    | RequestHeaderFieldsTooLarge
    | UnavailableForLegalReasons
    | InternalServerError
    | NotImplemented
    | BadGateway
    | ServiceUnavailable
    | GatewayTimeout
    | HttpVersionNotSupported
    | VariantAlsoNegotiates
    | InsufficientStorage
    | LoopDetected
    | NotExtended
    | NetworkAuthenticationRequired

  /** `e.code()`: the variant's discriminant, a 1xx to 5xx code that names the variant back. */
  function Code(e: HttpStatus): (c: u16)
    ensures 100 <= c <= 511
    ensures FromCode(c) == Some(e)
  {
    match e
    case Continue => 100
    case SwitchingProtocols => 101
    case Processing => 102
    case EarlyHints => 103
    case OK => 200
    case Created => 201
    case Accepted => 202
    case NonAuthoritativeInformation => 203
    case NoContent => 204
    case ResetContent => 205
    case PartialContent => 206
    case MultiStatus => 207
    case AlreadyReported => 208
    case ImUsed => 226
    case MultipleChoices => 300
    case MovedPermanently => 301
    case Found => 302
    case SeeOther => 303
    case NotModified => 304
    case UseProxy => 305
    case TemporaryRedirect => 307
    case PermanentRedirect => 308
    case BadRequest => 400
    case Unauthorized => 401
    case PaymentRequired => 402
    case Forbidden => 403
    case NotFound => 404
    case MethodNotAllowed => 405
    case NotAcceptable => 406
    case ProxyAuthenticationRequired => 407
    case RequestTimeout => 408
    case Conflict => 409
    case Gone => 410
    case LengthRequired => 411
    case PreconditionFailed => 412
    case PayloadTooLarge => 413
    case UriTooLong => 414
    case UnsupportedMediaType => 415
    case RangeNotSatisfiable => 416
    case ExpectationFailed => 417
    case ImATeapot => 418
    case MisdirectedRequest => 421
    case UnprocessableEntity => 422
    case Locked => 423
    case FailedDependency => 424
    case TooEarly => 425
    case UpgradeRequired => 426
    case PreconditionRequired => 428
    case TooManyRequests => 429
    case RequestHeaderFieldsTooLarge => 431
    case UnavailableForLegalReasons => 451
    case InternalServerError => 500
    case NotImplemented => 501
    case BadGateway => 502
    case ServiceUnavailable => 503
    case GatewayTimeout => 504
    case HttpVersionNotSupported => 505
    case VariantAlsoNegotiates => 506
    case InsufficientStorage => 507
    case LoopDetected => 508
    case NotExtended => 510
    case NetworkAuthenticationRequired => 511
  }

  /** The variant whose discriminant is `n`, if there is one. */
  function FromCode(n: int): (r: Option<HttpStatus>)
  {
    match n
    case 100 => Some(Continue)
    case 101 => Some(SwitchingProtocols)
    case 102 => Some(Processing)
    case 103 => Some(EarlyHints)
    case 200 => Some(OK)
    case 201 => Some(Created)
    case 202 => Some(Accepted)
    case 203 => Some(NonAuthoritativeInformation)
    case 204 => Some(NoContent)
    case 205 => Some(ResetContent)
    case 206 => Some(PartialContent)
    case 207 => Some(MultiStatus)
    case 208 => Some(AlreadyReported)
    case 226 => Some(ImUsed)
    case 300 => Some(MultipleChoices)
    case 301 => Some(MovedPermanently)
    case 302 => Some(Found)
    case 303 => Some(SeeOther)
    case 304 => Some(NotModified)
    case 305 => Some(UseProxy)
    case 307 => Some(TemporaryRedirect)
    case 308 => Some(PermanentRedirect)
    case 400 => Some(BadRequest)
    case 401 => Some(Unauthorized)
    case 402 => Some(PaymentRequired)
    case 403 => Some(Forbidden)
    case 404 => Some(NotFound)
    case 405 => Some(MethodNotAllowed)
    case 406 => Some(NotAcceptable)
    case 407 => Some(ProxyAuthenticationRequired)
    case 408 => Some(RequestTimeout)
    case 409 => Some(Conflict)
    case 410 => Some(Gone)
    case 411 => Some(LengthRequired)
    case 412 => Some(PreconditionFailed)
    case 413 => Some(PayloadTooLarge)
    case 414 => Some(UriTooLong)
    case 415 => Some(UnsupportedMediaType)
    case 416 => Some(RangeNotSatisfiable)
    case 417 => Some(ExpectationFailed)
    case 418 => Some(ImATeapot)
    case 421 => Some(MisdirectedRequest)
    case 422 => Some(UnprocessableEntity)
    case 423 => Some(Locked)
    case 424 => Some(FailedDependency)
    case 425 => Some(TooEarly)
    case 426 => Some(UpgradeRequired)
    case 428 => Some(PreconditionRequired)
    case 429 => Some(TooManyRequests)
    case 431 => Some(RequestHeaderFieldsTooLarge)
    case 451 => Some(UnavailableForLegalReasons)
    case 500 => Some(InternalServerError)
    case 501 => Some(NotImplemented)
    case 502 => Some(BadGateway)
    case 503 => Some(ServiceUnavailable)
    case 504 => Some(GatewayTimeout)
    case 505 => Some(HttpVersionNotSupported)
    case 506 => Some(VariantAlsoNegotiates)
    case 507 => Some(InsufficientStorage)
    case 508 => Some(LoopDetected)
    case 510 => Some(NotExtended)
    case 511 => Some(NetworkAuthenticationRequired)
    case _ => None
  }

  /** `HttpStatus::reason(code)`: the phrase for a listed code, and the empty string for any other. */
  function Reason(code: u16): (r: string)
    ensures r != "" <==> FromCode(code).Some?
  {
    match code
    case 100 => "Continue"
    case 101 => "Switching Protocols"
    case 102 => "Processing"
    case 103 => "Early Hints"
    case 200 => "OK"
    case 201 => "Created"
    case 202 => "Accepted"
    case 203 => "Non-Authoritative Information"
    case 204 => "No Content"
    case 205 => "Reset Content"
    case 206 => "Partial Content"
    case 207 => "Multi-Status"
    case 208 => "Already Reported"
    case 226 => "IM Used"
    case 300 => "Multiple Choices"
    case 301 => "Moved Permanently"
    case 302 => "Found"
    case 303 => "See Other"
    case 304 => "Not Modified"
    case 305 => "Use Proxy"
    case 307 => "Temporary Redirect"
    case 308 => "Permanent Redirect"
    case 400 => "Bad Request"
    case 401 => "Unauthorized"
    case 402 => "Payment Required"
    case 403 => "Forbidden"
    case 404 => "Not Found"
    case 405 => "Method Not Allowed"
    case 406 => "Not Acceptable"
    case 407 => "Proxy Authentication Required"
    case 408 => "Request Timeout"
    case 409 => "Conflict"
    case 410 => "Gone"
    case 411 => "Length Required"
    case 412 => "Precondition Failed"
    case 413 => "Payload Too Large"
    case 414 => "URI Too Long"
    case 415 => "Unsupported Media Type"
    case 416 => "Range Not Satisfiable"
    case 417 => "Expectation Failed"
    case 418 => "I'm a Teapot"
    case 421 => "Misdirected Request"
    case 422 => "Unprocessable Entity"
    case 423 => "Locked"
    case 424 => "Failed Dependency"
    case 425 => "Too Early"
    case 426 => "Upgrade Required"
    case 428 => "Precondition Required"
    case 429 => "Too Many Requests"
    case 431 => "Request Header Fields Too Large"
    case 451 => "Unavailable For Legal Reasons"
    case 500 => "Internal Server Error"
    case 501 => "Not Implemented"
    case 502 => "Bad Gateway"
    case 503 => "Service Unavailable"
    case 504 => "Gateway Timeout"
    case 505 => "HTTP Version Not Supported"
    case 506 => "Variant Also Negotiates"
    case 507 => "Insufficient Storage"
    case 508 => "Loop Detected"
    case 510 => "Not Extended"
    case 511 => "Network Authentication Required"
    case _ => ""
  }

  /** Every variant's code has a phrase in the table, and distinct variants have distinct codes. */
  lemma TableCoversVariants()
    ensures forall e :: Reason(Code(e)) != ""
    ensures forall a, b :: Code(a) == Code(b) ==> a == b
  {
  }

  /** `FromCode` is the exact inverse of `Code` on the listed codes. */
  lemma FromCodeInverse(n: int)
    requires FromCode(n).Some?
    ensures Code(FromCode(n).value) == n
  {
  }

  lemma CodeExamples()
    ensures Code(OK) == 200 && Code(NotFound) == 404 && Code(InternalServerError) == 500
  {
  }

  /** Listed codes map to their phrases verbatim; unlisted codes map to the empty string. */
  lemma ReasonExamples()
    ensures Reason(200) == "OK" && Reason(404) == "Not Found"
    ensures Reason(418) == "I'm a Teapot" && Reason(418) != "I'm a teapot"
    ensures Reason(306) == "" && Reason(509) == "" && Reason(999) == ""
  {
    assert "I'm a Teapot"[6] != "I'm a teapot"[6];
  }
}
