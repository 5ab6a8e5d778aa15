/**
 * The parts of the `http`/`axum` types the error layer works with: status
 * codes, the values a status code can be converted from, and responses.
 */
module Http {
  import opened Wrappers
  import opened Numerals

  /** Rust's `u16`. */
  type uint16 = x: int | 0 <= x < 0x1_0000

  /** `StatusCode::from_u16` accepts exactly the three-digit numbers. */
  predicate IsStatusValue(n: int) {
    100 <= n <= 999
  }

  /** A `StatusCode`: a value that `IsStatusValue` accepts. */
  type StatusCode = n: int | IsStatusValue(n) witness 200

  const BadRequest: StatusCode := 400

  /**
   * The values the source passes where a status code is expected
   * (`C: TryInto<StatusCode>`): an integer literal, taken as `u16`, or a
   * `StatusCode` itself.
   */
  datatype CodeLike = FromNumber(number: uint16) | FromStatus(status: StatusCode)

  datatype InvalidStatusCode = InvalidStatusCode

  /**
   * `try_into()`: a number is range checked; a `StatusCode` converts to
   * itself and cannot fail.
   */
  function TryIntoStatus(code: CodeLike): (r: Result<StatusCode, InvalidStatusCode>)
    ensures code.FromStatus? ==> r == Ok(code.status)
    ensures code.FromNumber? ==> (r.Ok? <==> IsStatusValue(code.number))
    ensures code.FromNumber? && r.Ok? ==> r.value == code.number
  {
    match code
    case FromStatus(s) => Ok(s)
    case FromNumber(n) => if IsStatusValue(n) then Ok(n) else Err(InvalidStatusCode)
  }

  /** `StatusCode::canonical_reason`: the registered reason phrase, when there is one. */
  function CanonicalReason(code: StatusCode): Option<string> {
    match code
    case 100 => Some("Continue")
    case 101 => Some("Switching Protocols")
    case 102 => Some("Processing")
    case 200 => Some("OK")
    case 201 => Some("Created")
    case 202 => Some("Accepted")
    case 203 => Some("Non Authoritative Information")
    case 204 => Some("No Content")
    case 205 => Some("Reset Content")
    case 206 => Some("Partial Content")
    case 207 => Some("Multi-Status")
    case 208 => Some("Already Reported")
    case 226 => Some("IM Used")
    case 300 => Some("Multiple Choices")
    case 301 => Some("Moved Permanently")
    case 302 => Some("Found")
    case 303 => Some("See Other")
    case 304 => Some("Not Modified")
    case 305 => Some("Use Proxy")
    case 307 => Some("Temporary Redirect")
    case 308 => Some("Permanent Redirect")
    case 400 => Some("Bad Request")
    case 401 => Some("Unauthorized")
    case 402 => Some("Payment Required")
    case 403 => Some("Forbidden")
    case 404 => Some("Not Found")
    case 405 => Some("Method Not Allowed")
    case 406 => Some("Not Acceptable")
    case 407 => Some("Proxy Authentication Required")
    case 408 => Some("Request Timeout")
    case 409 => Some("Conflict")
    case 410 => Some("Gone")
    case 411 => Some("Length Required")
    case 412 => Some("Precondition Failed")
    case 413 => Some("Payload Too Large")
    case 414 => Some("URI Too Long")
    case 415 => Some("Unsupported Media Type")
    case 416 => Some("Range Not Satisfiable")
    case 417 => Some("Expectation Failed")
    case 418 => Some("I'm a teapot")
    case 421 => Some("Misdirected Request")
    case 422 => Some("Unprocessable Entity")
    case 423 => Some("Locked")
    case 424 => Some("Failed Dependency")
    case 426 => Some("Upgrade Required")
    case 428 => Some("Precondition Required")
    case 429 => Some("Too Many Requests")
    case 431 => Some("Request Header Fields Too Large")
    case 451 => Some("Unavailable For Legal Reasons")
    case 500 => Some("Internal Server Error")
    case 501 => Some("Not Implemented")
    case 502 => Some("Bad Gateway")
    case 503 => Some("Service Unavailable")
    case 504 => Some("Gateway Timeout")
    case 505 => Some("HTTP Version Not Supported")
    case 506 => Some("Variant Also Negotiates")
    case 507 => Some("Insufficient Storage")
    case 508 => Some("Loop Detected")
    case 510 => Some("Not Extended")
    case 511 => Some("Network Authentication Required")
    case _ => None
  }

  /** What `Display` prints after the number: the reason, or a placeholder for an unregistered code. */
  function ReasonText(code: StatusCode): string {
    match CanonicalReason(code)
    case Some(reason) => reason
    case None => "<unknown status code>"
  }

  /** `Display` of a `StatusCode`: the number, a space, the reason text. */
  function StatusDisplay(code: StatusCode): string {
    assert IsStatusValue(code);
    FormatNat(code) + " " + ReasonText(code)
  }

  type Header = (string, string)

  /** A response body: plain text, or a JSON object of string fields. */
  datatype Body = Text(text: string) | Json(fields: seq<(string, string)>)

  /** An HTTP response: status, headers in insertion order, body. */
  datatype Response = Response(status: StatusCode, headers: seq<Header>, body: Body)

  /** `(code, text).into_response()`: the given status, no header of its own, the text as body. */
  function TextResponse(code: StatusCode, text: string): Response {
    Response(code, [], Text(text))
  }

  /**
   * The response axum makes of a handler's `Result`: the success value, a
   * string, becomes a 200 plain-text response; an error response is served as is.
   */
  function Respond(outcome: Result<string, Response>): Response {
    match outcome
    case Ok(s) => TextResponse(200, s)
    case Err(e) => e
  }
}
