/**
 * The error-to-response combinators: `catch` builds a one-shot transformer
 * from a default status, a custom handler that may decline, and a default
 * renderer; `stop` and `transparent_stop` are `catch` with fixed arguments.
 */
module ApiErr {
  import opened Wrappers
  import opened Http
  import opened Numerals

  /** Whether `cvcode` returns (rather than panicking) on this input. */
  predicate Convertible(code: CodeLike) {
    TryIntoStatus(code).Ok?
  }

  /** `cvcode`: convert, panicking on an invalid code; the panic is this precondition. */
  function Cvcode(code: CodeLike): (status: StatusCode)
    requires Convertible(code)
    ensures code.FromNumber? ==> status == code.number
    ensures code.FromStatus? ==> status == code.status
  {
    TryIntoStatus(code).value
  }

  /**
   * `catch`. Building the transformer never fails; the code is converted
   * when the transformer runs, so the transformer is defined on every error
   * whenever the code is convertible. The handler's answer is served
   * untouched; when it declines, the default renderer gets the converted code.
   */
  function Catch<E(!new)>(code: CodeLike, handle: (StatusCode, E) -> Option<Response>,
                    default: StatusCode -> Response): (transform: E --> Response)
    ensures forall e :: Convertible(code) ==> transform.requires(e)
    ensures forall e | Convertible(code) && handle(Cvcode(code), e).Some? ::
      transform(e) == handle(Cvcode(code), e).value
    ensures forall e | Convertible(code) && handle(Cvcode(code), e).None? ::
      transform(e) == default(Cvcode(code))
  {
    (e: E) requires Convertible(code) =>
      var status := Cvcode(code);
      match handle(status, e)
      case Some(r) => r
      case None => default(status)
  }

  /** `default_response`: the given status, and as body the number followed by its reason phrase. */
  function DefaultResponse(code: StatusCode): (r: Response)
    ensures r.status == code && r.headers == []
    ensures r.body.Text? && |r.body.text| > 3
    ensures ParseInt32(r.body.text[..3]) == Ok(code)
    ensures r.body.text[3..] == " " + ReasonText(code)
  {
    var status := Cvcode(FromStatus(code));
    var text := StatusDisplay(status);
    FormatNatLength(status, 3);
    assert Pow10(3) == 1000 && Pow10(2) == 100;
    assert text[..3] == FormatNat(status);
    assert ParseInt32(FormatInt(status)) == Ok(status);
    TextResponse(status, text)
  }

  /** `transparent`: never declines; the given status, and the error's display text as body. */
  function Transparent<E>(show: E -> string, code: StatusCode, error: E): (r: Option<Response>)
    ensures r.Some?
    ensures r.value.status == code && r.value.headers == [] && r.value.body == Text(show(error))
  {
    Some(TextResponse(code, show(error)))
  }

  /** `transparent` in the handler position of `catch`, for an error type displayed by `show`. */
  function TransparentHandle<E>(show: E -> string): (StatusCode, E) -> Option<Response> {
    (code: StatusCode, error: E) => Transparent(show, code, error)
  }

  /** `stop`: the error is discarded; the body is the default one for the converted code. */
  function Stop<E(!new)>(code: CodeLike): (transform: E --> Response)
    ensures forall e :: Convertible(code) ==> transform.requires(e)
    ensures forall e | Convertible(code) :: transform(e) == DefaultResponse(Cvcode(code))
  {
    Catch(code, (_: StatusCode, _: E) => None, DefaultResponse)
  }

  /** `transparent_stop`: the converted code as status and the error's display text as body. */
  function TransparentStop<E(!new)>(show: E -> string, code: CodeLike): (transform: E --> Response)
    ensures forall e :: Convertible(code) ==> transform.requires(e)
    ensures forall e | Convertible(code) ::
      transform(e) == Response(Cvcode(code), [], Text(show(e)))
  {
    Catch(code, TransparentHandle(show), DefaultResponse)
  }

  // ------------------------------------------------------------------ lemmas

  /** `cvcode` on a number succeeds exactly for the valid status values, and keeps the number. */
  lemma CvcodeOnNumber(n: uint16)
    ensures Convertible(FromNumber(n)) <==> IsStatusValue(n)
    ensures IsStatusValue(n) ==> Cvcode(FromNumber(n)) == n
  {
  }

  /** `cvcode` on an existing `StatusCode` is the identity and cannot panic. */
  lemma CvcodeOnStatus(s: StatusCode)
    ensures Convertible(FromStatus(s)) && Cvcode(FromStatus(s)) == s
  {
  }

  /** A custom response is served as is, so it keeps the status its handler chose, whatever the default code. */
  lemma CatchKeepsCustomStatus<E(!new)>(code: CodeLike, handle: (StatusCode, E) -> Option<Response>,
                                  default: StatusCode -> Response, e: E, custom: Response)
    requires Convertible(code) && handle(Cvcode(code), e) == Some(custom)
    ensures Catch(code, handle, default)(e) == custom
  {
  }

  /** When the handler answers, the default renderer has no effect on the result. */
  lemma CatchIgnoresDefaultWhenHandled<E(!new)>(code: CodeLike, handle: (StatusCode, E) -> Option<Response>,
                                         d1: StatusCode -> Response, d2: StatusCode -> Response, e: E)
    requires Convertible(code) && handle(Cvcode(code), e).Some?
    ensures Catch(code, handle, d1)(e) == Catch(code, handle, d2)(e)
  {
  }

  /**
   * The handler is consulted only on the converted code and the error: two
   * handlers that agree there give the same result.
   */
  lemma CatchUsesHandleOnlyAtConvertedCode<E(!new)>(code: CodeLike, h1: (StatusCode, E) -> Option<Response>,
                                  h2: (StatusCode, E) -> Option<Response>,
                                  default: StatusCode -> Response, e: E)
    requires Convertible(code) && h1(Cvcode(code), e) == h2(Cvcode(code), e)
    ensures Catch(code, h1, default)(e) == Catch(code, h2, default)(e)
  {
  }

  /** A handler that declines everything makes `catch` the default renderer on the converted code. */
  lemma CatchDecliningIsDefault<E(!new)>(code: CodeLike, default: StatusCode -> Response, e: E)
    requires Convertible(code)
    ensures Catch(code, (_: StatusCode, _: E) => None, default)(e) == default(Cvcode(code))
  {
  }

  /** `stop` hides the error: any two errors give the same response. */
  lemma StopHidesError<E(!new)>(code: CodeLike, e1: E, e2: E)
    requires Convertible(code)
    ensures Stop(code)(e1) == Stop(code)(e2)
    ensures Stop(code)(e1).body.Text?
  {
  }

  /**
   * In `transparent_stop` the fallback renderer is unreachable: any default
   * renderer gives the same transformer results.
   */
  lemma TransparentStopNeverFallsBack<E(!new)>(show: E -> string, code: CodeLike,
                                         default: StatusCode -> Response, e: E)
    requires Convertible(code)
    ensures Catch(code, TransparentHandle(show), default)(e) == TransparentStop(show, code)(e)
  {
  }
}
