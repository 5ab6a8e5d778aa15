/**
 * The demo server's handlers, built on the combinators: two fixed outcomes
 * mapped with `stop(500)`, and a guessing endpoint whose number is checked for
 * length, parsed as `i32`, and checked for range, each failure becoming a 400.
 */
module Demo {
  import opened Wrappers
  import opened Http
  import opened Numerals
  import opened ApiErr
  import Utf8

  const EmptyMessage := "You must provide a number."
  const TooLongMessage := "The number is too long. Try again with fewer digits."
  const CookieHeader: Header := ("Set-Cookie", "foo=bar; Max-Age=10; SameSite=Lax")

  function TooLowMessage(n: int32): string {
    "The number " + FormatInt(n) + " is too low. Try higher :)"
  }

  function TooHighMessage(n: int32): string {
    "The number " + FormatInt(n) + " is too high. Try lower :)"
  }

  function RightMessage(n: int32): string {
    "Nice! You guessed the right number, which is " + FormatInt(n) + "!!!"
  }

  /** `Display` of `&str` and `String`: the text itself. */
  function ShowText(s: string): string {
    s
  }

  function Bad(): Result<string, string> {
    Err("bad")
  }

  function Good(): Result<string, string> {
    Ok("good")
  }

  /** `always_500`: the user gets the generic 500 text, never the error "bad". */
  function Always500(): (r: Result<string, Response>)
    ensures r == Err(Response(500, [], Text("500 Internal Server Error")))
  {
    DefaultResponseOf500();
    assert Stop(FromNumber(500))("bad") == DefaultResponse(500);
    Bad().MapErr(Stop(FromNumber(500)))
  }

  /** The generic 500 response: the number and the registered reason phrase. */
  lemma DefaultResponseOf500()
    ensures DefaultResponse(500) == Response(500, [], Text("500 Internal Server Error"))
  {
    assert FormatNat(500) == "500";
    assert ReasonText(500) == "Internal Server Error";
    assert StatusDisplay(500) == "500 Internal Server Error";
  }

  /** `always_200`: the success value passes through and the error mapper is never applied. */
  function Always200(): (r: Result<string, Response>)
    ensures r == Ok("good")
    ensures Respond(r) == Response(200, [], Text("good"))
  {
    Good().MapErr(Stop(FromNumber(500)))
  }

  /** `validate_length`: the byte length must be between 1 and 5. */
  function ValidateLength(number: string): (r: Result<string, string>)
    ensures Utf8.EncodedLength(number) == 0 ==> r == Err(EmptyMessage)
    ensures Utf8.EncodedLength(number) > 5 ==> r == Err(TooLongMessage)
    ensures 1 <= Utf8.EncodedLength(number) <= 5 ==> r == Ok(number)
  {
    var n := Utf8.EncodedLength(number);
    if n == 0 then Err(EmptyMessage)
    else if n > 5 then Err(TooLongMessage)
    else Ok(number)
  }

  /** `validate_range`: only 69 is accepted; below is too low, above too high. */
  function ValidateRange(number: int32): (r: Result<string, string>)
    ensures r.Ok? <==> number == 69
    ensures number <= 68 ==> r == Err(TooLowMessage(number))
    ensures number == 69 ==> r == Ok(RightMessage(69))
    ensures number >= 70 ==> r == Err(TooHighMessage(number))
  {
    if number <= 68 then Err(TooLowMessage(number))
    else if number == 69 then Ok(RightMessage(number))
    else Err(TooHighMessage(number))
  }

  /** `not_a_number`: always answers, with the given status, a cookie header and a JSON error field. */
  function NotANumber(code: StatusCode, err: IntErrorKind): (r: Option<Response>)
    ensures r.Some? && r.value.status == code
    ensures r.value.headers == [CookieHeader]
    ensures r.value.body == Json([("err", Describe(err))])
  {
    Some(Response(code, [CookieHeader], Json([("err", Describe(err))])))
  }

  /**
   * `error_with_custom_feedback`: a missing path segment reads as the empty
   * string; then the length check, the parse and the range check run in that
   * order, each failure stopping the pipeline with a 400 response.
   */
  function ErrorWithCustomFeedback(number: Option<string>): (r: Result<string, Response>)
    ensures r.Err? ==> r.error.status == 400
    ensures r.Ok? ==> r.value == RightMessage(69)
  {
    var number := match number case Some(s) => s case None => "";
    var number :- ValidateLength(number).MapErr(
      Catch(FromNumber(400), TransparentHandle(ShowText), DefaultResponse));
    var number :- ParseInt32(number).MapErr(Catch(FromNumber(400), NotANumber, DefaultResponse));
    ValidateRange(number).MapErr(TransparentStop(ShowText, FromStatus(BadRequest)))
  }

  // ------------------------------------------------------------------ lemmas

  /** A missing or empty number is answered with 400 and the "provide a number" text. */
  lemma MissingNumberRejected(number: Option<string>)
    requires number.None? || number == Some("")
    ensures ErrorWithCustomFeedback(number) == Err(Response(400, [], Text(EmptyMessage)))
  {
  }

  /** Only the empty string fails the length check as empty; more than five characters always fail it. */
  lemma ValidateLengthByCharacters(number: string)
    ensures ValidateLength(number) == Err(EmptyMessage) <==> number == []
    ensures |number| > 5 ==> ValidateLength(number) == Err(TooLongMessage)
    ensures Utf8.IsAscii(number) ==> (ValidateLength(number).Ok? <==> 1 <= |number| <= 5)
  {
    if Utf8.IsAscii(number) {
      Utf8.AsciiLength(number);
    }
  }

  /** A number longer than five bytes is answered with 400 and the "too long" text. */
  lemma LongNumberRejected(number: string)
    requires Utf8.EncodedLength(number) > 5
    ensures ErrorWithCustomFeedback(Some(number)) == Err(Response(400, [], Text(TooLongMessage)))
  {
  }

  /**
   * A length-valid number that does not parse is answered by `not_a_number`:
   * 400, the cookie header, the parse error's text as JSON; the error is never
   * an overflow, since five bytes cannot overflow `i32`.
   */
  lemma UnparsableNumberRejected(number: string)
    requires 1 <= Utf8.EncodedLength(number) <= 5 && ParseInt32(number).Err?
    ensures ParseInt32(number).error == InvalidDigit
    ensures ErrorWithCustomFeedback(Some(number)) ==
      Err(Response(400, [CookieHeader], Json([("err", Describe(ParseInt32(number).error))])))
  {
    ShortInputNeverOverflows(number);
  }

  /** A length-valid number that parses is judged by the range check alone, its message shown with 400. */
  lemma ParsedNumberJudgedByRange(number: string)
    requires 1 <= Utf8.EncodedLength(number) <= 5 && ParseInt32(number).Ok?
    ensures var n := ParseInt32(number).value;
      ErrorWithCustomFeedback(Some(number)) ==
        if n == 69 then Ok(RightMessage(69))
        else Err(Response(400, [], Text(if n <= 68 then TooLowMessage(n) else TooHighMessage(n))))
  {
  }

  /** The handler succeeds exactly on a length-valid number that parses to 69. */
  lemma FeedbackSucceedsExactlyOn69(number: string)
    ensures ErrorWithCustomFeedback(Some(number)).Ok? <==>
      1 <= Utf8.EncodedLength(number) <= 5 && ParseInt32(number) == Ok(69)
  {
  }

  /**
   * For every `i32` whose decimal form fits in five characters, the handler
   * given that form answers as the range check says about the number.
   */
  lemma FeedbackOnFormattedNumber(n: int32)
    requires -9999 <= n <= 99999
    ensures ErrorWithCustomFeedback(Some(FormatInt(n))) ==
      if n == 69 then Ok(RightMessage(69))
      else Err(Response(400, [], Text(if n <= 68 then TooLowMessage(n) else TooHighMessage(n))))
  {
    var s := FormatInt(n);
    var m: nat := if n < 0 then 0 - n else n;
    assert Pow10(4) == 10000 && Pow10(5) == 100000;
    FormatNatLength(m, if n < 0 then 4 else 5);
    assert Utf8.IsAscii(s) by {
      forall i | 0 <= i < |s| ensures s[i] < 128 as char {
        if n >= 0 || i > 0 {
          assert IsDigit(s[i]) by { if n < 0 { assert s[i] == s[1..][i - 1]; } }
        }
      }
    }
    Utf8.AsciiLength(s);
    ParsedNumberJudgedByRange(s);
  }
}
