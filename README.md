# errproto error-to-response layer, modelled in Dafny

errproto is a small Rust library on top of axum. It turns the error side of a
handler's `Result` into an HTTP response. `catch(code, handle, default)` builds a
one-shot transformer. When it runs, it converts `code` to a `StatusCode`
(`cvcode`, which panics on an invalid code) and offers that status and the error
to `handle`. If `handle` produces a response, that response is served untouched.
If it declines, `default` renders one from the status. `stop(code)` is `catch`
with a handler that always declines and `default_response` as renderer: the
error is hidden and the body is "<number> <reason phrase>". `transparent_stop(code)`
uses `transparent` as handler: the error's display text becomes the body. The
demo server (`src/main.rs`) uses these in two fixed handlers and in a small
guessing endpoint. That endpoint checks a number's length, parses it as `i32`
and checks its range.

Modules:

- `Wrappers` (wrappers.dfy): Rust's `Option` and `Result`, with `map_err`. The
  `:-` operator plays the part of `?`.
- `Utf8` (utf8.dfy): `String::len`, which counts UTF-8 bytes, not characters.
- `Numerals` (numerals.dfy): `Display` for integers, and `str::parse::<i32>`
  with its error kinds and messages. Every `i32` survives format-then-parse.
- `Http` (http.dfy): the status-code types, the values they convert from,
  the reason-phrase table, and responses.
- `ApiErr` (apierr.dfy): the combinators of `src/apierr.rs` and the fallback
  protocol proved about them.
- `Demo` (demo.dfy): the handlers of `src/main.rs` and their end-to-end
  behaviour.

All members are pure functions. Calling one twice on the same arguments gives
the same value, which makes the renderers deterministic by construction.

The combinators take Rust's generic parameters in the following form.
- The error type is a type parameter `E`.
- `handle` is a total function `(StatusCode, E) -> Option<Response>`.
- `default` is a total function `StatusCode -> Response`.
- The `Display` bound of `transparent` becomes a parameter `show: E -> string`.
- The transformer returned by `catch` is a partial function `E --> Response`.
  Its precondition is that the code converts. This precondition stands for
  `cvcode`'s panic.

`cvcode` runs inside the closure (src/apierr.rs:68), not when `catch` is
called. So `Catch` has no precondition, and an invalid code only matters once
the transformer is applied to an error.

In the rows below, "no header" means no header besides the `Content-Type`
header axum adds, which is left out (see below).

## Model

| member | source | states |
|---|---|---|
| Http.TryIntoStatus | src/apierr.rs:102-107 | a `StatusCode` converts to itself; a number converts exactly when it is a valid status value, keeping the number |
| ApiErr.Cvcode | src/apierr.rs:100-108 | the converted status has the input's numeric value; an invalid code is excluded by the precondition (the panic) |
| ApiErr.CvcodeOnNumber | src/apierr.rs:100-108 | a number converts without panicking exactly when it is a valid status value, and then to that number |
| ApiErr.CvcodeOnStatus | src/apierr.rs:80-86 | `cvcode` on an existing `StatusCode`, as `default_response` calls it, never panics and is the identity |
| ApiErr.Catch | src/apierr.rs:59-75 | building never fails; the transformer is defined whenever the code converts; a handler's response is returned unchanged; on decline the result is `default` of the converted code |
| ApiErr.CatchKeepsCustomStatus | src/apierr.rs:51-53 | a custom response is served as is, including the status the handler chose, whatever the default code |
| ApiErr.CatchIgnoresDefaultWhenHandled | src/apierr.rs:67-74 | when the handler answers, swapping the default renderer changes nothing: `default` is only used on decline |
| ApiErr.CatchUsesHandleOnlyAtConvertedCode | src/apierr.rs:67-74 | the handler is consulted only at (converted code, error): handlers that agree there give the same result |
| ApiErr.CatchDecliningIsDefault | src/apierr.rs:71-73 | with a handler that always declines, the result is exactly `default(cvcode(code))` |
| ApiErr.DefaultResponse | src/apierr.rs:80-86 | status is the given code, no header, and the body is the three-digit code (which parses back to the code) followed by a space and the reason text |
| ApiErr.Transparent | src/apierr.rs:92-98 | never declines; the status is the given code and the body is the error's display text |
| ApiErr.Stop | src/apierr.rs:21-33 | for every error the response is `default_response(cvcode(code))` |
| ApiErr.StopHidesError | src/apierr.rs:21-33 | any two errors give the same response: the error's content has no effect |
| ApiErr.TransparentStop | src/apierr.rs:35-44 | for every error the status is `cvcode(code)`, there is no header, and the body is the error's display text |
| ApiErr.TransparentStopNeverFallsBack | src/apierr.rs:37-44 | with `transparent` as handler, any default renderer gives the same result: the fallback is unreachable |
| Numerals.FormatNat | src/apierr.rs:84 | integer display is a non-empty digit string with no leading zero |
| Numerals.FormatNatValue | src/main.rs:38-42 | reading the displayed digits back gives the number |
| Numerals.ParseInt32 | src/main.rs:82-84 | the parse reports `Empty` exactly on the empty string; its value is always an `i32` |
| Numerals.ReadDigitsMeaning | src/main.rs:82-84 | the digit loop accepts exactly digit strings whose value is within the bound, returns that value, and reports an overflow only when the bound is below 10 to the power of the length |
| Numerals.ParseInt32Meaning | src/main.rs:82-84 | the parse succeeds exactly on an optional sign followed by digits whose value fits `i32`, and returns the signed value |
| Numerals.FormatInt | src/main.rs:38-42 | the `i32` display used in the range messages: parsing what it writes gives back every `i32` |
| Numerals.Describe | src/main.rs:51 | the four `Display` texts of `ParseIntError` that `format!` puts in the JSON `err` field; `DescribeDistinguishesKinds` proves them pairwise distinct |
| Numerals.DescribeDistinguishesKinds | src/main.rs:51 | different parse error kinds have different texts |
| Numerals.ShortInputNeverOverflows | src/main.rs:82-84 | input of at most five characters never gives an overflow error |
| Utf8.EncodedLength | src/main.rs:32 | the byte length lies between the character count and four times it |
| Utf8.AsciiLength | src/main.rs:32 | on ASCII text the byte length equals the character count |
| Demo.Bad | src/main.rs:10-12 | the fixed failing outcome `Err("bad")` |
| Demo.Good | src/main.rs:14-16 | the fixed successful outcome `Ok("good")` |
| Demo.Always500 | src/main.rs:18-23 | the result is an error response with status 500 and body "500 Internal Server Error"; "bad" is not shown |
| Demo.DefaultResponseOf500 | src/main.rs:19-21 | the generic 500 response has body "500 Internal Server Error" and no header |
| Demo.Always200 | src/main.rs:25-28 | the result is `Ok("good")`, served as status 200 with body "good"; the error mapper is not applied |
| Demo.ValidateLength | src/main.rs:32-36 | zero bytes give the "provide a number" error, more than five bytes the "too long" error, otherwise the input is returned unchanged |
| Demo.ValidateLengthByCharacters | src/main.rs:32-36 | only the empty string is rejected as empty; more than five characters always fail; on ASCII, the check passes exactly for 1 to 5 characters |
| Demo.ValidateRange | src/main.rs:37-43 | `Ok` exactly for 69; every number up to 68 gets the "too low" message and every number from 70 the "too high" message |
| Demo.NotANumber | src/main.rs:44-58 | always answers, with the given status, one `Set-Cookie` header and a JSON body whose `err` field is the parse error's text |
| Demo.ErrorWithCustomFeedback | src/main.rs:30-89 | every failure response has status 400; the only success is the "right number" message for 69 |
| Demo.MissingNumberRejected | src/main.rs:60-77 | a missing or empty number gives 400 with body "You must provide a number." |
| Demo.LongNumberRejected | src/main.rs:77 | more than five bytes gives 400 with the "too long" text, before any parse |
| Demo.UnparsableNumberRejected | src/main.rs:82-84 | a length-valid number that does not parse gives `not_a_number`'s response (400, cookie, JSON error text); the error is never an overflow |
| Demo.ParsedNumberJudgedByRange | src/main.rs:86-88 | a length-valid number that parses is judged by the range check alone; its message is shown with 400 |
| Demo.FeedbackSucceedsExactlyOn69 | src/main.rs:77-88 | the handler succeeds exactly when the length check passes and the parse gives 69 |
| Demo.FeedbackOnFormattedNumber | src/main.rs:77-88 | for every `i32` from -9999 to 99999, the handler given its decimal form answers as the range check says about the number |

## Left out

- `main`, `router`, `Server::bind` and the tokio runtime (src/main.rs:91-104) are network I/O and async plumbing. They are not modelled. The path extraction is modelled only as an `Option<string>` argument.
- The `http` crate is not in the source. Its rules are transcribed into `Http` from http 0.2, the version axum 0.6 uses: a status value is valid when it is between 100 and 999, and `Display` prints the number, a space and the canonical reason phrase, or "<unknown status code>" when there is none. The reason-phrase table is that crate's list of registered codes.
- axum's `IntoResponse` internals are left out. Converting a handler's response, or a `(status, body)` tuple, is the identity on `Response`. The `Content-Type` headers axum adds for text and JSON bodies are not modelled. A JSON body is the list of its string fields, not serialized bytes.
- `FnOnce` and move semantics are not modelled. A pure model cannot count calls. "`handle` is called once, with the converted code" and "`default` only on decline" are stated as dependence lemmas: `CatchUsesHandleOnlyAtConvertedCode` and `CatchIgnoresDefaultWhenHandled`.
- ApiErr.Catch: the precondition of the returned transformer is stated one way only: a convertible code makes it defined. The verifier cannot read a lambda's precondition in the other direction. That an invalid code panics is stated through `Cvcode`'s precondition instead.
- The integer literals passed as codes are taken as `u16`. Symbolic codes are `StatusCode` values. No other `TryInto<StatusCode>` source (byte strings, `&str`) is modelled.
- `str::parse::<i32>` is modelled on characters, not bytes. A non-ASCII character is rejected as an invalid digit, and so is its first byte in Rust, so the result is the same.
