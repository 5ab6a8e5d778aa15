/**
 * Decimal text for integers: the `Display` form Rust's `format!` gives an
 * integer, and `str::parse::<i32>` with its error kinds and their messages.
 */
module Numerals {
  import opened Wrappers

  /** Rust's `i32`. */
  type int32 = x: int | -0x8000_0000 <= x < 0x8000_0000

  const MaxInt32: nat := 0x7FFF_FFFF
  /** Magnitude of `i32::MIN`, the largest magnitude a negative `i32` can have. */
  const MinInt32Magnitude: nat := 0x8000_0000

  predicate IsDigit(c: char) {
    '0' <= c <= '9'
  }

  predicate AllDigits(s: string) {
    forall i :: 0 <= i < |s| ==> IsDigit(s[i])
  }

  function DigitValue(c: char): (d: nat)
    requires IsDigit(c)
    ensures d < 10
  {
    c as int - '0' as int
  }

  function DigitChar(d: nat): (c: char)
    requires d < 10
    ensures IsDigit(c) && DigitValue(c) == d
  {
    (d + '0' as int) as char
  }

  function Pow10(k: nat): nat {
    if k == 0 then 1 else 10 * Pow10(k - 1)
  }

  /** Reference reading of a digit string, most significant digit first, with no bound. */
  function DecimalValue(s: string): nat
    requires AllDigits(s)
  {
    if s == [] then 0 else 10 * DecimalValue(s[..|s| - 1]) + DigitValue(s[|s| - 1])
  }

  lemma {:induction false} DecimalValueBound(s: string)
    requires AllDigits(s)
    ensures DecimalValue(s) < Pow10(|s|)
  {
    if s != [] {
      DecimalValueBound(s[..|s| - 1]);
    }
  }

  // ---------------------------------------------------------------- formatting

  /** `Display` of a non-negative integer: decimal digits, no leading zero. */
  function FormatNat(m: nat): (s: string)
    ensures 1 <= |s| && AllDigits(s)
    ensures s[0] == '0' ==> m == 0
    decreases m
  {
    if m < 10 then [DigitChar(m)] else FormatNat(m / 10) + [DigitChar(m % 10)]
  }

  /** Reading back what FormatNat wrote gives the number again. */
  lemma {:induction false} FormatNatValue(m: nat)
    ensures DecimalValue(FormatNat(m)) == m
    decreases m
  {
    if m >= 10 {
      var s := FormatNat(m);
      assert s[..|s| - 1] == FormatNat(m / 10);
      FormatNatValue(m / 10);
    }
  }

  /** FormatNat uses exactly k digits for the numbers with k digits. */
  lemma {:induction false} FormatNatLength(m: nat, k: nat)
    requires k >= 1 && m < Pow10(k)
    ensures |FormatNat(m)| <= k
    ensures k >= 2 && m >= Pow10(k - 1) ==> |FormatNat(m)| == k
    decreases k
  {
    if m >= 10 {
      FormatNatLength(m / 10, k - 1);
    } else if k >= 2 {
      Pow10Monotone(1, k - 1);
    }
  }

  lemma {:induction false} Pow10Monotone(i: nat, j: nat)
    requires i <= j
    ensures Pow10(i) <= Pow10(j)
    decreases j
  {
    if i < j {
      Pow10Monotone(i, j - 1);
    }
  }

  // ------------------------------------------------------------------- parsing

  /** `std::num::IntErrorKind` as far as `i32` can report it. */
  datatype IntErrorKind = Empty | InvalidDigit | PosOverflow | NegOverflow

  /** The `Display` text of a `ParseIntError`. */
  function Describe(k: IntErrorKind): string {
    match k
    case Empty => "cannot parse integer from empty string"
    case InvalidDigit => "invalid digit found in string"
    case PosOverflow => "number too large to fit in target type"
    case NegOverflow => "number too small to fit in target type"
  }

  datatype DigitFault = NotADigit | OutOfRange

  /**
   * The digit loop of `from_str_radix`: digits are consumed left to right and
   * the first position that is not a digit, or that takes the magnitude past
   * `limit`, decides the error; at one position a bad digit is reported first.
   */
  function ReadDigits(ds: string, limit: nat): (r: Result<nat, DigitFault>)
    ensures r.Ok? ==> r.value <= limit
  {
    if ds == [] then Ok(0)
    else
      var v :- ReadDigits(ds[..|ds| - 1], limit);
      var c := ds[|ds| - 1];
      if !IsDigit(c) then Err(NotADigit)
      else if 10 * v + DigitValue(c) > limit then Err(OutOfRange)
      else Ok(10 * v + DigitValue(c))
  }

  /** ReadDigits accepts exactly the digit strings whose value is within the limit, and returns that value. */
  lemma {:induction false} ReadDigitsMeaning(ds: string, limit: nat)
    ensures ReadDigits(ds, limit).Ok? <==> AllDigits(ds) && DecimalValue(ds) <= limit
    ensures ReadDigits(ds, limit).Ok? ==> ReadDigits(ds, limit).value == DecimalValue(ds)
    ensures AllDigits(ds) && DecimalValue(ds) > limit ==> ReadDigits(ds, limit) == Err(OutOfRange)
    ensures ReadDigits(ds, limit) == Err(OutOfRange) ==> limit < Pow10(|ds|)
  {
    if ds != [] {
      var p := ds[..|ds| - 1];
      ReadDigitsMeaning(p, limit);
      if AllDigits(p) {
        DecimalValueBound(p);
      }
      if AllDigits(ds) {
        assert AllDigits(p) by {
          forall i | 0 <= i < |p| ensures IsDigit(p[i]) { assert p[i] == ds[i]; }
        }
      } else if AllDigits(p) {
        assert !IsDigit(ds[|ds| - 1]) by {
          if IsDigit(ds[|ds| - 1]) {
            forall i | 0 <= i < |ds| ensures IsDigit(ds[i]) {
              if i < |p| { assert ds[i] == p[i]; }
            }
          }
        }
      }
    }
  }

  /** The text after an optional leading sign. */
  function Unsigned(s: string): string
    requires s != []
  {
    if s[0] == '+' || s[0] == '-' then s[1..] else s
  }

  /** `str::parse::<i32>`. */
  function ParseInt32(s: string): (r: Result<int32, IntErrorKind>)
    ensures r == Err(Empty) <==> s == []
  {
    if s == [] then Err(Empty)
    else if (s[0] == '+' || s[0] == '-') && |s| == 1 then Err(InvalidDigit)
    else if s[0] == '-' then
      match ReadDigits(s[1..], MinInt32Magnitude)
      case Ok(v) => var n: int := v; Ok(-n)
      case Err(f) => Err(if f == NotADigit then InvalidDigit else NegOverflow)
    else
      match ReadDigits(Unsigned(s), MaxInt32)
      case Ok(v) => Ok(v)
      case Err(f) => Err(if f == NotADigit then InvalidDigit else PosOverflow)
  }

  /**
   * ParseInt32 succeeds exactly on an optional sign followed by at least one
   * digit whose value fits `i32`, and returns that value with the sign applied.
   */
  lemma ParseInt32Meaning(s: string)
    requires s != []
    ensures ParseInt32(s).Ok? <==>
      Unsigned(s) != [] && AllDigits(Unsigned(s)) &&
      DecimalValue(Unsigned(s)) <= (if s[0] == '-' then MinInt32Magnitude else MaxInt32)
    ensures ParseInt32(s).Ok? ==>
      ParseInt32(s).value == (if s[0] == '-' then 0 - DecimalValue(Unsigned(s)) else DecimalValue(Unsigned(s)))
  {
    ReadDigitsMeaning(Unsigned(s), if s[0] == '-' then MinInt32Magnitude else MaxInt32);
  }

  /**
   * `Display` of an `i32`: a `-` before the magnitude when negative. Parsing
   * what it writes gives back every `i32`.
   */
  function FormatInt(n: int32): (s: string)
    ensures ParseInt32(s) == Ok(n)
  {
    var m: nat := if n < 0 then 0 - n else n;
    var s := if n < 0 then "-" + FormatNat(m) else FormatNat(m);
    FormatNatValue(m);
    ParseInt32Meaning(s);
    assert n >= 0 ==> s[0] != '+' && s[0] != '-' by { assert IsDigit(FormatNat(m)[0]); }
    assert n < 0 ==> Unsigned(s) == FormatNat(m);
    s
  }

  /** Each error kind has its own text, so the text tells which check failed. */
  lemma DescribeDistinguishesKinds(k1: IntErrorKind, k2: IntErrorKind)
    requires k1 != k2
    ensures Describe(k1) != Describe(k2)
  {
  }

  /** An input of at most five characters is too short to overflow `i32`. */
  lemma ShortInputNeverOverflows(s: string)
    requires |s| <= 5
    ensures ParseInt32(s) != Err(PosOverflow) && ParseInt32(s) != Err(NegOverflow)
  {
    if s != [] && !((s[0] == '+' || s[0] == '-') && |s| == 1) {
      var u := Unsigned(s);
      var limit := if s[0] == '-' then MinInt32Magnitude else MaxInt32;
      ReadDigitsMeaning(u, limit);
      Pow10Monotone(|u|, 5);
      assert Pow10(5) == 100000;
    }
  }
}
