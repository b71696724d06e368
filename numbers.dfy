/**
 * Rust's `str::parse` for the integer types the program reads: an
 * optional sign (`+` always, `-` only for signed types), then one or more
 * ASCII digits, and a value inside the type's range.
 */
module Numbers {
  import opened Wrappers
  import opened Text

  const U64Max: int := 0xFFFF_FFFF_FFFF_FFFF
  const I64Max: int := 0x7FFF_FFFF_FFFF_FFFF
  const I64Min: int := -0x8000_0000_0000_0000

  predicate AllDigits(s: string) {
    forall k :: 0 <= k < |s| ==> IsAsciiDigit(s[k])
  }

  /** The digits after an optional leading `+`, or None when they are empty or not all digits. */
  function UnsignedDigits(s: string): (r: Option<string>)
    ensures r.Some? ==> |r.value| > 0 && AllDigits(r.value)
  {
    var body := if |s| > 0 && s[0] == '+' then s[1..] else s;
    if |body| > 0 && AllDigits(body) then Some(body) else None
  }

  /** `u64`/`usize` parsing. */
  function ParseUnsigned(s: string): (r: Option<nat>)
    ensures r.Some? ==> r.value <= U64Max
  {
    match UnsignedDigits(s)
    case None => None
    case Some(d) => if DigitsValue(d) <= U64Max then Some(DigitsValue(d)) else None
  }

  /** `i64` parsing: a leading `-` negates the value. */
  function ParseSigned(s: string): (r: Option<int>)
    ensures r.Some? ==> I64Min <= r.value <= I64Max
  {
    if |s| > 0 && s[0] == '-' then
      var d := s[1..];
      if |d| > 0 && AllDigits(d) then
        var v: int := 0 - DigitsValue(d) as int;
        if v >= I64Min then Some(v) else None
      else None
    else
      match UnsignedDigits(s)
      case None => None
      case Some(d) => if DigitsValue(d) <= I64Max then Some(DigitsValue(d)) else None
  }

  /** Decimal text of an integer, with a leading `-` when negative. */
  function IntToString(n: int): (r: string)
    ensures |r| > 0
  {
    if n < 0 then "-" + NatToString(-n) else NatToString(n)
  }

  /** Printing an in-range number and parsing it back gives the number. */
  lemma ParseUnsignedRoundTrip(n: nat)
    requires n <= U64Max
    ensures ParseUnsigned(NatToString(n)) == Some(n)
  {
    var t := NatToString(n);
    assert IsAsciiDigit(t[0]);
    assert UnsignedDigits(t) == Some(t);
    DigitsOfNat(n);
  }

  lemma ParseSignedRoundTrip(n: int)
    requires I64Min <= n <= I64Max
    ensures ParseSigned(IntToString(n)) == Some(n)
  {
    var s := IntToString(n);
    if n < 0 {
      var t := NatToString(-n);
      assert s == "-" + t;
      assert s[0] == '-' && s[1..] == t;
      assert AllDigits(t);
      DigitsOfNat(-n);
    } else {
      var t := NatToString(n);
      assert s == t && IsAsciiDigit(t[0]);
      assert UnsignedDigits(s) == Some(t);
      DigitsOfNat(n);
    }
  }

  /** Text without any digit never parses. */
  lemma NoDigitsNoNumber(s: string)
    requires forall k :: 0 <= k < |s| ==> !IsAsciiDigit(s[k])
    ensures ParseUnsigned(s) == None && ParseSigned(s) == None
  {
    if |s| > 1 {
      assert IsAsciiDigit(s[1..][0]) == IsAsciiDigit(s[1]);
    }
  }

  /** Rust's integer `/` for a positive divisor: the quotient rounds toward zero. */
  function TruncDiv(a: int, b: int): (q: int)
    requires b > 0
    ensures a >= 0 ==> 0 <= q * b <= a < q * b + b
    ensures a < 0 ==> q * b - b < a <= q * b <= 0
  {
    if a >= 0 then DivBounds(a, b); a / b
    else DivBounds(-a, b); -((-a) / b)
  }

  lemma DivBounds(a: nat, b: nat)
    requires b > 0
    ensures 0 <= (a / b) * b <= a < (a / b) * b + b
  {
    var q := a / b;
    var r := a % b;
    assert a == q * b + r;
    assert q >= 0;
  }
}
