/**
 * Integer and decimal text as the app reads and writes it: Swift's truncating `/` and `%`,
 * `round`, `"\(n)"`, `Int(String)`, `Double(String)` on plain decimals, and the `%.1f` and
 * `%02d` formats.
 */
module Numbers {
  import opened Collections

  // ---------------------------------------------------------------------------------------------
  // Swift integer arithmetic

  /** Swift's `a / b` on `Int` for a positive divisor: the quotient truncated toward zero. */
  function SwiftDiv(a: int, b: int): (q: int)
    requires b > 0
    ensures a >= 0 ==> q >= 0
    ensures a <= 0 ==> q <= 0
  {
    if a < 0 then -((-a) / b) else a / b
  }

  /** Swift's `a % b` on `Int` for a positive divisor: the remainder takes the sign of `a`. */
  function SwiftRem(a: int, b: int): (r: int)
    requires b > 0
    ensures a == b * SwiftDiv(a, b) + r
    ensures a >= 0 ==> 0 <= r < b
    ensures a < 0 ==> -b < r <= 0
  {
    a - b * SwiftDiv(a, b)
  }

  /** Swift's `round` on a `Double`: to the nearest integer, halves away from zero. */
  function RoundHalfAway(x: real): (n: int)
    ensures x - 0.5 <= n as real <= x + 0.5
    ensures x >= 0.0 ==> n >= 0
    ensures n as real == x + 0.5 ==> x > 0.0
    ensures n as real == x - 0.5 ==> x < 0.0
  {
    if x >= 0.0 then (x + 0.5).Floor else -((-x + 0.5).Floor)
  }

  /** The rounding `%.1f` applies to an exact decimal: to the nearest, ties to the even one. */
  function RoundHalfEven(x: real): (n: int)
    ensures x - 0.5 <= n as real <= x + 0.5
    ensures (n as real == x + 0.5 || n as real == x - 0.5) ==> n % 2 == 0
  {
    var f := x.Floor;
    var d := x - f as real;
    if d < 0.5 then f
    else if d > 0.5 then f + 1
    else if f % 2 == 0 then f
    else f + 1
  }

  lemma RoundingAnInteger(k: int)
    ensures RoundHalfAway(k as real) == k
    ensures RoundHalfEven(k as real) == k
  {
  }

  // ---------------------------------------------------------------------------------------------
  // digits

  predicate IsDigit(c: char) {
    '0' <= c <= '9'
  }

  function DigitValue(c: char): nat
    requires IsDigit(c)
  {
    c as int - '0' as int
  }

  function DigitChar(d: nat): (c: char)
    requires d < 10
    ensures IsDigit(c) && DigitValue(c) == d
  {
    ('0' as int + d) as char
  }

  predicate AllDigits(s: string) {
    forall i :: 0 <= i < |s| ==> IsDigit(s[i])
  }

  /** The value of a string of decimal digits, most significant first; `""` reads as 0. */
  function DigitsValue(s: string): nat
    requires AllDigits(s)
  {
    if s == [] then 0 else 10 * DigitsValue(s[..|s| - 1]) + DigitValue(s[|s| - 1])
  }

  /** The value of the digits after a decimal point, `0.s`, read from the right. */
  function FractionValue(s: string): (r: real)
    requires AllDigits(s)
    ensures 0.0 <= r < 1.0
  {
    if s == [] then 0.0 else (DigitValue(s[0]) as real + FractionValue(s[1..])) / 10.0
  }

  /** `"\(n)"` for `n >= 0`: decimal digits without leading zeros. */
  function NatToString(n: nat): (s: string)
    ensures s != [] && AllDigits(s)
    ensures DigitsValue(s) == n
    ensures |s| > 1 ==> s[0] != '0'
    ensures |s| == 1 <==> n < 10
  {
    if n < 10 then [DigitChar(n)]
    else
      var prefix := NatToString(n / 10);
      var s := prefix + [DigitChar(n % 10)];
      assert s[..|s| - 1] == prefix;
      s
  }

  /** `"\(n)"` for any `Int`. */
  function IntToString(n: int): (s: string)
    ensures s != []
    ensures n >= 0 ==> AllDigits(s) && DigitsValue(s) == n
    ensures n < 0 ==> s[0] == '-' && AllDigits(s[1..]) && DigitsValue(s[1..]) == -n
  {
    if n < 0 then
      var s := "-" + NatToString(-n);
      assert s[1..] == NatToString(-n);
      s
    else NatToString(n)
  }

  /** `String(format: "%02d", n)`: at least two characters, zero-padded after any sign. */
  function Pad2(n: int): (s: string)
    ensures |s| >= 2
    ensures 0 <= n < 100 ==> |s| == 2 && AllDigits(s) && DigitsValue(s) == n
  {
    if 0 <= n < 10 then
      var s := ['0', DigitChar(n)];
      assert s[..1] == ['0'] && ['0'][..0] == [];
      s
    else if n < 0 then
      var s := IntToString(n);
      assert |s[1..]| >= 1;
      s
    else
      var s := NatToString(n);
      assert n < 100 ==> |NatToString(n / 10)| == 1;
      s
  }

  // ---------------------------------------------------------------------------------------------
  // Int(String)

  const Int64Min: int := -0x8000_0000_0000_0000
  const Int64Max: int := 0x7FFF_FFFF_FFFF_FFFF

  predicate InInt64(n: int) {
    Int64Min <= n <= Int64Max
  }

  /**
   * Swift's `Int(text)`: an optional `+` or `-` followed by one or more ASCII digits, whose value
   * fits in 64 bits; anything else is `nil`.
   */
  function ParseInt(s: string): (r: Option<int>)
    ensures r.Some? ==> InInt64(r.value)
    ensures r.Some? ==> s != [] && (IsDigit(s[0]) || s[0] == '-' || s[0] == '+')
  {
    var signed := |s| > 0 && (s[0] == '-' || s[0] == '+');
    var body := if signed then s[1..] else s;
    if body != [] && AllDigits(body) then
      var v: int := if signed && s[0] == '-' then -(DigitsValue(body) as int) else DigitsValue(body);
      if InInt64(v) then Some(v) else None
    else None
  }

  /** What `"\(n)"` writes, `Int(_)` reads back. */
  lemma ParseIntRoundTrip(n: int)
    requires InInt64(n)
    ensures ParseInt(IntToString(n)) == Some(n)
  {
    var s := IntToString(n);
    if n >= 0 {
      assert !IsDigit('-') && !IsDigit('+');
      assert s[0] != '-' && s[0] != '+';
    }
  }

  // ---------------------------------------------------------------------------------------------
  // Double(String) on plain decimals, and %.1f

  /** The position of the first `c` in `s`, or `|s|` when there is none. */
  function IndexOf(s: string, c: char): (k: nat)
    ensures k <= |s|
    ensures k < |s| ==> s[k] == c
    ensures forall i :: 0 <= i < k ==> s[i] != c
  {
    if s == [] then 0
    else if s[0] == c then 0
    else 1 + IndexOf(s[1..], c)
  }

  /**
   * Swift's `Double(text)` restricted to plain decimal notation: an optional sign, digits, and an
   * optional `.` followed by digits, with at least one digit in all. The value is exact.
   */
  function ParseDecimal(s: string): (r: Option<real>)
    ensures r.Some? ==> s != []
  {
    if |s| > 0 && (s[0] == '-' || s[0] == '+') then
      match ParseUnsignedDecimal(s[1..])
      case None => None
      case Some(v) => Some(if s[0] == '-' then -v else v)
    else ParseUnsignedDecimal(s)
  }

  /** Digits with at most one `.` among them, and at least one digit. */
  function ParseUnsignedDecimal(body: string): (r: Option<real>)
    ensures r.Some? ==> r.value >= 0.0
  {
    var k := IndexOf(body, '.');
    var whole := body[..k];
    var fraction := if k < |body| then body[k + 1..] else [];
    if AllDigits(whole) && AllDigits(fraction) && |whole| + |fraction| > 0 then
      Some(DigitsValue(whole) as real + FractionValue(fraction))
    else None
  }

  /** A string of digits reads as the number it spells. */
  lemma ParseDecimalOfDigits(s: string)
    requires s != [] && AllDigits(s)
    ensures ParseDecimal(s) == Some(DigitsValue(s) as real)
  {
    UnsignedOfDigits(s, DigitsValue(s));
    ParseUnsigned(s);
  }

  lemma UnsignedOfDigits(s: string, n: nat)
    requires s != [] && AllDigits(s) && n == DigitsValue(s)
    ensures ParseUnsignedDecimal(s) == Some(n as real)
  {
    NoPointAmongDigits(s);
    assert s[..|s|] == s;
    var empty: string := [];
    assert DigitsValue(empty) == 0 && FractionValue(empty) == 0.0;
  }

  lemma NoPointAmongDigits(s: string)
    requires AllDigits(s)
    ensures IndexOf(s, '.') == |s|
  {
    assert !IsDigit('.');
    assert forall i :: 0 <= i < |s| ==> s[i] != '.';
  }

  /** `x` rounded to tenths the way `%.1f` rounds it. */
  function Tenths(x: real): int {
    RoundHalfEven(x * 10.0)
  }

  /** `String(format: "%.1f", x)`: the sign of `x`, whole part, a point, one decimal. */
  function FormatTenths(x: real): (s: string)
    ensures s != []
  {
    TenthsText(x < 0.0, Tenths(x))
  }

  /** The text of `t` tenths, with a leading `-` when `negative`. */
  function TenthsText(negative: bool, t: int): string {
    var a := if t < 0 then -t else t;
    (if negative then "-" else "") + NatToString(a / 10) + "." + [DigitChar(a % 10)]
  }

  /** What `%.1f` writes, `Double(_)` reads back as the value rounded to tenths. */
  lemma FormatTenthsRoundTrip(x: real)
    ensures ParseDecimal(FormatTenths(x)) == Some(Tenths(x) as real / 10.0)
  {
    var t := Tenths(x);
    assert x >= 0.0 ==> t >= 0;
    assert x < 0.0 ==> t <= 0;
    TenthsTextRoundTrip(x < 0.0, t);
  }

  lemma TenthsTextRoundTrip(negative: bool, t: int)
    requires negative ==> t <= 0
    requires !negative ==> t >= 0
    ensures ParseDecimal(TenthsText(negative, t)) == Some(t as real / 10.0)
  {
    if negative {
      var a: nat := -t;
      assert -(a as int) == t;
      NegativeTenthsRoundTrip(a);
      assert -(a as real / 10.0) == t as real / 10.0;
    } else {
      NonNegativeTenthsRoundTrip(t);
    }
  }

  lemma NonNegativeTenthsRoundTrip(a: nat)
    ensures ParseDecimal(TenthsText(false, a)) == Some(a as real / 10.0)
  {
    NonNegativeTenthsParts(a);
    ParseTenthsOf(a, NatToString(a / 10), a % 10, a as real / 10.0);
  }

  lemma NegativeTenthsRoundTrip(a: nat)
    ensures ParseDecimal(TenthsText(true, -(a as int))) == Some(-(a as real / 10.0))
  {
    NegativeTenthsParts(a);
    ParseNegativeTenthsOf(a, NatToString(a / 10), a % 10, a as real / 10.0);
  }

  /** The digits of `a / 10`, a `.` and the digit `a % 10` read back as `a` tenths, `v`. */
  lemma ParseTenthsOf(a: nat, whole: string, d: nat, v: real)
    requires whole == NatToString(a / 10) && d == a % 10 && v == a as real / 10.0
    ensures ParseDecimal(whole + "." + [DigitChar(d)]) == Some(v)
  {
    TenthsSplit(a);
    ParseTenthsText(whole, d, v);
  }

  /** The same text after a `-` reads back as `-v`. */
  lemma ParseNegativeTenthsOf(a: nat, whole: string, d: nat, v: real)
    requires whole == NatToString(a / 10) && d == a % 10 && v == a as real / 10.0
    ensures ParseDecimal("-" + (whole + "." + [DigitChar(d)])) == Some(-v)
  {
    TenthsSplit(a);
    ParseTenthsText(whole, d, v);
  }

  lemma NonNegativeTenthsParts(a: nat)
    ensures TenthsText(false, a) == NatToString(a / 10) + "." + [DigitChar(a % 10)]
  {
    var whole, digit := NatToString(a / 10), [DigitChar(a % 10)];
    assert "" + whole == whole;
  }

  lemma NegativeTenthsParts(a: nat)
    ensures TenthsText(true, -(a as int)) == "-" + (NatToString(a / 10) + "." + [DigitChar(a % 10)])
  {
    var whole, digit := NatToString(a / 10), [DigitChar(a % 10)];
    assert TenthsText(true, -(a as int)) == "-" + whole + "." + digit by {
      assert -(-(a as int)) == a;
    }
    SignFirst(whole, digit);
  }

  lemma SignFirst(whole: string, digit: string)
    ensures "-" + whole + "." + digit == "-" + (whole + "." + digit)
  {
  }

  lemma TenthsSplit(a: nat)
    ensures (a / 10) as real + (a % 10) as real / 10.0 == a as real / 10.0
  {
    var q, d := a / 10, a % 10;
    assert a == 10 * q + d;
    assert a as real == 10.0 * q as real + d as real;
  }

  /** Reading back `whole.d` and `-whole.d`, whose value is `v`. */
  lemma ParseTenthsText(whole: string, d: nat, v: real)
    requires whole != [] && AllDigits(whole) && d < 10
    requires v == DigitsValue(whole) as real + d as real / 10.0
    ensures ParseDecimal(whole + "." + [DigitChar(d)]) == Some(v)
    ensures ParseDecimal("-" + (whole + "." + [DigitChar(d)])) == Some(-v)
  {
    var body := whole + "." + [DigitChar(d)];
    ParseUnsignedTenths(whole, d, v);
    assert body[0] == whole[0];
    ParsePositiveBody(body, v);
    ParseNegativeBody(body, v);
  }

  lemma ParsePositiveBody(body: string, v: real)
    requires body != [] && IsDigit(body[0])
    requires ParseUnsignedDecimal(body) == Some(v)
    ensures ParseDecimal(body) == Some(v)
  {
    ParseUnsigned(body);
  }

  lemma ParseNegativeBody(body: string, v: real)
    requires ParseUnsignedDecimal(body) == Some(v)
    ensures ParseDecimal("-" + body) == Some(-v)
  {
    var s := "-" + body;
    assert s[1..] == body;
    ParseNegated(s);
  }

  lemma ParseUnsigned(s: string)
    requires s != [] && IsDigit(s[0])
    ensures ParseDecimal(s) == ParseUnsignedDecimal(s)
  {
  }

  lemma ParseNegated(s: string)
    requires s != [] && s[0] == '-' && ParseUnsignedDecimal(s[1..]).Some?
    ensures ParseDecimal(s) == Some(-ParseUnsignedDecimal(s[1..]).value)
  {
  }

  lemma ParseUnsignedTenths(whole: string, d: nat, v: real)
    requires whole != [] && AllDigits(whole) && d < 10
    requires v == DigitsValue(whole) as real + d as real / 10.0
    ensures ParseUnsignedDecimal(whole + "." + [DigitChar(d)]) == Some(v)
  {
    var tail := [DigitChar(d)];
    assert FractionValue(tail) == d as real / 10.0 by {
      assert tail[1..] == [];
    }
    ParseUnsignedParts(whole, tail);
  }

  /** The body of a decimal, after any sign, splits at its first point. */
  lemma ParseUnsignedParts(whole: string, fraction: string)
    requires whole != [] && AllDigits(whole) && AllDigits(fraction)
    ensures var body := whole + "." + fraction;
      var k := IndexOf(body, '.');
      k == |whole| && body[..k] == whole && body[k + 1..] == fraction
  {
    IndexAfterDigits(whole, fraction);
    var body := whole + "." + fraction;
    assert body[..|whole|] == whole;
    assert body[|whole| + 1..] == fraction;
  }

  lemma {:induction false} IndexAfterDigits(digits: string, rest: string)
    requires AllDigits(digits)
    ensures IndexOf(digits + "." + rest, '.') == |digits|
    decreases |digits|
  {
    assert !IsDigit('.');
    if digits != [] {
      assert (digits + "." + rest)[1..] == digits[1..] + "." + rest;
      IndexAfterDigits(digits[1..], rest);
    }
  }

  /** A value that is already a whole number of tenths survives `%.1f` unchanged. */
  lemma TenthsOfTenths(k: int)
    ensures Tenths(k as real / 10.0) == k
  {
    assert (k as real / 10.0) * 10.0 == k as real;
    RoundingAnInteger(k);
  }
}
