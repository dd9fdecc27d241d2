/**
 * `Color(hex:)`: a colour code is trimmed of surrounding non-alphanumeric characters (a leading
 * `#`), read as a hexadecimal number, and split by its length into alpha, red, green and blue.
 * Only the integer components are modelled, not the division by 255.
 */
module HexColor {
  /** The integer components, alpha first, as the `switch` produces them. */
  datatype Argb = Argb(a: int, r: int, g: int, b: int)

  predicate InByteRange(c: Argb) {
    0 <= c.a < 256 && 0 <= c.r < 256 && 0 <= c.g < 256 && 0 <= c.b < 256
  }

  /** The fallback for a code of any length but 3, 6 or 8. */
  const Fallback := Argb(1, 1, 1, 0)

  // ---------------------------------------------------------------------------------------------
  // characters

  /** ASCII letters and digits, the part of `CharacterSet.alphanumerics` the model covers. */
  predicate IsAlphanumeric(c: char) {
    ('0' <= c <= '9') || ('a' <= c <= 'z') || ('A' <= c <= 'Z')
  }

  predicate IsHexDigit(c: char) {
    ('0' <= c <= '9') || ('a' <= c <= 'f') || ('A' <= c <= 'F')
  }

  function HexDigitValue(c: char): (v: nat)
    requires IsHexDigit(c)
    ensures v < 16
  {
    if '0' <= c <= '9' then c as int - '0' as int
    else if 'a' <= c <= 'f' then c as int - 'a' as int + 10
    else c as int - 'A' as int + 10
  }

  /** The upper-case digit of a value below 16. */
  function HexChar(d: nat): (c: char)
    requires d < 16
    ensures IsHexDigit(c) && IsAlphanumeric(c) && HexDigitValue(c) == d
  {
    "0123456789ABCDEF"[d]
  }

  predicate AllHex(s: string) {
    forall i :: 0 <= i < |s| ==> IsHexDigit(s[i])
  }

  function Pow16(k: nat): (p: nat)
    ensures p >= 1
  {
    if k == 0 then 1 else 16 * Pow16(k - 1)
  }

  /** The value of hexadecimal digits, most significant first. */
  function HexDigitsValue(s: string): (v: nat)
    requires AllHex(s)
    ensures v < Pow16(|s|)
  {
    if s == [] then 0 else 16 * HexDigitsValue(s[..|s| - 1]) + HexDigitValue(s[|s| - 1])
  }

  // ---------------------------------------------------------------------------------------------
  // trimming

  /** How many characters at the front are not alphanumeric. */
  function LeadingJunk(s: string): (k: nat)
    ensures k <= |s|
    ensures forall i :: 0 <= i < k ==> !IsAlphanumeric(s[i])
    ensures k < |s| ==> IsAlphanumeric(s[k])
  {
    if s == [] || IsAlphanumeric(s[0]) then 0 else 1 + LeadingJunk(s[1..])
  }

  /** How many characters at the back are not alphanumeric. */
  function TrailingJunk(s: string): (k: nat)
    ensures k <= |s|
    ensures forall i :: |s| - k <= i < |s| ==> !IsAlphanumeric(s[i])
    ensures k < |s| ==> IsAlphanumeric(s[|s| - k - 1])
  {
    if s == [] || IsAlphanumeric(s[|s| - 1]) then 0 else 1 + TrailingJunk(s[..|s| - 1])
  }

  /** `trimmingCharacters(in: CharacterSet.alphanumerics.inverted)`. */
  function Trim(s: string): (t: string)
    ensures |t| <= |s|
    ensures t != [] ==> IsAlphanumeric(t[0]) && IsAlphanumeric(t[|t| - 1])
    ensures t == [] <==> forall i :: 0 <= i < |s| ==> !IsAlphanumeric(s[i])
    ensures LeadingJunk(s) + |t| <= |s| && t == s[LeadingJunk(s)..LeadingJunk(s) + |t|]
    ensures forall i :: LeadingJunk(s) + |t| <= i < |s| ==> !IsAlphanumeric(s[i])
  {
    var k := LeadingJunk(s);
    var rest := s[k..];
    assert rest != [] ==> IsAlphanumeric(rest[0]);
    var t := rest[..|rest| - TrailingJunk(rest)];
    TrimmedInfix(s, k, rest, t);
    t
  }

  /** What is cut from the back of `s[k..]` is the back of `s`, so the kept part is an infix of `s`. */
  lemma TrimmedInfix(s: string, k: nat, rest: string, t: string)
    requires k <= |s| && rest == s[k..] && t == rest[..|rest| - TrailingJunk(rest)]
    ensures k + |t| <= |s| && t == s[k..k + |t|]
    ensures forall i :: k + |t| <= i < |s| ==> !IsAlphanumeric(s[i])
  {
    assert forall i :: k + |t| <= i < |s| ==> s[i] == rest[i - k];
  }

  /** A code already beginning and ending with a letter or digit is left as it is. */
  lemma TrimKeepsClean(s: string)
    requires s != [] && IsAlphanumeric(s[0]) && IsAlphanumeric(s[|s| - 1])
    ensures Trim(s) == s
  {
    assert s[0..] == s;
    assert s[..|s| - 0] == s;
  }

  /** Trimming twice is trimming once. */
  lemma TrimIdempotent(s: string)
    ensures Trim(Trim(s)) == Trim(s)
  {
    if Trim(s) != [] {
      TrimKeepsClean(Trim(s));
    }
  }

  /** A leading `#` is dropped. */
  lemma TrimDropsHash(s: string)
    ensures Trim("#" + s) == Trim(s)
  {
    assert ("#" + s)[1..] == s;
  }

  // ---------------------------------------------------------------------------------------------
  // scanning

  /** How many hexadecimal digits `s` starts with. */
  function HexRun(s: string): (k: nat)
    ensures k <= |s| && AllHex(s[..k])
    ensures k < |s| ==> !IsHexDigit(s[k])
  {
    if s == [] || !IsHexDigit(s[0]) then 0
    else
      var k := 1 + HexRun(s[1..]);
      assert forall i :: 1 <= i < k ==> s[..k][i] == s[1..][..k - 1][i - 1];
      k
  }

  /**
   * `Scanner.scanHexInt64`: an optional `0x` or `0X`, then the longest run of hexadecimal digits;
   * 0 when there is none.
   */
  function ScanHex(s: string): (n: nat)
    ensures n < Pow16(|s|)
  {
    var body := if |s| >= 2 && s[0] == '0' && (s[1] == 'x' || s[1] == 'X') then s[2..] else s;
    var k := HexRun(body);
    PowMonotone(k, |s|);
    HexDigitsValue(body[..k])
  }

  lemma {:induction false} PowMonotone(j: nat, k: nat)
    requires j <= k
    ensures Pow16(j) <= Pow16(k)
    decreases k
  {
    if j < k {
      PowMonotone(j, k - 1);
    }
  }

  /** A string of hexadecimal digits scans as its own value: no `x` can follow a leading `0`. */
  lemma ScanAllHex(s: string)
    requires AllHex(s)
    ensures ScanHex(s) == HexDigitsValue(s)
  {
    assert !IsHexDigit('x') && !IsHexDigit('X');
    assert |s| >= 2 ==> s[1] != 'x' && s[1] != 'X';
    assert s[..|s|] == s;
  }

  // ---------------------------------------------------------------------------------------------
  // decoding

  /** `Color(hex:)` up to the integer components. */
  function Decode(hex: string): (c: Argb)
    ensures |Trim(hex)| !in {3, 6, 8} ==> c == Fallback
    ensures |Trim(hex)| in {3, 6, 8} ==> InByteRange(c)
    ensures |Trim(hex)| in {3, 6} ==> c.a == 255
  {
    var h := Trim(hex);
    var n := ScanHex(h);
    if |h| == 3 then
      assert Pow16(3) == 4096;
      Argb(255, (n / 256) * 17, ((n / 16) % 16) * 17, (n % 16) * 17)
    else if |h| == 6 then
      assert Pow16(6) == 16777216;
      Argb(255, n / 65536, (n / 256) % 256, n % 256)
    else if |h| == 8 then
      assert Pow16(8) == 4294967296;
      Argb(n / 16777216, (n / 65536) % 256, (n / 256) % 256, n % 256)
    else Fallback
  }

  // ---------------------------------------------------------------------------------------------
  // writing codes, and reading them back

  /** Two upper-case digits for a byte. */
  function HexByte(n: nat): (s: string)
    requires n < 256
    ensures |s| == 2 && AllHex(s) && HexDigitsValue(s) == n
    ensures IsAlphanumeric(s[0]) && IsAlphanumeric(s[1])
  {
    var s := [HexChar(n / 16), HexChar(n % 16)];
    assert s[..1] == [HexChar(n / 16)] && [HexChar(n / 16)][..0] == [];
    s
  }

  /** `RRGGBB`. */
  function EncodeRgb(c: Argb): string
    requires InByteRange(c)
  {
    HexByte(c.r) + HexByte(c.g) + HexByte(c.b)
  }

  /** `AARRGGBB`. */
  function EncodeArgb(c: Argb): string
    requires InByteRange(c)
  {
    HexByte(c.a) + HexByte(c.r) + HexByte(c.g) + HexByte(c.b)
  }

  /** Appending digits shifts the value by one hexadecimal place per digit. */
  lemma {:induction false} HexValueAppend(s: string, t: string)
    requires AllHex(s) && AllHex(t)
    ensures AllHex(s + t)
    ensures HexDigitsValue(s + t) == HexDigitsValue(s) * Pow16(|t|) + HexDigitsValue(t)
    decreases |t|
  {
    if t == [] {
      assert s + t == s;
    } else {
      var u := t[..|t| - 1];
      assert (s + t)[..|s + t| - 1] == s + u;
      assert (s + t)[|s + t| - 1] == t[|t| - 1];
      HexValueAppend(s, u);
      ShiftOnePlace(HexDigitsValue(s), Pow16(|u|), HexDigitsValue(u), HexDigitValue(t[|t| - 1]));
    }
  }

  lemma ShiftOnePlace(a: nat, p: nat, v: nat, d: nat)
    ensures 16 * (a * p + v) + d == a * (16 * p) + (16 * v + d)
  {
  }

  /** The value of two concatenated bytes. */
  lemma BytesValue(s: string, n: nat)
    requires AllHex(s) && n < 256
    ensures AllHex(s + HexByte(n))
    ensures HexDigitsValue(s + HexByte(n)) == HexDigitsValue(s) * 256 + n
  {
    HexValueAppend(s, HexByte(n));
    assert Pow16(2) == 256;
  }

  lemma ArgbValue(c: Argb)
    requires InByteRange(c)
    ensures AllHex(EncodeArgb(c)) && |EncodeArgb(c)| == 8
    ensures HexDigitsValue(EncodeArgb(c)) == ((c.a * 256 + c.r) * 256 + c.g) * 256 + c.b
  {
    BytesValue(HexByte(c.a), c.r);
    BytesValue(HexByte(c.a) + HexByte(c.r), c.g);
    BytesValue(HexByte(c.a) + HexByte(c.r) + HexByte(c.g), c.b);
  }

  lemma RgbValue(c: Argb)
    requires InByteRange(c)
    ensures AllHex(EncodeRgb(c)) && |EncodeRgb(c)| == 6
    ensures HexDigitsValue(EncodeRgb(c)) == (c.r * 256 + c.g) * 256 + c.b
  {
    BytesValue(HexByte(c.r), c.g);
    BytesValue(HexByte(c.r) + HexByte(c.g), c.b);
  }

  /** A clean code of hexadecimal digits is read whole. */
  lemma CleanHexScans(s: string)
    requires s != [] && AllHex(s)
    ensures Trim(s) == s && ScanHex(Trim(s)) == HexDigitsValue(s)
  {
    TrimKeepsClean(s);
    ScanAllHex(s);
  }

  /** The six-digit case of `Decode`, for a clean code with value `n`. */
  lemma DecodeSix(h: string, n: nat)
    requires |h| == 6 && Trim(h) == h && ScanHex(h) == n
    ensures Decode(h) == Argb(255, n / 65536, (n / 256) % 256, n % 256)
  {
  }

  /** The eight-digit case of `Decode`, for a clean code with value `n`. */
  lemma DecodeEight(h: string, n: nat)
    requires |h| == 8 && Trim(h) == h && ScanHex(h) == n
    ensures Decode(h) == Argb(n / 16777216, (n / 65536) % 256, (n / 256) % 256, n % 256)
  {
  }

  lemma SplitArgb(a: nat, r: nat, g: nat, b: nat, n: nat)
    requires a < 256 && r < 256 && g < 256 && b < 256
    requires n == ((a * 256 + r) * 256 + g) * 256 + b
    ensures n / 16777216 == a && (n / 65536) % 256 == r && (n / 256) % 256 == g && n % 256 == b
  {
    var rg := a * 256 + r;
    var rgb := rg * 256 + g;
    SplitByte(n, rgb, b);
    SplitByte(rgb, rg, g);
    SplitTwoBytes(n, rg, g * 256 + b);
    SplitByte(rg, a, r);
    SplitThreeBytes(n, a, (r * 256 + g) * 256 + b);
  }

  lemma SplitByte(n: nat, high: nat, low: nat)
    requires low < 256 && n == high * 256 + low
    ensures n / 256 == high && n % 256 == low
  {
  }

  lemma SplitTwoBytes(n: nat, high: nat, low: nat)
    requires low < 65536 && n == high * 65536 + low
    ensures n / 65536 == high
  {
  }

  lemma SplitThreeBytes(n: nat, high: nat, low: nat)
    requires low < 16777216 && n == high * 16777216 + low
    ensures n / 16777216 == high
  {
  }

  lemma SplitRgb(r: nat, g: nat, b: nat, n: nat)
    requires r < 256 && g < 256 && b < 256
    requires n == (r * 256 + g) * 256 + b
    ensures n / 65536 == r && (n / 256) % 256 == g && n % 256 == b
  {
  }

  lemma SplitNibbles(x: nat, y: nat, z: nat, n: nat)
    requires x < 16 && y < 16 && z < 16
    requires n == 256 * x + 16 * y + z
    ensures n / 256 == x && (n / 16) % 16 == y && n % 16 == z
  {
  }

  /** The three-digit case of `Decode`, for a clean code with value `n`. */
  lemma DecodeThree(h: string, n: nat)
    requires |h| == 3 && Trim(h) == h && ScanHex(h) == n
    ensures Decode(h) == Argb(255, (n / 256) * 17, ((n / 16) % 16) * 17, (n % 16) * 17)
  {
  }

  /** An `AARRGGBB` code decodes to the colour it was written from. */
  lemma DecodeArgbRoundTrip(c: Argb)
    requires InByteRange(c)
    ensures Decode(EncodeArgb(c)) == c
    ensures Decode("#" + EncodeArgb(c)) == c
  {
    var s := EncodeArgb(c);
    ArgbValue(c);
    CleanHexScans(s);
    var n := HexDigitsValue(s);
    DecodeEight(s, n);
    SplitArgb(c.a, c.r, c.g, c.b, n);
    assert Decode(s) == Argb(c.a, c.r, c.g, c.b);
    TrimDropsHash(s);
  }

  /** An `RRGGBB` code decodes to its colour, fully opaque. */
  lemma DecodeRgbRoundTrip(c: Argb)
    requires InByteRange(c)
    ensures Decode(EncodeRgb(c)) == c.(a := 255)
    ensures Decode("#" + EncodeRgb(c)) == c.(a := 255)
  {
    var s := EncodeRgb(c);
    RgbValue(c);
    CleanHexScans(s);
    var n := HexDigitsValue(s);
    DecodeSix(s, n);
    SplitRgb(c.r, c.g, c.b, n);
    assert Decode(s) == Argb(255, c.r, c.g, c.b);
    TrimDropsHash(s);
  }

  /** `primaryRed`, `"E53935"`. */
  lemma PrimaryRed()
    ensures Decode("E53935") == Argb(255, 0xE5, 0x39, 0x35)
  {
    var c := Argb(255, 0xE5, 0x39, 0x35);
    assert HexByte(0xE5) == "E5" && HexByte(0x39) == "39" && HexByte(0x35) == "35";
    assert EncodeRgb(c) == "E53935";
    DecodeRgbRoundTrip(c);
  }

  /** A three-digit code is each digit doubled: `"ABC"` reads as `"AABBCC"`. */
  lemma ThreeDigitsDoubled(h: string)
    requires |h| == 3 && AllHex(h)
    ensures Decode(h) == Argb(255, 17 * HexDigitValue(h[0]), 17 * HexDigitValue(h[1]), 17 * HexDigitValue(h[2]))
  {
    var x, y, z := HexDigitValue(h[0]), HexDigitValue(h[1]), HexDigitValue(h[2]);
    CleanHexScans(h);
    assert HexDigitsValue(h[..1]) == x by {
      assert h[..1][..0] == [];
    }
    assert h[..2][..1] == h[..1];
    assert HexDigitsValue(h[..2]) == 16 * x + y;
    assert h[..|h| - 1] == h[..2];
    var n := HexDigitsValue(h);
    assert n == 256 * x + 16 * y + z;
    DecodeThree(h, n);
    SplitNibbles(x, y, z, n);
  }
}
