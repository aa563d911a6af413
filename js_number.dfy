/** The JavaScript number conversions the application relies on: `parseInt`
    with no radix, decimal rendering of whole numbers and `toFixed(2)`.
    Numbers are mathematical; floating-point rounding is not modelled. */
module JsNumber {
  import opened Results
  import opened JsText

  /** A JavaScript number as a parser may produce it. */
  datatype JsNum = NaN | PosInfinity | NegInfinity | Finite(value: real)

  /** The value of `c` as a digit in any radix up to 36, or 36 when `c` is no digit. */
  function DigitValue(c: char): (v: nat)
    ensures v <= 36
  {
    if '0' <= c <= '9' then c as int - '0' as int
    else if 'a' <= c <= 'z' then c as int - 'a' as int + 10
    else if 'A' <= c <= 'Z' then c as int - 'A' as int + 10
    else 36
  }

  predicate IsDecimalDigit(c: char) {
    '0' <= c <= '9'
  }

  predicate AllDecimal(s: string) {
    forall i :: 0 <= i < |s| ==> IsDecimalDigit(s[i])
  }

  /** Length of the longest prefix of `s` made of digits of the radix. */
  function DigitRun(s: string, radix: nat): (n: nat)
    ensures n <= |s|
    ensures forall i :: 0 <= i < n ==> DigitValue(s[i]) < radix
    ensures n < |s| ==> DigitValue(s[n]) >= radix
  {
    if s != [] && DigitValue(s[0]) < radix then 1 + DigitRun(s[1..], radix) else 0
  }

  /** The number a digit string denotes, read most significant digit first. */
  function DigitsValue(ds: string, radix: nat): nat {
    if ds == [] then 0 else DigitsValue(ds[..|ds| - 1], radix) * radix + DigitValue(ds[|ds| - 1])
  }

  /** `parseInt(s)` with no radix: leading white space is skipped, then an
      optional sign, then a `0x`/`0X` prefix switches to radix 16; the number is
      read from the longest run of digits that follows and the rest is ignored.
      No digit at all gives NaN, here None. */
  function ParseInt(s: string): Option<int> {
    ParseSigned(TrimStart(s))
  }

  function ParseSigned(t: string): Option<int> {
    if t != [] && t[0] == '-' then Negated(ParseMagnitude(t[1..]))
    else if t != [] && t[0] == '+' then ParseMagnitude(t[1..])
    else ParseMagnitude(t)
  }

  predicate HasHexPrefix(u: string) {
    |u| >= 2 && u[0] == '0' && (u[1] == 'x' || u[1] == 'X')
  }

  function ParseMagnitude(u: string): Option<int> {
    var radix := if HasHexPrefix(u) then 16 else 10;
    var body := if HasHexPrefix(u) then u[2..] else u;
    var n := DigitRun(body, radix);
    if n == 0 then None else Some(DigitsValue(body[..n], radix))
  }

  /** Leading white space does not change what `parseInt` reads. */
  lemma ParseIntSkipsSpace(ws: string, t: string)
    requires AllSpace(ws)
    ensures ParseInt(ws + t) == ParseInt(t)
  {
    TrimStartSkipsSpace(ws, t);
  }

  /** After the white space, a '+' is dropped and a '-' negates what the rest
      reads as; NaN stays NaN. */
  lemma ParseIntSign(u: string)
    requires u == [] || (!IsSpace(u[0]) && u[0] != '+' && u[0] != '-')
    ensures ParseInt("+" + u) == ParseInt(u)
    ensures ParseInt("-" + u) == Negated(ParseInt(u))
  {
    ParseIntPlus(u);
    ParseIntMinus(u);
  }

  /** The sign flip of a parsed value; NaN stays NaN. */
  function Negated(v: Option<int>): (r: Option<int>)
    ensures r.None? <==> v.None?
    ensures v.Some? ==> r.value == -v.value
  {
    if v.None? then None else Some(-v.value)
  }

  lemma ParseIntUnsigned(u: string)
    requires u == [] || (!IsSpace(u[0]) && u[0] != '+' && u[0] != '-')
    ensures ParseInt(u) == ParseMagnitude(u)
  {
    ParseIntUnpadded(u);
  }

  lemma ParseIntPlus(u: string)
    requires u == [] || (!IsSpace(u[0]) && u[0] != '+' && u[0] != '-')
    ensures ParseInt("+" + u) == ParseInt(u)
  {
    ParseSignedPlus(u);
    ParseIntUnsigned(u);
  }

  lemma ParseIntMinus(u: string)
    requires u == [] || (!IsSpace(u[0]) && u[0] != '+' && u[0] != '-')
    ensures ParseInt("-" + u) == Negated(ParseInt(u))
  {
    ParseSignedMinus(u);
    ParseIntUnsigned(u);
  }

  lemma ParseSignedPlus(u: string)
    ensures ParseInt("+" + u) == ParseMagnitude(u)
  {
    var plus := "+" + u;
    assert plus[0] == '+' && plus[1..] == u;
    ParseIntUnpadded(plus);
  }

  lemma ParseSignedMinus(u: string)
    ensures ParseInt("-" + u) == Negated(ParseMagnitude(u))
  {
    var minus := "-" + u;
    assert minus[0] == '-' && minus[1..] == u;
    ParseIntUnpadded(minus);
  }

  /** A zero-padded single digit reads as that digit. */
  lemma PaddedDigitValue(d: char)
    requires IsDecimalDigit(d)
    ensures AllDecimal(['0', d]) && DigitsValue(['0', d], 10) == DigitValue(d)
  {
    var s := ['0', d];
    assert s[..1] == ['0'] && ['0'][..0] == [];
  }

  /** The date piece " 03" reads as 3: a day or month written after the dash
      with a space, as in "2024- 03-01", passes the date step. */
  lemma ParseIntSpacedPiece()
    ensures ParseInt(" 03") == Some(3)
  {
    assert " 03" == " " + ['0', '3'] && AllSpace(" ");
    ParseIntSkipsSpace(" ", ['0', '3']);
    PaddedDigitValue('3');
    ParseIntDigits(['0', '3']);
  }

  /** The date piece "+01" reads as 1, as in "2024-03-+01". */
  lemma ParseIntSignedPiece()
    ensures ParseInt("+01") == Some(1)
  {
    assert "+01" == "+" + ['0', '1'];
    ParseIntSign(['0', '1']);
    PaddedDigitValue('1');
    ParseIntDigits(['0', '1']);
  }

  /** Text that does not start with white space goes straight to the sign step. */
  lemma ParseIntUnpadded(t: string)
    requires t == [] || !IsSpace(t[0])
    ensures ParseInt(t) == ParseSigned(t)
  {
    assert TrimStart(t) == t;
  }

  /** `parseInt` gives NaN exactly when, past the white space, the optional
      sign and the optional `0x` prefix, no digit of the radix follows. */
  lemma ParseIntNaN(s: string)
    ensures var t := TrimStart(s);
            var u := if t != [] && (t[0] == '-' || t[0] == '+') then t[1..] else t;
            var body := if HasHexPrefix(u) then u[2..] else u;
            var radix := if HasHexPrefix(u) then 16 else 10;
            ParseInt(s).None? <==> body == [] || DigitValue(body[0]) >= radix
  {
  }

  /** A string that starts with a decimal digit other than a hexadecimal prefix is read in radix 10. */
  lemma ParseIntDecimalStart(s: string)
    requires s != [] && IsDecimalDigit(s[0]) && !HasHexPrefix(s)
    ensures ParseInt(s) == Some(DigitsValue(s[..DigitRun(s, 10)], 10))
  {
    assert !IsSpace(s[0]);
    assert TrimStart(s) == s;
    assert ParseSigned(s) == ParseMagnitude(s);
    assert DigitRun(s, 10) > 0;
  }

  function DigitChar(d: nat): (c: char)
    requires d < 10
    ensures IsDecimalDigit(c) && DigitValue(c) == d
  {
    ('0' as int + d) as char
  }

  /** The decimal rendering of a whole number, as `String(n)` gives it. */
  function DecimalString(n: nat): (s: string)
    ensures |s| >= 1 && AllDecimal(s)
    ensures DigitsValue(s, 10) == n
    ensures s[0] == '0' <==> n == 0
    ensures |s| == 1 || s[0] != '0'
  {
    if n < 10 then
      assert [DigitChar(n)][..0] == [];
      [DigitChar(n)]
    else
      var s := DecimalString(n / 10) + [DigitChar(n % 10)];
      assert s[..|s| - 1] == DecimalString(n / 10);
      assert s[0] == DecimalString(n / 10)[0];
      s
  }

  function Pow10(k: nat): nat {
    if k == 0 then 1 else 10 * Pow10(k - 1)
  }

  /** A number below 10^k takes at most k digits. */
  lemma {:induction false} DecimalStringLength(n: nat, k: nat)
    requires 1 <= k && n < Pow10(k)
    ensures |DecimalString(n)| <= k
  {
    if n >= 10 {
      assert Pow10(1) == 10;
      assert Pow10(k) == 10 * Pow10(k - 1);
      DecimalStringLength(n / 10, k - 1);
    }
  }

  function Zeros(k: nat): (s: string)
    ensures |s| == k && AllDecimal(s) && DigitsValue(s, 10) == 0
    ensures forall i :: 0 <= i < k ==> s[i] == '0'
  {
    if k == 0 then []
    else
      var s := Zeros(k - 1) + "0";
      assert s[..|s| - 1] == Zeros(k - 1);
      s
  }

  lemma {:induction false} LeadingZeros(k: nat, s: string)
    ensures DigitsValue(Zeros(k) + s, 10) == DigitsValue(s, 10)
  {
    if s == [] {
      assert Zeros(k) + s == Zeros(k);
    } else {
      var init := s[..|s| - 1];
      LeadingZeros(k, init);
      assert (Zeros(k) + s)[..|Zeros(k) + s| - 1] == Zeros(k) + init;
    }
  }

  /** `String(n).padStart(width, '0')`. */
  function Padded(n: nat, width: nat): (s: string)
    ensures |s| == if |DecimalString(n)| < width then width else |DecimalString(n)|
    ensures |s| >= 1 && |s| >= width && AllDecimal(s)
    ensures DigitsValue(s, 10) == n
    ensures s[|s| - |DecimalString(n)|..] == DecimalString(n)
    ensures forall i :: 0 <= i < |s| - |DecimalString(n)| ==> s[i] == '0'
  {
    var digits := DecimalString(n);
    var k := if |digits| < width then width - |digits| else 0;
    LeadingZeros(k, digits);
    Zeros(k) + digits
  }

  /** Reading back a zero-padded decimal rendering gives the number rendered. */
  lemma ParseIntPadded(n: nat, width: nat)
    ensures ParseInt(Padded(n, width)) == Some(n)
  {
    ParseIntDigits(Padded(n, width));
  }

  /** A run of decimal digits reads back as the number it denotes. */
  lemma ParseIntDigits(ds: string)
    requires ds != [] && AllDecimal(ds)
    ensures ParseInt(ds) == Some(DigitsValue(ds, 10))
  {
    assert ds + [] == ds;
    assert !HasHexPrefix(ds) by { if |ds| >= 2 { assert IsDecimalDigit(ds[1]); } }
    ParseIntIgnoresTail(ds, []);
  }

  /** `parseInt` stops at the first character that is not a digit: "2024abc" reads as 2024. */
  lemma ParseIntIgnoresTail(ds: string, tail: string)
    requires ds != [] && AllDecimal(ds)
    requires tail == [] || DigitValue(tail[0]) >= 10
    requires !HasHexPrefix(ds + tail)
    ensures ParseInt(ds + tail) == Some(DigitsValue(ds, 10))
  {
    var s := ds + tail;
    assert s[0] == ds[0] && IsDecimalDigit(s[0]);
    DigitRunOfDigits(ds, tail);
    ParseIntDecimalStart(s);
    assert s[..|ds|] == ds;
  }

  lemma DigitRunOfDigits(ds: string, tail: string)
    requires AllDecimal(ds)
    requires tail == [] || DigitValue(tail[0]) >= 10
    ensures DigitRun(ds + tail, 10) == |ds|
  {
    DigitRunOfRadix(ds, tail, 10);
  }

  /** Digits of the radix followed by a non-digit: the run is exactly the digits. */
  lemma {:induction false} DigitRunOfRadix(ds: string, tail: string, radix: nat)
    requires forall i :: 0 <= i < |ds| ==> DigitValue(ds[i]) < radix
    requires tail == [] || DigitValue(tail[0]) >= radix
    ensures DigitRun(ds + tail, radix) == |ds|
  {
    if ds == [] {
      assert ds + tail == tail;
    } else {
      assert (ds + tail)[0] == ds[0];
      assert (ds + tail)[1..] == ds[1..] + tail;
      DigitRunOfRadix(ds[1..], tail, radix);
    }
  }

  /** After a `0x` prefix the longest run of hexadecimal digits is read in
      radix 16, and the rest is ignored. */
  lemma ParseIntHex(ds: string, tail: string)
    requires ds != [] && forall i :: 0 <= i < |ds| ==> DigitValue(ds[i]) < 16
    requires tail == [] || DigitValue(tail[0]) >= 16
    ensures ParseInt("0x" + ds + tail) == Some(DigitsValue(ds, 16))
  {
    var s := "0x" + ds + tail;
    HexPrefixed(ds, tail);
    ParseIntUnsigned(s);
    HexMagnitude(s, ds, tail);
  }

  lemma HexPrefixed(ds: string, tail: string)
    ensures var s := "0x" + ds + tail;
            |s| >= 2 && s[0] == '0' && s[1] == 'x' && s[2..] == ds + tail
  {
  }

  lemma HexMagnitude(u: string, ds: string, tail: string)
    requires |u| >= 2 && u[0] == '0' && u[1] == 'x' && u[2..] == ds + tail
    requires ds != [] && forall i :: 0 <= i < |ds| ==> DigitValue(ds[i]) < 16
    requires tail == [] || DigitValue(tail[0]) >= 16
    ensures ParseMagnitude(u) == Some(DigitsValue(ds, 16))
  {
    assert HasHexPrefix(u);
    DigitRunOfRadix(ds, tail, 16);
    assert (ds + tail)[..|ds|] == ds;
  }

  /** The date piece "0x3" reads as 3, so "2024-0x3-01" passes the date step as 1 March. */
  lemma ParseIntHexPiece()
    ensures ParseInt("0x3") == Some(3)
  {
    assert "0x3" == "0x" + "3" + [];
    ParseIntHex("3", []);
    assert "3"[..0] == [];
  }

  /** `x.toFixed(2)`: the nearest multiple of 1/100, ties rounded up, with two decimals. */
  function ToFixed2(x: real): string {
    if x < 0.0 then "-" + FixedNonNegative(-x) else FixedNonNegative(x)
  }

  /** The number of hundredths nearest to `x`, ties rounded up. */
  function RoundedCents(x: real): (n: int)
    ensures x * 100.0 - 0.5 < n as real <= x * 100.0 + 0.5
  {
    (x * 100.0 + 0.5).Floor
  }

  function FixedNonNegative(x: real): string
    requires x >= 0.0
  {
    var n: nat := RoundedCents(x);
    DecimalString(n / 100) + "." + Padded(n % 100, 2)
  }

  /** An amount that is a whole number of hundredths is printed exactly: its
      whole part, a point and the two-digit remainder. */
  lemma ToFixed2Cents(n: nat)
    ensures ToFixed2(n as real / 100.0) == DecimalString(n / 100) + "." + Padded(n % 100, 2)
  {
    assert (n as real / 100.0) * 100.0 == n as real;
    assert RoundedCents(n as real / 100.0) == n;
  }
}
