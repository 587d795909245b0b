/**
 * Python's fixed-point formatting `format(x, "+08.<d>f")` over exact decimal values,
 * the `float()` reading of such a token, and `int()` truncation.
 */
module Decimal {
  import opened Wrappers
  import Text

  /** The minimum field width of every numeric field of the wire format. */
  const FieldWidth: nat := 8

  function Pow10(k: nat): (p: nat)
    ensures p >= 1
  {
    if k == 0 then 1 else 10 * Pow10(k - 1)
  }

  predicate IsDigit(c: char) {
    '0' <= c <= '9'
  }

  predicate AllDigits(s: string) {
    forall i :: 0 <= i < |s| ==> IsDigit(s[i])
  }

  function DigitChar(d: nat): (c: char)
    requires d < 10
    ensures IsDigit(c)
  {
    ('0' as int + d) as char
  }

  /** The digits of `n` without leading zeros (none at all for 0). */
  function NatDigits(n: nat): (s: string)
    ensures AllDigits(s)
  {
    if n == 0 then [] else NatDigits(n / 10) + [DigitChar(n % 10)]
  }

  /** `s` preceded by enough '0' characters to be at least `w` long. */
  function PadLeft(s: string, w: nat): (r: string)
    ensures |r| == if |s| < w then w else |s|
    ensures AllDigits(s) ==> AllDigits(r)
  {
    if |s| < w then seq(w - |s|, _ => '0') + s else s
  }

  /** The number that a string of decimal digits denotes. */
  function DigitsValue(s: string): nat
    requires AllDigits(s)
  {
    if s == [] then 0 else DigitsValue(s[..|s| - 1]) * 10 + (s[|s| - 1] as int - '0' as int)
  }

  /** Digits before the point: at least one, and enough to fill the field to `FieldWidth`. */
  function IntWidth(d: nat): nat {
    var fraction := if d > 0 then d + 1 else 0;
    if fraction + 2 <= FieldWidth then FieldWidth - 1 - fraction else 1
  }

  /** All digits of mag, zero-padded to leave `IntWidth(d)` digits before the last d. */
  function AllDigitsOf(mag: nat, d: nat): (s: string)
    ensures AllDigits(s) && |s| >= IntWidth(d) + d
  {
    PadLeft(NatDigits(mag), IntWidth(d) + d)
  }

  /** The integral digits of mag * 10^-d. */
  function IntDigits(mag: nat, d: nat): (s: string)
    ensures AllDigits(s) && |s| >= IntWidth(d) >= 1
  {
    var s := AllDigitsOf(mag, d);
    s[..|s| - d]
  }

  /** The d fractional digits of mag * 10^-d. */
  function FracDigits(mag: nat, d: nat): (s: string)
    ensures AllDigits(s) && |s| == d
  {
    var s := AllDigitsOf(mag, d);
    s[|s| - d..]
  }

  function SignChar(negative: bool): char {
    if negative then '-' else '+'
  }

  /**
   * The text of the fixed-point number mag * 10^-d: an explicit sign, the integral digits
   * zero-padded so that the whole field is at least `FieldWidth` wide, and for d > 0 a point
   * followed by exactly d fractional digits.
   */
  function FormatFixed(negative: bool, mag: nat, d: nat): (r: string)
    ensures |r| == 1 + |IntDigits(mag, d)| + (if d > 0 then d + 1 else 0) >= FieldWidth
    ensures r[0] == SignChar(negative)
    ensures d > 0 ==> r[|r| - d - 1] == '.'
    ensures forall i :: 0 < i < |r| && (d == 0 || i != |r| - d - 1) ==> IsDigit(r[i])
  {
    var ip, fp := IntDigits(mag, d), FracDigits(mag, d);
    var r := [SignChar(negative)] + ip + (if d > 0 then "." + fp else "");
    assert forall i :: 0 < i <= |ip| ==> r[i] == ip[i - 1];
    assert forall i :: |ip| + 1 < i < |r| ==> r[i] == fp[i - |ip| - 2];
    r
  }

  /** A value whose integral part fits the padded digits gives a field of exactly `FieldWidth`. */
  lemma FormatFixedWidth(negative: bool, mag: nat, d: nat)
    requires d < FieldWidth - 2 && mag < Pow10(IntWidth(d) + d)
    ensures |FormatFixed(negative, mag, d)| == FieldWidth
  {
    NatDigitsLength(mag, IntWidth(d) + d);
  }

  /** Rounds to the nearest integer, ties to the even neighbour, as Python's formatting does. */
  function RoundHalfEven(y: real): (r: int)
    ensures (r as real) - 0.5 <= y <= (r as real) + 0.5
    ensures y - (y.Floor as real) == 0.5 ==> r % 2 == 0
    ensures y >= 0.0 ==> r >= 0
  {
    var f := y.Floor;
    var frac := y - f as real;
    if frac < 0.5 then f
    else if frac > 0.5 then f + 1
    else if f % 2 == 0 then f else f + 1
  }

  function Abs(x: real): (r: real)
    ensures r >= 0.0 && (r == x || r == -x)
  {
    if x < 0.0 then -x else x
  }

  function Signed(negative: bool, v: real): real {
    if negative then -v else v
  }

  /**
   * `format(x, "+08.<d>f")`: the sign is that of x, even when the magnitude rounds to zero,
   * and the magnitude is |x| rounded to d decimal places.
   */
  function Format(x: real, d: nat): string {
    FormatFixed(x < 0.0, Magnitude(x, d), d)
  }

  /** |x| in units of the d-th decimal place, rounded to nearest, ties to even. */
  function Magnitude(x: real, d: nat): nat
    decreases d
  {
    if d == 0 then RoundHalfEven(Abs(x)) else Magnitude(10.0 * x, d - 1)
  }

  /** Index of the first `c` in `s`, or |s| when there is none. */
  function IndexOf(s: string, c: char): (k: nat)
    ensures k <= |s|
    ensures k < |s| ==> s[k] == c
    ensures forall i :: 0 <= i < k ==> s[i] != c
  {
    if s == [] then 0 else if s[0] == c then 0 else 1 + IndexOf(s[1..], c)
  }

  /** The value of the decimal numeral with integral digits `ip` and fractional digits `fp`. */
  function NumeralValue(ip: string, fp: string): real
    requires AllDigits(ip) && AllDigits(fp)
  {
    DigitsValue(ip) as real + DigitsValue(fp) as real / Pow10(|fp|) as real
  }

  /** An unsigned numeral: integral digits and an optional point with fractional digits. */
  function ParseUnsigned(body: string): Option<real> {
    var k := IndexOf(body, '.');
    var ip := body[..k];
    var fp := if k < |body| then body[k + 1..] else [];
    if AllDigits(ip) && AllDigits(fp) && |ip| + |fp| > 0 then Some(NumeralValue(ip, fp)) else None
  }

  /** `float(token)` for plain decimal tokens: an optional sign, then an unsigned numeral. */
  function ParseFloat(tok: string): Option<real> {
    if |tok| > 0 && (tok[0] == '+' || tok[0] == '-') then
      match ParseUnsigned(tok[1..])
      case Some(v) => Some(Signed(tok[0] == '-', v))
      case None => None
    else ParseUnsigned(tok)
  }

  /**
   * Either side of the point may be empty, but not both, as in `float()`: "1." is 1,
   * ".5" and "+.5" are one half, "-.5" is minus one half, and a lone point is not a number.
   */
  lemma PointForms()
    ensures ParseFloat("1.") == Some(1.0)
    ensures ParseFloat(".5") == Some(0.5) && ParseFloat("+.5") == Some(0.5)
    ensures ParseFloat("-.5") == Some(-0.5)
    ensures ParseFloat(".") == None && ParseFloat("-.") == None && ParseFloat("") == None
  {
    assert IndexOf("1.", '.') == 1;
    assert IndexOf(".5", '.') == 0;
    assert "1."[..1] == "1" && "1."[2..] == [];
    assert ".5"[..0] == [] && ".5"[1..] == "5";
    assert "+.5"[1..] == ".5" && "-.5"[1..] == ".5" && "-."[1..] == ".";
  }

  /** `int(x)` of a float: truncation toward zero. */
  function Truncate(x: real): (r: int)
    ensures Abs(r as real) <= Abs(x) < Abs(r as real) + 1.0
    ensures r != 0 ==> (r > 0 <==> x > 0.0)
  {
    if x >= 0.0 then x.Floor else -((-x).Floor)
  }

  // ---------------------------------------------------------------------------------------
  // Arithmetic helpers

  lemma {:induction false} NatDigitsLength(n: nat, k: nat)
    requires n < Pow10(k)
    ensures |NatDigits(n)| <= k
  {
    if n > 0 {
      assert k > 0;
      NatDigitsLength(n / 10, k - 1);
    }
  }

  lemma {:induction false} DigitsValueOfNatDigits(n: nat)
    ensures DigitsValue(NatDigits(n)) == n
  {
    if n > 0 {
      var s := NatDigits(n);
      assert s[..|s| - 1] == NatDigits(n / 10);
      DigitsValueOfNatDigits(n / 10);
    }
  }

  lemma {:induction false} DigitsValueZeros(k: nat, s: string)
    requires AllDigits(s)
    ensures AllDigits(seq(k, _ => '0') + s)
    ensures DigitsValue(seq(k, _ => '0') + s) == DigitsValue(s)
    decreases |s|
  {
    var z := seq(k, _ => '0');
    if s == [] {
      assert z + s == z;
      ZerosValue(k);
    } else {
      assert (z + s)[..|z + s| - 1] == z + s[..|s| - 1];
      DigitsValueZeros(k, s[..|s| - 1]);
    }
  }

  lemma {:induction false} ZerosValue(k: nat)
    ensures DigitsValue(seq(k, _ => '0')) == 0
  {
    if k > 0 {
      assert seq(k, _ => '0')[..k - 1] == seq(k - 1, _ => '0');
      ZerosValue(k - 1);
    }
  }

  lemma PadLeftValue(n: nat, w: nat)
    ensures DigitsValue(PadLeft(NatDigits(n), w)) == n
  {
    var s := NatDigits(n);
    DigitsValueOfNatDigits(n);
    if |s| < w { DigitsValueZeros(w - |s|, s); }
  }

  // ---------------------------------------------------------------------------------------
  // Properties of the formatter

  /** Reading back a formatted field recovers its value exactly. */
  lemma ParseFormatFixed(negative: bool, mag: nat, d: nat)
    ensures ParseFloat(FormatFixed(negative, mag, d))
            == Some(Signed(negative, mag as real / Pow10(d) as real))
  {
    var p := Pow10(d);
    var ip, fp := IntDigits(mag, d), FracDigits(mag, d);
    var tok := FormatFixed(negative, mag, d);
    assert tok == [SignChar(negative)] + ip + (if d > 0 then "." + fp else "");
    ParseSignedDigits(SignChar(negative), ip, fp, d > 0);
    NumeralOfFixed(mag, d);
  }

  lemma NumeralOfFixed(mag: nat, d: nat)
    ensures NumeralValue(IntDigits(mag, d), FracDigits(mag, d)) == mag as real / Pow10(d) as real
  {
    var s := AllDigitsOf(mag, d);
    var ip, fp := IntDigits(mag, d), FracDigits(mag, d);
    assert s == ip + fp;
    PadLeftValue(mag, IntWidth(d) + d);
    DigitsValueAppend(ip, fp);
    FixedValue(mag, Pow10(d), DigitsValue(ip), DigitsValue(fp));
  }

  lemma {:induction false} DigitsValueAppend(a: string, b: string)
    requires AllDigits(a) && AllDigits(b)
    ensures AllDigits(a + b)
    ensures DigitsValue(a + b) == DigitsValue(a) * Pow10(|b|) + DigitsValue(b)
    decreases |b|
  {
    if b == [] {
      assert a + b == a;
    } else {
      var b' := b[..|b| - 1];
      assert (a + b)[..|a + b| - 1] == a + b';
      DigitsValueAppend(a, b');
      var c := b[|b| - 1] as int - '0' as int;
      var A, B, P := DigitsValue(a), DigitsValue(b'), Pow10(|b'|);
      assert DigitsValue(a + b) == (A * P + B) * 10 + c;
      assert DigitsValue(b) == B * 10 + c;
      assert Pow10(|b|) == P * 10;
      Distribute(A, B, P, c);
    }
  }

  lemma Distribute(A: int, B: int, P: int, c: int)
    ensures (A * P + B) * 10 + c == A * (P * 10) + (B * 10 + c)
  {
  }

  /** `float()` of an explicitly signed token with integral digits `ip` and fraction `fp`. */
  lemma ParseSignedDigits(sign: char, ip: string, fp: string, point: bool)
    requires sign == '+' || sign == '-'
    requires AllDigits(ip) && AllDigits(fp) && |ip| > 0
    requires !point ==> fp == []
    ensures ParseFloat([sign] + ip + (if point then "." + fp else ""))
            == Some(Signed(sign == '-', NumeralValue(ip, fp)))
  {
    var body := ip + (if point then "." + fp else "");
    var tok := [sign] + body;
    assert tok[1..] == body;
    assert IndexOf(body, '.') == |ip| by {
      assert forall i :: 0 <= i < |ip| ==> body[i] == ip[i] && IsDigit(ip[i]);
      if point { assert body[|ip|] == '.'; }
    }
    assert body[..|ip|] == ip;
    if point {
      assert body[|ip| + 1..] == fp;
    } else {
      assert body == ip;
    }
    assert ParseUnsigned(body) == Some(NumeralValue(ip, fp));
    assert tok[0] == sign;
    assert tok == [sign] + ip + (if point then "." + fp else "");
  }

  lemma FixedValue(mag: nat, p: nat, q: nat, m: nat)
    requires p >= 1 && mag == q * p + m
    ensures q as real + m as real / p as real == mag as real / p as real
  {
    assert mag as real == q as real * p as real + m as real;
  }

  /** A formatted field is a word for both the client's and the server's splitting. */
  lemma FormatFixedIsWord(negative: bool, mag: nat, d: nat, ws: Text.Whitespace)
    ensures Text.IsWord(FormatFixed(negative, mag, d), ws)
  {
    var r := FormatFixed(negative, mag, d);
    forall i | 0 <= i < |r| ensures !Text.IsSpace(r[i], ws) {
    }
  }

  /** Half a unit of the d-th decimal place: how far a formatted field may be from its value. */
  function Tolerance(d: nat): (t: real)
    ensures t > 0.0
  {
    0.5 / Pow10(d) as real
  }

  predicate Near(v: real, x: real, d: nat) {
    Abs(v - x) <= Tolerance(d)
  }

  lemma TolerancePlaces()
    ensures Tolerance(1) == 0.05 && Tolerance(2) == 0.005
    ensures Tolerance(4) == 0.00005 && Tolerance(5) == 0.000005
  {
    assert Pow10(1) == 10 && Pow10(2) == 100;
    assert Pow10(4) == 10000 && Pow10(5) == 100000;
  }

  /** `format(x, "+08.<d>f")` reads back as a number within half a unit of its last place of x. */
  lemma FormatAccuracy(x: real, d: nat)
    ensures ParseFloat(Format(x, d)).Some?
    ensures Near(ParseFloat(Format(x, d)).value, x, d)
  {
    ParseFormat(x, d);
    MagnitudeWithin(x, d);
  }

  lemma MagnitudeWithin(x: real, d: nat)
    ensures Abs(Signed(x < 0.0, Magnitude(x, d) as real / Pow10(d) as real) - x) <= 0.5 / Pow10(d) as real
  {
    var n, p := Magnitude(x, d) as real, Pow10(d) as real;
    MagnitudeRounds(x, d);
    SignedWithin(x, n / p, 0.5 / p);
  }

  /** The magnitude is |x| to d places, off by at most half a unit of the last place. */
  lemma {:induction false} MagnitudeRounds(x: real, d: nat)
    ensures Abs(Magnitude(x, d) as real / Pow10(d) as real - Abs(x)) <= 0.5 / Pow10(d) as real
    decreases d
  {
    if d > 0 {
      MagnitudeRounds(10.0 * x, d - 1);
      assert Abs(10.0 * x) == 10.0 * Abs(x);
      ShiftPoint(Magnitude(x, d) as real, Pow10(d - 1) as real, Abs(x));
    }
  }

  /** One more decimal place: a bound on n/p against 10a becomes a bound on n/(10p) against a. */
  lemma ShiftPoint(n: real, p: real, a: real)
    requires p >= 1.0 && Abs(n / p - 10.0 * a) <= 0.5 / p
    ensures Abs(n / (10.0 * p) - a) <= 0.5 / (10.0 * p)
  {
    assert n / (10.0 * p) - a == (n / p - 10.0 * a) / 10.0;
    assert 0.5 / (10.0 * p) == (0.5 / p) / 10.0;
  }

  lemma SignedWithin(x: real, q: real, h: real)
    requires Abs(q - Abs(x)) <= h
    ensures Abs(Signed(x < 0.0, q) - x) <= h
  {
  }

  lemma ParseFormat(x: real, d: nat)
    ensures ParseFloat(Format(x, d)) == Some(Signed(x < 0.0, Magnitude(x, d) as real / Pow10(d) as real))
  {
    ParseFormatFixed(x < 0.0, Magnitude(x, d), d);
  }
}
