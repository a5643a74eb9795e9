/** Printing of floats in the hexadecimal text format of WebAssembly: what the text denotes, under
    section 6.3.2 of the WebAssembly Core Specification 1.0, is exactly the float's value. */
module FloatText {
  import opened Wrappers

  datatype Format = F32 | F64 {
    function Bits(): nat { if F32? then 23 else 52 }

    function Hexits(): nat { if F32? then 6 else 13 }

    function Bias(): nat { if F32? then 127 else 1023 }

    function MaxExponent(): nat { if F32? then 0xff else 0x7ff }
  }

  /** The components of a float's representation. */
  datatype Float = Float(negative: bool, exponent: nat, significand: nat)

  function Pow2(n: nat): (r: nat)
    ensures r > 0
  {
    if n == 0 then 1 else 2 * Pow2(n - 1)
  }

  predicate Valid(fmt: Format, f: Float) {
    f.exponent <= fmt.MaxExponent() && f.significand < Pow2(fmt.Bits())
  }

  // ----- values -----

  /** The number (-1)^negative * mantissa * 2^exponent. */
  datatype Dyadic = Dyadic(negative: bool, mantissa: nat, exponent: int)

  predicate SameNumber(a: Dyadic, b: Dyadic) {
    && a.negative == b.negative
    && if a.exponent >= b.exponent then a.mantissa * Pow2(a.exponent - b.exponent) == b.mantissa
       else a.mantissa == b.mantissa * Pow2(b.exponent - a.exponent)
  }

  /** The value of a finite float: with an implicit leading bit unless the exponent bits are zero. */
  function Value(fmt: Format, f: Float): Dyadic {
    if f.exponent == 0 then Dyadic(f.negative, f.significand, 1 - fmt.Bias() - fmt.Bits())
    else Dyadic(f.negative, Pow2(fmt.Bits()) + f.significand, f.exponent - fmt.Bias() - fmt.Bits())
  }

  // ----- digits -----

  const HEX_CHARS: string := "0123456789abcdef"

  function DigitChar(d: nat): char
    requires d < 16
  {
    HEX_CHARS[d]
  }

  function DigitValue(c: char): Option<nat> {
    if '0' <= c <= '9' then Some(c as int - '0' as int)
    else if 'a' <= c <= 'f' then Some(c as int - 'a' as int + 10)
    else if 'A' <= c <= 'F' then Some(c as int - 'A' as int + 10)
    else None
  }

  lemma DigitInverts(d: nat)
    requires d < 16
    ensures DigitValue(DigitChar(d)) == Some(d)
    ensures d < 10 ==> '0' <= DigitChar(d) <= '9'
  {
    assert DigitChar(d) == HEX_CHARS[d];
  }

  /** The last `n` digits of a number in the given base, most significant first. */
  function Digits(base: nat, x: nat, n: nat): (r: string)
    requires 2 <= base <= 16
    ensures |r| == n
  {
    if n == 0 then [] else Digits(base, x / base, n - 1) + [DigitChar(x % base)]
  }

  function Power(base: nat, n: nat): (r: nat)
    requires base > 0
    ensures r > 0
  {
    if n == 0 then 1 else base * Power(base, n - 1)
  }

  /** The number a string of digits stands for. */
  function Number(base: nat, s: string): Option<nat> {
    if s == [] then Some(0)
    else
      var front :- Number(base, s[..|s| - 1]);
      var d :- DigitValue(s[|s| - 1]);
      if d < base then Some(front * base + d) else None
  }

  lemma NumberSnoc(base: nat, front: string, d: nat, n: nat)
    requires d < base <= 16 && Number(base, front) == Some(n)
    ensures Number(base, front + [DigitChar(d)]) == Some(n * base + d)
  {
    var s := front + [DigitChar(d)];
    DigitInverts(d);
    assert s[..|s| - 1] == front && s[|s| - 1] == DigitChar(d);
  }

  lemma {:induction false} DigitsNumber(base: nat, x: nat, n: nat)
    requires 2 <= base <= 16 && x < Power(base, n)
    ensures Number(base, Digits(base, x, n)) == Some(x)
    decreases n, 1
  {
    hide *;
    if n == 0 {
      NoDigits(base, x);
    } else {
      MoreDigits(base, x, n);
    }
  }

  lemma NoDigits(base: nat, x: nat)
    requires 2 <= base <= 16 && x < Power(base, 0)
    ensures Number(base, Digits(base, x, 0)) == Some(x)
  {
  }

  lemma {:induction false} MoreDigits(base: nat, x: nat, n: nat)
    requires 2 <= base <= 16 && n > 0 && x < Power(base, n)
    ensures Number(base, Digits(base, x, n)) == Some(x)
    decreases n, 0
  {
    hide *;
    DivideDown(base, x, n);
    DigitsNumber(base, x / base, n - 1);
    NumberAgain(base, x, Digits(base, x / base, n - 1));
    DigitsSnoc(base, x, n);
  }

  lemma DigitsSnoc(base: nat, x: nat, n: nat)
    requires 2 <= base <= 16 && n > 0
    ensures Digits(base, x, n) == Digits(base, x / base, n - 1) + [DigitChar(x % base)]
  {
  }

  lemma DivideDown(base: nat, x: nat, n: nat)
    requires base > 0 && n > 0 && x < Power(base, n)
    ensures x / base < Power(base, n - 1)
  {
    DivideBelow(base, x, Power(base, n - 1));
  }

  lemma NumberAgain(base: nat, x: nat, front: string)
    requires 2 <= base <= 16 && Number(base, front) == Some(x / base)
    ensures Number(base, front + [DigitChar(x % base)]) == Some(x)
  {
    hide Number;
    NumberSnoc(base, front, x % base, x / base);
  }

  lemma Products(x: nat, y: nat, n: nat)
    ensures x <= y ==> x * n <= y * n
  {
    assert y * n == x * n + (y - x) * n;
  }

  lemma DivideBelow(base: nat, x: nat, p: nat)
    requires base > 0 && x < base * p
    ensures x / base < p
  {
    assert x == x / base * base + x % base;
    Products(p, x / base, base);
  }

  lemma {:induction false} DigitAt(base: nat, x: nat, n: nat, i: nat)
    requires 2 <= base <= 16 && i < n
    ensures Digits(base, x, n)[i] == DigitChar(x / Power(base, n - 1 - i) % base)
    decreases n
  {
    if i == n - 1 {
      assert x / 1 == x;
    } else {
      DigitAt(base, x / base, n - 1, i);
      DivideTwice(x, base, Power(base, n - 2 - i));
    }
  }

  lemma DivideTwice(x: nat, a: nat, b: nat)
    requires a > 0 && b > 0
    ensures a * b > 0 && x / a / b == x / (a * b)
  {
    Combine(x, a, b, x / a, x % a, x / a / b, x / a % b);
    QuotientUnique(x, a * b, x / a / b, x / a % b * a + x % a);
  }

  lemma Combine(x: nat, a: nat, b: nat, m: nat, u: nat, q: nat, v: nat)
    requires x == m * a + u && u < a && m == q * b + v && v < b
    ensures a * b > 0 && x == q * (a * b) + (v * a + u) && v * a + u < a * b
  {
    Regroup(q, b, v, a);
    Products(v + 1, b, a);
    assert (v + 1) * a == v * a + a;
  }

  lemma Regroup(q: nat, b: nat, v: nat, a: nat)
    ensures (q * b + v) * a == q * (a * b) + v * a && b * a == a * b
  {
    assert (q * b + v) * a == q * b * a + v * a;
    assert q * b * a == q * (a * b);
  }

  lemma QuotientUnique(x: nat, d: nat, q: nat, r: nat)
    requires d > 0 && x == q * d + r && r < d
    ensures x / d == q
  {
    var p := x / d;
    assert x == p * d + x % d;
    Products(q + 1, p, d);
    Products(p + 1, q, d);
    assert (q + 1) * d == q * d + d && (p + 1) * d == p * d + d;
  }

  // ----- the printed text -----

  predicate IsFinite(fmt: Format, f: Float) {
    f.exponent < fmt.MaxExponent()
  }

  /** Bits by which the printed hexits are wider than the significand. */
  function Padding(fmt: Format): nat {
    4 * fmt.Hexits() - fmt.Bits()
  }

  /** The number whose leading digit and hexits are printed, before padding. */
  function Mantissa(fmt: Format, f: Float): nat {
    if f.exponent == 0 then 2 * f.significand else Pow2(fmt.Bits()) + f.significand
  }

  function Lead(fmt: Format, f: Float): nat {
    Quotient(Mantissa(fmt, f), Pow2(fmt.Bits()))
  }

  function Quotient(a: nat, b: nat): nat
    requires b > 0
  {
    a / b
  }

  function Fraction(fmt: Format, f: Float): nat {
    Mantissa(fmt, f) % Pow2(fmt.Bits()) * Pow2(Padding(fmt))
  }

  function NumDigits(e: nat): nat {
    if e >= 1000 then 4 else if e >= 100 then 3 else if e >= 10 then 2 else 1
  }

  function Abs(e: int): nat {
    if e < 0 then -e else e
  }

  /** The text of a finite float. */
  function Text(fmt: Format, f: Float): string
    requires Lead(fmt, f) < 2
  {
    var e := f.exponent - fmt.Bias();
    (if f.negative then "-" else "") + "0x" + [DigitChar(Lead(fmt, f))] + "."
    + Digits(16, Fraction(fmt, f), fmt.Hexits()) + "p" + (if e > 0 then "+" else "-") + Digits(10, Abs(e), NumDigits(Abs(e)))
  }

  lemma {:induction false} Pow2Add(a: nat, b: nat)
    ensures Pow2(a + b) == Pow2(a) * Pow2(b)
  {
    if a > 0 {
      Pow2Add(a - 1, b);
      assert Pow2(a) * Pow2(b) == 2 * (Pow2(a - 1) * Pow2(b));
    }
  }

  lemma {:induction false} PowerOf16(n: nat)
    ensures Power(16, n) == Pow2(4 * n)
  {
    if n > 0 {
      PowerOf16(n - 1);
      Pow2Add(4, 4 * (n - 1));
      assert Pow2(4) == 16;
    }
  }

  /** The leading digit is a bit, and with the hexits makes up the padded mantissa. */
  lemma PrintedMantissa(fmt: Format, f: Float)
    requires Valid(fmt, f)
    ensures Lead(fmt, f) < 2 && Fraction(fmt, f) < Power(16, fmt.Hexits())
    ensures Lead(fmt, f) * Power(16, fmt.Hexits()) + Fraction(fmt, f) == Mantissa(fmt, f) * Pow2(Padding(fmt))
  {
    var m, b, p := Mantissa(fmt, f), Pow2(fmt.Bits()), Pow2(Padding(fmt));
    assert m < 2 * b;
    DivideBelow(b, m, 2);
    PowerOf16(fmt.Hexits());
    Pow2Add(fmt.Bits(), Padding(fmt));
    assert Power(16, fmt.Hexits()) == b * p;
    PaddedParts(m, b, p);
  }

  lemma PaddedParts(m: nat, b: nat, p: nat)
    requires b > 0 && p > 0
    ensures m / b * (b * p) + m % b * p == m * p && m % b * p < b * p
  {
    var q, r := m / b, m % b;
    assert m == q * b + r;
    Regroup(q, b, r, p);
    Products(r + 1, b, p);
    assert (r + 1) * p == r * p + p;
  }

  // ----- what a text denotes -----

  /** The length of the longest prefix of hexits. */
  function HexPrefix(s: string): (n: nat)
    ensures n <= |s|
  {
    if s == [] || DigitValue(s[0]).None? then 0 else 1 + HexPrefix(s[1..])
  }

  /** A hexadecimal float with a fraction and an exponent:
      sign 0x digits . digits p sign digits. */
  function Denote(s: string): Option<Dyadic> {
    var body := if s != [] && (s[0] == '-' || s[0] == '+') then s[1..] else s;
    if |body| < 2 || body[..2] != "0x" then None else DenoteWhole(s[0] == '-', body[2..])
  }

  function DenoteWhole(negative: bool, s: string): Option<Dyadic> {
    var n := HexPrefix(s);
    if n == 0 || n == |s| || s[n] != '.' then None else DenoteFraction(negative, s[..n], s[n + 1..])
  }

  function DenoteFraction(negative: bool, whole: string, s: string): Option<Dyadic> {
    var m := HexPrefix(s);
    if m == |s| || s[m] != 'p' then None
    else
      var e :- DenoteExponent(s[m + 1..]);
      var mantissa :- Number(16, whole + s[..m]);
      Some(Dyadic(negative, mantissa, e - 4 * m))
  }

  function DenoteExponent(s: string): Option<int> {
    if |s| < 2 || (s[0] != '+' && s[0] != '-') then None
    else
      var e :- Number(10, s[1..]);
      Some(if s[0] == '-' then 0 - (e as int) else e as int)
  }

  lemma {:induction false} HexPrefixStops(digits: string, c: char, rest: string)
    requires (forall i :: 0 <= i < |digits| ==> DigitValue(digits[i]).Some?) && DigitValue(c).None?
    ensures HexPrefix(digits + [c] + rest) == |digits|
  {
    var s := digits + [c] + rest;
    if digits != [] {
      HexPrefixStops(digits[1..], c, rest);
      assert s[1..] == digits[1..] + [c] + rest;
    }
  }

  lemma {:induction false} DigitsAreHex(base: nat, x: nat, n: nat, i: nat)
    requires 2 <= base <= 16 && i < n
    ensures DigitValue(Digits(base, x, n)[i]).Some?
  {
    DigitAt(base, x, n, i);
    DigitInverts(x / Power(base, n - 1 - i) % base);
  }

  lemma DecimalFits(e: nat)
    requires e < 10000
    ensures e < Power(10, NumDigits(e))
  {
    assert Power(10, 1) == 10 && Power(10, 2) == 100 && Power(10, 3) == 1000 && Power(10, 4) == 10000;
  }

  lemma ExponentDenotes(e: int)
    requires -10000 < e < 10000
    ensures DenoteExponent((if e > 0 then "+" else "-") + Digits(10, Abs(e), NumDigits(Abs(e)))) == Some(e)
  {
    hide Digits, Number, NumDigits;
    var digits := Digits(10, Abs(e), NumDigits(Abs(e)));
    var sign := if e > 0 then "+" else "-";
    assert (sign + digits)[1..] == digits;
    DecimalFits(Abs(e));
    DigitsNumber(10, Abs(e), NumDigits(Abs(e)));
    assert |digits| > 0 by { assert NumDigits(Abs(e)) > 0 by { SomeDigit(Abs(e)); } }
  }

  lemma SomeDigit(e: nat)
    ensures NumDigits(e) > 0
  {
  }

  ghost predicate AllHex(s: string) {
    forall i :: 0 <= i < |s| ==> DigitValue(s[i]).Some?
  }

  lemma FractionDenotes(negative: bool, whole: string, hexits: string, exponent: string, e: int, m: nat)
    requires AllHex(hexits) && DenoteExponent(exponent) == Some(e) && Number(16, whole + hexits) == Some(m)
    ensures DenoteFraction(negative, whole, hexits + "p" + exponent) == Some(Dyadic(negative, m, e - 4 * |hexits|))
  {
    hide Number, DenoteExponent, HexPrefix;
    var s := hexits + "p" + exponent;
    HexPrefixStops(hexits, 'p', exponent);
    assert s[|hexits|] == 'p' && s[|hexits| + 1..] == exponent && s[..|hexits|] == hexits;
  }

  lemma WholeDenotes(negative: bool, lead: string, fraction: string)
    requires AllHex(lead) && lead != []
    ensures DenoteWhole(negative, lead + "." + fraction) == DenoteFraction(negative, lead, fraction)
  {
    hide DenoteFraction, HexPrefix;
    var s := lead + "." + fraction;
    HexPrefixStops(lead, '.', fraction);
    assert s[|lead|] == '.' && s[|lead| + 1..] == fraction && s[..|lead|] == lead;
  }

  lemma SignDenotes(negative: bool, whole: string)
    ensures Denote((if negative then "-" else "") + "0x" + whole) == DenoteWhole(negative, whole)
  {
    hide DenoteWhole;
    var body := "0x" + whole;
    var s := (if negative then "-" else "") + "0x" + whole;
    assert body[..2] == "0x" && body[2..] == whole;
    if negative {
      assert s[1..] == body;
    } else {
      assert s == body;
    }
  }

  /** Exactness: the text of every finite float denotes exactly the float's value. */
  lemma TextExact(fmt: Format, f: Float)
    requires Valid(fmt, f) && IsFinite(fmt, f)
    ensures Lead(fmt, f) < 2 && Denote(Text(fmt, f)).Some? && SameNumber(Denote(Text(fmt, f)).value, Value(fmt, f))
  {
    hide Digits, Number, NumDigits, Lead, Fraction, Power, DenoteExponent, SameNumber, Value, Denote, DenoteWhole,
         DenoteFraction;
    PrintedMantissa(fmt, f);
    var e, h := f.exponent - fmt.Bias(), fmt.Hexits();
    var lead, hexits := [DigitChar(Lead(fmt, f))], Digits(16, Fraction(fmt, f), h);
    var exponent := (if e > 0 then "+" else "-") + Digits(10, Abs(e), NumDigits(Abs(e)));
    DigitInverts(Lead(fmt, f));
    forall i | 0 <= i < h ensures DigitValue(hexits[i]).Some? {
      DigitsAreHex(16, Fraction(fmt, f), h, i);
    }
    ExponentDenotes(e);
    PrintedNumber(fmt, f);
    FractionDenotes(f.negative, lead, hexits, exponent, e, Mantissa(fmt, f) * Pow2(Padding(fmt)));
    WholeDenotes(f.negative, lead, hexits + "p" + exponent);
    SignDenotes(f.negative, lead + "." + (hexits + "p" + exponent));
    assert Text(fmt, f) == (if f.negative then "-" else "") + "0x" + (lead + "." + (hexits + "p" + exponent));
    PrintedValue(fmt, f);
  }

  lemma PrintedNumber(fmt: Format, f: Float)
    requires Valid(fmt, f) && Lead(fmt, f) < 2
    ensures Number(16, [DigitChar(Lead(fmt, f))] + Digits(16, Fraction(fmt, f), fmt.Hexits()))
         == Some(Mantissa(fmt, f) * Pow2(Padding(fmt)))
  {
    hide Lead, Fraction, Mantissa;
    PrintedMantissa(fmt, f);
    DigitInverts(Lead(fmt, f));
    PrependDigit(Lead(fmt, f), Fraction(fmt, f), fmt.Hexits());
  }

  lemma {:induction false} PrependDigit(d: nat, x: nat, n: nat)
    requires d < 16 && x < Power(16, n)
    ensures Number(16, [DigitChar(d)] + Digits(16, x, n)) == Some(d * Power(16, n) + x)
    decreases n, 1
  {
    hide *;
    if n == 0 {
      PrependToNothing(d, x);
    } else {
      PrependStep(d, x, n);
    }
  }

  lemma PrependToNothing(d: nat, x: nat)
    requires d < 16 && x < Power(16, 0)
    ensures Number(16, [DigitChar(d)] + Digits(16, x, 0)) == Some(d * Power(16, 0) + x)
  {
    NumberSnoc(16, [], d, 0);
    assert [DigitChar(d)] + Digits(16, x, 0) == [] + [DigitChar(d)];
  }

  lemma {:induction false} PrependStep(d: nat, x: nat, n: nat)
    requires d < 16 && n > 0 && x < Power(16, n)
    ensures Number(16, [DigitChar(d)] + Digits(16, x, n)) == Some(d * Power(16, n) + x)
    decreases n, 0
  {
    hide *;
    var q, r, p := x / 16, x % 16, Power(16, n - 1);
    DivideDown(16, x, n);
    PrependDigit(d, q, n - 1);
    var front := [DigitChar(d)] + Digits(16, q, n - 1);
    DigitsSnoc(16, x, n);
    assert [DigitChar(d)] + Digits(16, x, n) == front + [DigitChar(r)];
    NumberSnoc(16, front, r, d * p + q);
    HexPower(n);
    Shifted(d, p, x, q, r);
  }

  lemma HexPower(n: nat)
    requires n > 0
    ensures Power(16, n) == 16 * Power(16, n - 1)
  {
  }

  lemma Shifted(d: nat, p: nat, x: nat, q: nat, r: nat)
    requires x == 16 * q + r
    ensures (d * p + q) * 16 + r == d * (16 * p) + x
  {
  }

  lemma PrintedValue(fmt: Format, f: Float)
    requires Valid(fmt, f)
    ensures SameNumber(Dyadic(f.negative, Mantissa(fmt, f) * Pow2(Padding(fmt)), f.exponent - fmt.Bias() - 4 * fmt.Hexits()),
                       Value(fmt, f))
  {
    var p := Padding(fmt);
    if f.exponent == 0 {
      assert Pow2(p + 1) == 2 * Pow2(p);
      assert 2 * f.significand * Pow2(p) == f.significand * (2 * Pow2(p));
    }
  }
}
