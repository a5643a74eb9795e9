/** The printer that writes a float's text into a fixed buffer, character by character, and the
    parsers of the special values. */
module FloatPrinting {
  import opened Wrappers
  import opened FloatText

  predicate IsInfinity(fmt: Format, f: Float) {
    f.exponent == fmt.MaxExponent() && f.significand == 0
  }

  function InfinityText(negative: bool): string {
    if negative then "-inf" else "+inf"
  }

  function NaNText(fmt: Format, f: Float): string {
    (if f.negative then "-" else "+") + "nan:0x" + Digits(16, f.significand, fmt.Hexits())
  }

  // ----- shifts of a 64-bit word -----

  const WORD: nat := 64

  lemma CancelFactor(a: nat, b: nat, c: nat)
    requires b > 0 && c > 0
    ensures b * c > 0 && a * c / (b * c) == a / b && a * c % (b * c) == a % b * c
  {
    var q, r := a / b, a % b;
    assert a == q * b + r;
    assert (q * b + r) * c == q * (b * c) + r * c;
    Products(r + 1, b, c);
    assert (r + 1) * c == r * c + c;
    Products(1, b, c);
    QuotientUnique(a * c, b * c, q, r * c);
    assert a * c == a * c / (b * c) * (b * c) + a * c % (b * c);
  }

  /** The 64-bit word whose top bits are the significand; for a denormal float, shifted once more. */
  function Word(fmt: Format, f: Float): nat {
    var w := f.significand * Pow2(WORD - fmt.Bits());
    if f.exponent == 0 then 2 * w % Pow2(WORD) else w
  }

  lemma WordIs(fmt: Format, f: Float)
    requires Valid(fmt, f)
    ensures Word(fmt, f) == Fraction(fmt, f) * Pow2(WORD - 4 * fmt.Hexits())
    ensures f.exponent == 0 ==> f.significand * Pow2(WORD - fmt.Bits()) / Pow2(WORD - 1) == Lead(fmt, f)
    ensures f.exponent != 0 ==> Lead(fmt, f) == 1
  {
    hide Pow2;
    var b, h, s := fmt.Bits(), fmt.Hexits(), f.significand;
    Pow2Add(Padding(fmt), WORD - 4 * h);
    Pow2Add(b, WORD - b);
    if f.exponent == 0 {
      Halve(s * Pow2(WORD - b));
      DenormalWord(s, Pow2(b), Pow2(WORD - b), Pow2(Padding(fmt)), Pow2(WORD - 4 * h));
    } else {
      NormalWord(s, Pow2(b), Pow2(Padding(fmt)), Pow2(WORD - 4 * h));
    }
  }

  lemma DenormalWord(s: nat, bits: nat, high: nat, pad: nat, low: nat)
    requires bits > 0 && high > 0 && high == pad * low
    ensures 2 * (s * high) / (bits * high) == Quotient(2 * s, bits)
    ensures 2 * (s * high) % (bits * high) == 2 * s % bits * pad * low
  {
    assert 2 * (s * high) == 2 * s * high;
    CancelFactor(2 * s, bits, high);
    Associate(2 * s % bits, pad, low);
  }

  lemma NormalWord(s: nat, bits: nat, pad: nat, low: nat)
    requires s < bits
    ensures Quotient(bits + s, bits) == 1 && (bits + s) % bits * pad * low == s * (pad * low)
  {
    QuotientUnique(bits + s, bits, 1, s);
    assert bits + s == (bits + s) / bits * bits + (bits + s) % bits;
    Associate(s, pad, low);
  }

  lemma Associate(a: nat, b: nat, c: nat)
    ensures a * (b * c) == a * b * c
  {
  }

  lemma Halve(w: nat)
    ensures w / Pow2(WORD - 1) == 2 * w / Pow2(WORD)
  {
    CancelFactor(w, Pow2(WORD - 1), 2);
  }

  /** Shifting the word right leaves the hexit to print at the bottom. */
  lemma HexitShift(x: nat, h: nat, i: nat)
    requires i < h <= 16
    ensures x * Pow2(WORD - 4 * h) / Pow2(WORD - 4 * i - 4) % 16 == x / Power(16, h - 1 - i) % 16
  {
    var k := h - 1 - i;
    PowerOf16(k);
    Pow2Add(4 * k, WORD - 4 * h);
    CancelFactor(x, Pow2(4 * k), Pow2(WORD - 4 * h));
  }

  // ----- writing to the buffer -----

  method Put(buffer: array<char>, next: nat, text: string) returns (after: nat)
    requires next + |text| <= buffer.Length
    modifies buffer
    ensures after == next + |text| && buffer[..after] == old(buffer[..next]) + text
  {
    for i := 0 to |text|
      invariant buffer[..next + i] == old(buffer[..next]) + text[..i]
    {
      buffer[next + i] := text[i];
    }
    return next + |text|;
  }

  method PutHexits(buffer: array<char>, next: nat, word: nat, h: nat, ghost x: nat) returns (after: nat)
    requires h <= 16 && next + h <= buffer.Length && word == x * Pow2(WORD - 4 * h)
    modifies buffer
    ensures after == next + h && buffer[..after] == old(buffer[..next]) + Digits(16, x, h)
  {
    hide Digits, Pow2, Power;
    for i := 0 to h
      invariant buffer[..next + i] == old(buffer[..next]) + Digits(16, x, h)[..i]
    {
      HexitShift(x, h, i);
      DigitAt(16, x, h, i);
      var hexit := word / Pow2(WORD - 4 * i - 4) % 16;
      buffer[next + i] := DigitChar(hexit);
    }
    return next + h;
  }

  /** The digits of the exponent are stored from the last one to the first. */
  method PutDecimal(buffer: array<char>, next: nat, e: nat) returns (after: nat)
    requires e < 10000 && next + NumDigits(e) <= buffer.Length
    modifies buffer
    ensures after == next + NumDigits(e) && buffer[..after] == old(buffer[..next]) + Digits(10, e, NumDigits(e))
  {
    hide Digits;
    var n, rest := NumDigits(e), e;
    ghost var digits := Digits(10, e, n);
    for k := 0 to n
      invariant rest == e / Power(10, k)
      invariant buffer[..next] == old(buffer[..next])
      invariant forall j :: n - k <= j < n ==> buffer[next + j] == digits[j]
    {
      DigitAt(10, e, n, n - 1 - k);
      buffer[next + n - k - 1] := DigitChar(rest % 10);
      DivideTwice(e, Power(10, k), 10);
      assert Power(10, k) * 10 == Power(10, k + 1);
      rest := rest / 10;
    }
    after := next + n;
    assert buffer[..after] == buffer[..next] + buffer[next..after];
    assert buffer[next..after] == digits;
  }

  method PrintNaN(fmt: Format, f: Float, buffer: array<char>) returns (next: nat)
    requires buffer.Length == fmt.Hexits() + 12
    modifies buffer
    ensures next < buffer.Length && buffer[..next] == NaNText(fmt, f)
  {
    hide Digits, Power;
    next := Put(buffer, 0, (if f.negative then "-" else "+") + "nan:0x");
    var h, start := fmt.Hexits(), next;
    ghost var before := buffer[..start];
    for i := 0 to h
      invariant next == start + i && buffer[..next] == before + Digits(16, f.significand, h)[..i]
    {
      DigitAt(16, f.significand, h, i);
      buffer[next] := DigitChar(f.significand / Power(16, h - 1 - i) % 16);
      next := next + 1;
    }
  }

  lemma TextParts(fmt: Format, f: Float)
    requires Lead(fmt, f) < 2
    ensures var e := f.exponent - fmt.Bias();
            Text(fmt, f)
            == (if f.negative then "-" else "") + "0x" + ([DigitChar(Lead(fmt, f))] + ".")
               + Digits(16, Fraction(fmt, f), fmt.Hexits()) + ("p" + (if e > 0 then "+" else "-"))
               + Digits(10, Abs(e), NumDigits(Abs(e)))
  {
    hide Digits, Lead, Fraction, NumDigits;
  }

  method PrintFinite(fmt: Format, f: Float, buffer: array<char>) returns (next: nat)
    requires Valid(fmt, f) && IsFinite(fmt, f) && buffer.Length == fmt.Hexits() + 12
    modifies buffer
    ensures Lead(fmt, f) < 2 && next < buffer.Length && buffer[..next] == Text(fmt, f)
  {
    hide Digits, Pow2, Power, Lead, Fraction, Word, Text;
    PrintedMantissa(fmt, f);
    WordIs(fmt, f);
    TextParts(fmt, f);
    next := Put(buffer, 0, (if f.negative then "-" else "") + "0x");
    var lead := if f.exponent != 0 then 1 else f.significand * Pow2(WORD - fmt.Bits()) / Pow2(WORD - 1) % 2;
    assert lead == Lead(fmt, f);
    next := Put(buffer, next, [DigitChar(lead)] + ".");
    next := PutHexits(buffer, next, Word(fmt, f), fmt.Hexits(), Fraction(fmt, f));
    var e := f.exponent - fmt.Bias();
    next := Put(buffer, next, "p" + (if e > 0 then "+" else "-"));
    next := PutDecimal(buffer, next, Abs(e));
  }

  /** The whole printer. The buffer holds the longest text and its terminator. */
  method FloatAsString(fmt: Format, f: Float) returns (s: string)
    requires Valid(fmt, f)
    ensures IsInfinity(fmt, f) ==> s == InfinityText(f.negative)
    ensures !IsFinite(fmt, f) && !IsInfinity(fmt, f) ==> s == NaNText(fmt, f)
    ensures IsFinite(fmt, f) ==> Lead(fmt, f) < 2 && s == Text(fmt, f)
    ensures |s| < fmt.Hexits() + 12
  {
    hide Lead, Text, NaNText, Valid;
    if IsInfinity(fmt, f) {
      return InfinityText(f.negative);
    }
    var buffer := new char[fmt.Hexits() + 12];
    var next;
    if IsFinite(fmt, f) {
      next := PrintFinite(fmt, f, buffer);
    } else {
      next := PrintNaN(fmt, f, buffer);
    }
    s := buffer[..next];
  }

  // ----- parsing the special values back -----

  /** The number in a run of hexits and underscores starting at `p`, after the digits so far. */
  function RunValue(s: string, p: nat, sofar: nat): (r: nat)
    requires p <= |s|
    ensures r >= sofar
    decreases |s| - p
  {
    if p == |s| then sofar
    else if s[p] == '_' then RunValue(s, p + 1, sofar)
    else if DigitValue(s[p]).Some? then RunValue(s, p + 1, sofar * 16 + DigitValue(s[p]).value)
    else sofar
  }

  const TWO_TO_64: nat := 0x1_0000_0000_0000_0000

  /** The largest number that may still be extended by a digit: the difference wraps around if the
      digit alone exceeds the maximum. */
  function Threshold(maxValue: nat, hexit: nat): nat {
    (maxValue - hexit) % TWO_TO_64 / 16
  }

  /** The result of parsing the rest of a number, and whether it is rejected as too large. */
  function HexParsed(s: string, p: nat, sofar: nat, maxValue: nat): (nat, bool)
    requires p <= |s|
    decreases |s| - p
  {
    if p == |s| then (sofar, false)
    else if s[p] == '_' then HexParsed(s, p + 1, sofar, maxValue)
    else
      match DigitValue(s[p])
      case None => (sofar, false)
      case Some(d) =>
        if sofar > Threshold(maxValue, d) then (maxValue, true) else HexParsed(s, p + 1, sofar * 16 + d, maxValue)
  }

  /** Parses an unsigned hexadecimal integer. */
  method ParseHexUnsignedInt(s: string, first: nat, maxValue: nat) returns (result: nat, tooLarge: bool)
    requires first + 2 <= |s| && s[first] == '0' && (s[first + 1] == 'x' || s[first + 1] == 'X') && maxValue < TWO_TO_64
    ensures (result, tooLarge) == HexParsed(s, first + 2, 0, maxValue)
  {
    var next := first + 2;
    result, tooLarge := 0, false;
    while next < |s|
      invariant first + 2 <= next <= |s| && HexParsed(s, next, result, maxValue) == HexParsed(s, first + 2, 0, maxValue)
      decreases |s| - next
    {
      if s[next] == '_' {
        next := next + 1;
        continue;
      }
      var hexit := DigitValue(s[next]);
      if hexit.None? {
        break;
      }
      next := next + 1;
      if result > (maxValue - hexit.value) % TWO_TO_64 / 16 {
        return maxValue, true;
      }
      result := result * 16 + hexit.value;
    }
  }

  lemma LargeTest(result: nat, hexit: nat, maxValue: nat)
    requires hexit < 16 && 15 <= maxValue < TWO_TO_64
    ensures result > Threshold(maxValue, hexit) <==> result * 16 + hexit > maxValue
  {
  }

  /** If the maximum holds every digit, a number is rejected exactly if it exceeds the maximum. */
  lemma {:induction false} HexParsedExact(s: string, p: nat, sofar: nat, maxValue: nat)
    requires p <= |s| && 15 <= maxValue < TWO_TO_64 && sofar <= maxValue
    ensures HexParsed(s, p, sofar, maxValue)
         == if RunValue(s, p, sofar) > maxValue then (maxValue, true) else (RunValue(s, p, sofar), false)
    decreases |s| - p
  {
    hide Threshold;
    if p < |s| {
      if s[p] == '_' {
        HexParsedExact(s, p + 1, sofar, maxValue);
      } else if DigitValue(s[p]).Some? {
        var d := DigitValue(s[p]).value;
        LargeTest(sofar, d, maxValue);
        if sofar * 16 + d <= maxValue {
          HexParsedExact(s, p + 1, sofar * 16 + d, maxValue);
        }
      }
    }
  }

  /** Below that, it is not: the difference wraps around, and `0xf` is accepted as 15. */
  lemma SmallMaximumExceeded(maxValue: nat)
    requires maxValue < 15
    ensures RunValue("0xf", 2, 0) > maxValue && HexParsed("0xf", 2, 0, maxValue) == (15, false)
  {
    var s := "0xf";
    assert s[2] == DigitChar(15) && DigitValue(s[2]) == Some(15) by { DigitInverts(15); }
    assert HexParsed(s, 3, 15, maxValue) == (15, false) && RunValue(s, 3, 15) == 15;
  }

  /** Reads the sign of a literal, if it has one, and says where the rest starts. */
  method ParseSign(s: string) returns (negative: bool, next: nat)
    ensures negative <==> s != [] && s[0] == '-'
    ensures next <= |s| && next == if s != [] && s[0] in "+-" then 1 else 0
  {
    if s != [] && s[0] == '-' {
      return true, 1;
    } else if s != [] && s[0] == '+' {
      return false, 1;
    }
    return false, 0;
  }

  /** Parses a NaN; None for the errors of a literal that is too large or has no set bit. */
  method ParseNaN(fmt: Format, s: string) returns (r: Option<Float>)
    requires |s| >= 3 && var t := if s[0] == '-' || s[0] == '+' then s[1..] else s; |t| >= 3 && t[..3] == "nan"
    requires var t := if s[0] == '-' || s[0] == '+' then s[1..] else s;
             |t| > 3 && t[3] == ':' ==> |t| >= 6 && t[4] == '0' && (t[5] == 'x' || t[5] == 'X')
    ensures r == NaNOf(fmt, s)
  {
    hide Pow2, RunValue;
    MaxSignificand(fmt);
    var negative, next := ParseSign(s);
    next := next + 3;
    if next < |s| && s[next] == ':' {
      var significand, tooLarge := ParseHexUnsignedInt(s, next + 1, Pow2(fmt.Bits()) - 1);
      HexParsedExact(s, next + 3, 0, Pow2(fmt.Bits()) - 1);
      return if tooLarge || significand == 0 then None else Some(Float(negative, fmt.MaxExponent(), significand));
    }
    return Some(Float(negative, fmt.MaxExponent(), Pow2(fmt.Bits() - 1)));
  }

  lemma MaxSignificand(fmt: Format)
    ensures 16 <= Pow2(fmt.Bits()) <= TWO_TO_64
  {
    Pow2Add(4, fmt.Bits() - 4);
    assert Pow2(4) == 16;
    Pow2Add(fmt.Bits(), 64 - fmt.Bits());
    Pow2Of64();
    assert 1 <= Pow2(64 - fmt.Bits());
  }

  lemma Pow2Of4()
    ensures Pow2(4) == 16
  {
  }

  lemma Pow2Of64()
    ensures Pow2(64) == TWO_TO_64
  {
    hide Pow2;
    Pow2Of4();
    Pow2Add(4, 4);
    Pow2Add(8, 8);
    Pow2Add(16, 16);
    Pow2Add(32, 32);
  }

  /** What a NaN literal stands for. */
  function NaNOf(fmt: Format, s: string): Option<Float> {
    var start := if s != [] && (s[0] == '-' || s[0] == '+') then 4 else 3;
    var negative := s != [] && s[0] == '-';
    if |s| > start && s[start] == ':' && |s| >= start + 3 then
      var value := RunValue(s, start + 3, 0);
      if value == 0 || value >= Pow2(fmt.Bits()) then None else Some(Float(negative, fmt.MaxExponent(), value))
    else Some(Float(negative, fmt.MaxExponent(), Pow2(fmt.Bits() - 1)))
  }

  /** A NaN literal without a significand stands for the one whose top significand bit alone is set. */
  lemma CanonicalNaN(fmt: Format, s: string)
    requires s == "nan" || s == "+nan" || s == "-nan"
    ensures var f := NaNOf(fmt, s);
            && f.Some? && Valid(fmt, f.value) && f.value.exponent == fmt.MaxExponent() && (f.value.negative <==> s == "-nan")
            && f.value.significand == if fmt.F32? then 0x40_0000 else 0x8_0000_0000_0000
  {
    hide Pow2, RunValue;
    Pow2Of4();
    Pow2Add(4, 4);
    Pow2Add(8, 8);
    Pow2Add(16, 4);
    Pow2Add(20, 1);
    Pow2Add(21, 1);
    Pow2Add(22, 1);
    Pow2Add(16, 16);
    Pow2Add(32, 16);
    Pow2Add(48, 1);
    Pow2Add(49, 1);
    Pow2Add(50, 1);
    Pow2Add(51, 1);
    assert Pow2(1) == 2 by { Pow2Of1(); }
  }

  lemma Pow2Of1()
    ensures Pow2(1) == 2
  {
  }

  /** The infinity with the sign of the literal. */
  method ParseInfinity(fmt: Format, s: string) returns (f: Float)
    ensures Valid(fmt, f) && IsInfinity(fmt, f)
    ensures f.negative <==> s != [] && s[0] == '-'
  {
    var negative, _ := ParseSign(s);
    f := Float(negative, fmt.MaxExponent(), 0);
  }

  /** Reading the first `i` digits of a number leaves its quotient. */
  lemma {:induction false} RunReaches(s: string, p: nat, x: nat, n: nat, i: nat)
    requires p + n == |s| && s[p..] == Digits(16, x, n) && i <= n && x < Power(16, n)
    ensures RunValue(s, p, 0) == RunValue(s, p + i, Quotient(x, Power(16, n - i)))
    decreases i
  {
    hide Digits;
    if i == 0 {
      QuotientUnique(x, Power(16, n), 0, x);
    } else {
      RunReaches(s, p, x, n, i - 1);
      DigitAt(16, x, n, i - 1);
      var q := x / Power(16, n - i);
      assert s[p + i - 1] == s[p..][i - 1] == DigitChar(q % 16);
      DigitInverts(q % 16);
      NotUnderscore(q % 16);
      DivideTwice(x, Power(16, n - i), 16);
      assert Power(16, n - i) * 16 == Power(16, n - i + 1);
    }
  }

  lemma NotUnderscore(d: nat)
    requires d < 16
    ensures DigitChar(d) != '_'
  {
    DigitInverts(d);
  }

  /** NaNs keep their sign and every bit of their significand through text. */
  lemma NaNRoundTrip(fmt: Format, f: Float)
    requires Valid(fmt, f) && f.exponent == fmt.MaxExponent() && f.significand > 0
    ensures NaNOf(fmt, NaNText(fmt, f)) == Some(f)
  {
    hide Digits, Power, Pow2, RunValue;
    var s, h, x := NaNText(fmt, f), fmt.Hexits(), f.significand;
    assert s[7..] == Digits(16, x, h) && s[4] == ':' && |s| == 7 + h;
    SignificandFits(fmt, x);
    RunReaches(s, 7, x, h, h);
    EndOfRun(s, x / Power(16, 0));
    assert Power(16, 0) == 1 by { PowerZero(); }
  }

  lemma SignificandFits(fmt: Format, x: nat)
    requires x < Pow2(fmt.Bits())
    ensures x < Power(16, fmt.Hexits())
  {
    hide Pow2;
    PowerOf16(fmt.Hexits());
    Pow2Add(fmt.Bits(), Padding(fmt));
    Products(1, Pow2(Padding(fmt)), Pow2(fmt.Bits()));
  }

  lemma EndOfRun(s: string, x: nat)
    ensures RunValue(s, |s|, x) == x
  {
  }

  lemma PowerZero()
    ensures Power(16, 0) == 1
  {
  }

  /** Printing and parsing an infinity or a NaN gives back the same bits. */
  method SpecialRoundTrip(fmt: Format, f: Float) returns (r: Option<Float>)
    requires Valid(fmt, f) && !IsFinite(fmt, f)
    ensures r == Some(f)
  {
    hide Pow2;
    var s := FloatAsString(fmt, f);
    if IsInfinity(fmt, f) {
      var back := ParseInfinity(fmt, s);
      r := Some(back);
    } else {
      NaNRoundTrip(fmt, f);
      NaNShape(fmt, f);
      r := ParseNaN(fmt, s);
    }
  }

  lemma NaNShape(fmt: Format, f: Float)
    ensures var s := NaNText(fmt, f);
            && |s| > 7 && (s[0] == '-' || s[0] == '+') && s[1..][..3] == "nan" && s[1..][3] == ':' && s[1..][4] == '0' && s[1..][5] == 'x'
  {
    hide Digits;
  }
}
