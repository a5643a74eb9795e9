/** Variable-length integers (LEB128): the writer's loop, the reader with its check of the unused
    bits of the last byte, and that reading what was written gives the value back. */
module Varints {
  import opened Wrappers

  type Byte = b: nat | b < 256

  function Pow128(n: nat): (r: nat)
    ensures r > 0
  {
    if n == 0 then 1 else 128 * Pow128(n - 1)
  }

  /** Two to the power of a number of bits in use. */
  function Limit(bits: nat): nat {
    if bits == 1 then 2
    else if bits == 7 then 128
    else if bits == 8 then 256
    else if bits == 32 then 0x1_0000_0000
    else 0x1_0000_0000_0000_0000
  }

  // ----- writing -----

  function EncodeUnsigned(v: nat): seq<Byte> {
    if v < 128 then [v] else [v % 128 + 128] + EncodeUnsigned(v / 128)
  }

  /** The last byte of a signed value carries its sign in bit 6. Division rounds down, as an
      arithmetic shift does. */
  predicate SignedEnds(v: int) {
    -64 <= v < 64
  }

  function EncodeSigned(v: int): seq<Byte>
    decreases if v < 0 then -v else v
  {
    if SignedEnds(v) then [v % 128] else [v % 128 + 128] + EncodeSigned(v / 128)
  }

  /** The writer's loop condition, as the source has it. */
  predicate More(signed: bool, rest: int, low: nat) {
    if signed then (rest != 0 && rest != -1) || (rest >= 0 && low >= 64) || (rest < 0 && low < 64) else rest != 0
  }

  lemma MoreIs(v: int)
    ensures More(true, v / 128, v % 128) <==> !SignedEnds(v)
    ensures v >= 0 ==> (More(false, v / 128, v % 128) <==> v >= 128)
  {
  }

  function Encode(signed: bool, v: int): seq<Byte>
    requires signed || v >= 0
  {
    if signed then EncodeSigned(v) else EncodeUnsigned(v)
  }

  /** Appends the encoding of a value; None if the value is out of range. */
  method WriteVarInt(out: seq<Byte>, signed: bool, v: int, min: int, max: int) returns (r: Option<seq<Byte>>)
    requires signed || min >= 0
    ensures r == if min <= v <= max then Some(out + Encode(signed, v)) else None
  {
    if v < min || v > max {
      return None;
    }
    var value, bytes, more := v, out, true;
    while more
      invariant signed || value >= 0
      invariant if more then bytes + Encode(signed, value) == out + Encode(signed, v) else bytes == out + Encode(signed, v)
      decreases more, if value < 0 then -value else value
    {
      MoreIs(value);
      var low := value % 128;
      more := More(signed, value / 128, low);
      assert Encode(signed, value) == if more then [low + 128] + Encode(signed, value / 128) else [low];
      assert bytes + ([low + 128] + Encode(signed, value / 128)) == bytes + [low + 128] + Encode(signed, value / 128);
      bytes := bytes + [if more then low + 128 else low];
      value := value / 128;
    }
    r := Some(bytes);
  }

  // ----- reading -----

  /** The bytes up to the first one without a continuation bit, at most `n`; None if the input
      ends before. */
  function Gather(bytes: seq<Byte>, pos: nat, n: nat): Option<seq<Byte>>
    decreases n
  {
    if n == 0 then Some([])
    else if pos >= |bytes| then None
    else if bytes[pos] < 128 then Some([bytes[pos]])
    else
      var rest :- Gather(bytes, pos + 1, n - 1);
      Some([bytes[pos]] + rest)
  }

  /** The septets of the bytes, the least significant first, as one number. */
  function Raw(bs: seq<Byte>): nat {
    if bs == [] then 0 else bs[0] % 128 + 128 * Raw(bs[1..])
  }

  function MaxBytes(bits: nat): nat {
    (bits + 6) / 7
  }

  /** The bits of the last possible byte that are in use. */
  function UsedBits(bits: nat): int {
    bits - (MaxBytes(bits) - 1) * 7
  }

  /** The unused bits of the last possible byte are zero, or copies of the sign. */
  predicate LastByteOk(signed: bool, bits: nat, last: Byte) {
    match (signed, UsedBits(bits))
    case (false, 1) => last < 2
    case (false, 4) => last < 16
    case (true, 1) => last == 0 || last == 0x7f
    case (true, 4) => last < 8 || 0x78 <= last < 0x80
    case _ => last < 128
  }

  /** A number below the modulus as a signed one. */
  function AsSigned(x: nat, modulus: nat): int {
    if 2 * x >= modulus then x - modulus else x
  }

  /** The value in a variable of `width` bits. */
  function ValueOf(signed: bool, width: nat, bs: seq<Byte>): int {
    if !signed then Raw(bs) % Limit(width)
    else if 7 * |bs| < width then AsSigned(Raw(bs), Pow128(|bs|))
    else AsSigned(Raw(bs) % Limit(width), Limit(width))
  }

  /** Reads a value of at most `bits` bits into a variable of `width` bits; None for every error. */
  function ReadVarInt(bytes: seq<Byte>, pos: nat, signed: bool, bits: nat, width: nat, min: int, max: int): Option<(int,
      nat)>
  {
    var bs :- Gather(bytes, pos, MaxBytes(bits));
    if |bs| == MaxBytes(bits) > 0 && !LastByteOk(signed, bits, bs[|bs| - 1]) then None
    else
      var value := ValueOf(signed, width, bs);
      if min <= value <= max then Some((value, pos + |bs|)) else None
  }

  // ----- round trip -----

  /** The widths in use, with the ranges the callers give. */
  predicate Supported(signed: bool, bits: nat, width: nat, v: int) {
    && bits <= width && width in {8, 32, 64}
    && if signed then bits in {7, 32, 64} && 0 <= 2 * v + Limit(bits) && 2 * v < Limit(bits)
       else bits in {1, 7, 8, 32, 64} && 0 <= v < Limit(bits)
  }

  /** All bytes but the last have the continuation bit. */
  ghost predicate Chunk(e: seq<Byte>) {
    e != [] && e[|e| - 1] < 128 && forall i :: 0 <= i < |e| - 1 ==> e[i] >= 128
  }

  lemma {:induction false} EncodeIsChunk(signed: bool, v: int)
    requires signed || v >= 0
    ensures Chunk(Encode(signed, v))
    decreases if v < 0 then -v else v
  {
    if if signed then !SignedEnds(v) else v >= 128 {
      EncodeIsChunk(signed, v / 128);
      var e, rest := Encode(signed, v), Encode(signed, v / 128);
      assert e == [v % 128 + 128] + rest;
      assert forall i :: 0 < i < |e| ==> e[i] == rest[i - 1];
    }
  }

  lemma {:induction false} GatherChunk(bytes: seq<Byte>, pos: nat, n: nat, e: seq<Byte>)
    requires Chunk(e) && |e| <= n && pos + |e| <= |bytes| && bytes[pos..pos + |e|] == e
    ensures Gather(bytes, pos, n) == Some(e)
    decreases n
  {
    assert bytes[pos] == e[0];
    if |e| == 1 {
      assert e == [e[0]];
    } else {
      var rest := e[1..];
      assert bytes[pos + 1..pos + 1 + |rest|] == rest by {
        assert bytes[pos + 1..pos + |e|] == bytes[pos..pos + |e|][1..];
      }
      assert forall i :: 0 <= i < |rest| ==> rest[i] == e[i + 1];
      GatherChunk(bytes, pos + 1, n - 1, rest);
      assert e == [e[0]] + rest;
    }
  }

  /** An unsigned value below 128^k takes at most `k` bytes, and its septets give it back. */
  lemma {:induction false} UnsignedFits(v: nat, k: nat)
    requires k > 0 && v < Pow128(k)
    ensures |EncodeUnsigned(v)| <= k && Raw(EncodeUnsigned(v)) == v
    ensures |EncodeUnsigned(v)| == k ==> EncodeUnsigned(v)[k - 1] == v / Pow128(k - 1)
    decreases v
  {
    var e := EncodeUnsigned(v);
    if v < 128 {
      assert e == [v] && e[1..] == [];
    } else {
      assert k > 1;
      UnsignedFits(v / 128, k - 1);
      assert e[1..] == EncodeUnsigned(v / 128);
      QuotientSplit(v, 128, Pow128(k - 2));
    }
  }

  /** The values whose sign fits in `k` septets. */
  predicate SignFits(v: int, k: nat)
    requires k > 0
  {
    0 <= v + 64 * Pow128(k - 1) && v < 64 * Pow128(k - 1)
  }

  lemma SignStep(v: int, k: nat)
    requires k > 1
    ensures SignFits(v, k) <==> SignFits(v / 128, k - 1)
  {
    assert Pow128(k - 1) == 128 * Pow128(k - 2);
  }

  /** The same for a signed value: its septets give it back modulo a power of 128. */
  lemma SignedFits(v: int, k: nat)
    requires k > 0 && SignFits(v, k)
    ensures var e := EncodeSigned(v);
            && 0 < |e| <= k && SignFits(v, |e|)
            && Raw(e) == (if v < 0 then v + Pow128(|e|) else v)
            && (|e| == k ==> var t := v / Pow128(k - 1); e[k - 1] == if t < 0 then t + 128 else t)
  {
    SignedLength(v, k);
    SignedRaw(v);
    if |EncodeSigned(v)| == k {
      SignedLast(v, k);
    }
  }

  lemma {:induction false} SignedLength(v: int, k: nat)
    requires k > 0 && SignFits(v, k)
    ensures 0 < |EncodeSigned(v)| <= k && SignFits(v, |EncodeSigned(v)|)
    decreases k
  {
    if !SignedEnds(v) {
      assert k > 1;
      SignStep(v, k);
      SignedLength(v / 128, k - 1);
      SignStep(v, |EncodeSigned(v)|);
    }
  }

  lemma {:induction false} SignedRaw(v: int)
    ensures Raw(EncodeSigned(v)) == if v < 0 then v + Pow128(|EncodeSigned(v)|) else v
    decreases if v < 0 then -v else v
  {
    var e := EncodeSigned(v);
    if SignedEnds(v) {
      assert e == [v % 128] && e[1..] == [];
      assert Pow128(1) == 128;
    } else {
      SignedRaw(v / 128);
      assert e[1..] == EncodeSigned(v / 128);
    }
  }

  lemma {:induction false} SignedLast(v: int, k: nat)
    requires k > 0 && SignFits(v, k) && |EncodeSigned(v)| == k
    ensures var t := v / Pow128(k - 1); EncodeSigned(v)[k - 1] == if t < 0 then t + 128 else t
    decreases k
  {
    if SignedEnds(v) {
      assert Pow128(0) == 1;
    } else {
      assert k > 1;
      SignStep(v, k);
      SignedLast(v / 128, k - 1);
      QuotientSplit(v, 128, Pow128(k - 2));
    }
  }

  lemma QuotientSplit(v: int, a: nat, b: nat)
    requires a > 0 && b > 0
    ensures a * b > 0 && v / a / b == v / (a * b)
  {
    var m, u := v / a, v % a;
    var q, r := m / b, m % b;
    Recombine(v, a, b, m, u, q, r);
    QuotientIs(v, a * b, q, r * a + u);
  }

  lemma Recombine(v: int, a: nat, b: nat, m: int, u: nat, q: int, r: nat)
    requires v == m * a + u && u < a && m == q * b + r && r < b
    ensures a * b > 0 && v == q * (a * b) + (r * a + u) && r * a + u < a * b
  {
    assert (q * b + r) * a == q * (a * b) + r * a;
    assert (b - 1 - r) * a >= 0;
    assert (b - 1 - r) * a == a * b - a - r * a;
  }

  lemma QuotientIs(v: int, d: nat, q: int, r: nat)
    requires d > 0 && v == q * d + r && r < d
    ensures v / d == q
  {
    var p := v / d;
    assert v == p * d + v % d;
    AtMost(q, p, d);
    AtMost(p, q, d);
  }

  lemma AtMost(x: int, y: int, d: nat)
    ensures x < y ==> x * d + d <= y * d
  {
    if x < y {
      Distribute(x + 1, y - x - 1, d);
      Distribute(x, 1, d);
    }
  }

  lemma Distribute(x: int, y: int, d: nat)
    ensures (x + y) * d == x * d + y * d
    ensures y >= 0 ==> y * d >= 0
  {
  }

  lemma Pow128Values()
    ensures Pow128(0) == 1 && Pow128(1) == 128 && Pow128(2) == 0x4000 && Pow128(4) == 0x1000_0000
    ensures Pow128(5) == 0x8_0000_0000 && Pow128(9) == 0x8000_0000_0000_0000 && Pow128(10) == 0x40_0000_0000_0000_0000
  {
    assert Pow128(3) == 128 * Pow128(2) && Pow128(6) == 128 * Pow128(5) && Pow128(7) == 128 * Pow128(6);
    assert Pow128(8) == 128 * Pow128(7);
  }

  lemma LastUnsigned(bits: nat, v: nat)
    requires Supported(false, bits, 64, v) && |EncodeUnsigned(v)| == MaxBytes(bits)
    ensures LastByteOk(false, bits, EncodeUnsigned(v)[MaxBytes(bits) - 1])
  {
    Pow128Values();
    UnsignedFits(v, MaxBytes(bits));
  }

  lemma LastSigned(bits: nat, v: int)
    requires Supported(true, bits, 64, v) && |EncodeSigned(v)| == MaxBytes(bits)
    ensures LastByteOk(true, bits, EncodeSigned(v)[MaxBytes(bits) - 1])
  {
    Pow128Values();
    SignedFits(v, MaxBytes(bits));
  }

  /** The widest encodings in use, by the powers of 128 that bound them. */
  lemma WidestUnsigned(bits: nat, width: nat, v: nat)
    requires Supported(false, bits, width, v)
    ensures MaxBytes(bits) > 0 && v < Pow128(MaxBytes(bits)) && v % Limit(width) == v
  {
    Pow128Values();
  }

  lemma WidestSigned(bits: nat, width: nat, v: int)
    requires Supported(true, bits, width, v)
    ensures MaxBytes(bits) > 0 && SignFits(v, MaxBytes(bits))
  {
    Pow128Values();
  }

  lemma UnsignedBack(bits: nat, width: nat, v: nat)
    requires Supported(false, bits, width, v)
    ensures ValueOf(false, width, EncodeUnsigned(v)) == v && |EncodeUnsigned(v)| <= MaxBytes(bits)
  {
    hide Pow128, Supported, EncodeUnsigned, Raw, MaxBytes, Limit;
    WidestUnsigned(bits, width, v);
    UnsignedFits(v, MaxBytes(bits));
  }

  /** The septets of a signed value, taken as one number below a modulus, are the value again. */
  lemma SignRestored(v: int, half: nat)
    requires 0 <= v + half && v < half
    ensures v < 0 ==> AsSigned(v + 2 * half, 2 * half) == v
    ensures v >= 0 ==> AsSigned(v, 2 * half) == v
  {
  }

  lemma SignedBack(bits: nat, width: nat, v: int)
    requires Supported(true, bits, width, v)
    ensures ValueOf(true, width, EncodeSigned(v)) == v && |EncodeSigned(v)| <= MaxBytes(bits)
  {
    hide Supported, EncodeSigned, Raw, MaxBytes, AsSigned, Limit, Pow128;
    WidestSigned(bits, width, v);
    SignedFits(v, MaxBytes(bits));
    var n := |EncodeSigned(v)|;
    if 7 * n < width {
      SignRestored(v, 64 * Pow128(n - 1));
      assert 2 * (64 * Pow128(n - 1)) == Pow128(n) by { Pow128Step(n); }
    } else {
      Wide(bits, width, v, n);
      SignRestored(v, Limit(width) / 2);
    }
  }

  lemma Pow128Step(n: nat)
    requires n > 0
    ensures Pow128(n) == 128 * Pow128(n - 1)
  {
  }

  /** An encoding at least as wide as the variable is reduced modulo the variable's range. */
  lemma Wide(bits: nat, width: nat, v: int, n: nat)
    requires Supported(true, bits, width, v) && 0 < n <= MaxBytes(bits) && width <= 7 * n
    ensures 2 * (Limit(width) / 2) == Limit(width) > 0
    ensures 0 <= v + Limit(width) / 2 && v < Limit(width) / 2
    ensures v < 0 ==> (v + Pow128(n)) % Limit(width) == v + Limit(width)
    ensures v >= 0 ==> v % Limit(width) == v
  {
    if v < 0 {
      WrapsTo(n, width, v);
    }
  }

  lemma ValueBack(signed: bool, bits: nat, width: nat, v: int)
    requires Supported(signed, bits, width, v)
    ensures ValueOf(signed, width, Encode(signed, v)) == v && |Encode(signed, v)| <= MaxBytes(bits)
  {
    hide ValueOf, MaxBytes;
    if signed {
      SignedBack(bits, width, v);
    } else {
      UnsignedBack(bits, width, v);
    }
  }

  /** A negative value in more bits than the variable has wraps around to itself. */
  lemma WrapsTo(n: nat, width: nat, v: int)
    requires ((width == 32 && n == 5) || (width == 64 && n == 10)) && 0 <= 2 * v + Limit(width) && v < 0
    ensures v + Pow128(n) >= 0 && (v + Pow128(n)) % Limit(width) == v + Limit(width)
  {
    Pow128Values();
  }

  /** Reading what was written gives the value back, and stops right behind it. */
  lemma VarIntRoundTrip(before: seq<Byte>, signed: bool, bits: nat, width: nat, v: int, min: int, max: int,
      rest: seq<Byte>)
    requires Supported(signed, bits, width, v) && min <= v <= max
    ensures ReadVarInt(before + Encode(signed, v) + rest, |before|, signed, bits, width, min, max)
         == Some((v, |before| + |Encode(signed, v)|))
  {
    hide Gather, ValueOf, Encode;
    var e := Encode(signed, v);
    var bytes := before + e + rest;
    EncodeIsChunk(signed, v);
    ValueBack(signed, bits, width, v);
    assert bytes[|before|..|before| + |e|] == e;
    GatherChunk(bytes, |before|, MaxBytes(bits), e);
    if |e| == MaxBytes(bits) {
      LastBack(signed, bits, width, v);
    }
  }

  lemma LastBack(signed: bool, bits: nat, width: nat, v: int)
    requires Supported(signed, bits, width, v) && |Encode(signed, v)| == MaxBytes(bits)
    ensures MaxBytes(bits) > 0 && LastByteOk(signed, bits, Encode(signed, v)[MaxBytes(bits) - 1])
  {
    if signed {
      LastSigned(bits, v);
    } else {
      LastUnsigned(bits, v);
    }
  }

  // ----- no encoding is longer than what was read -----

  lemma {:induction false} RawBound(bs: seq<Byte>)
    ensures Raw(bs) < Pow128(|bs|)
  {
    if bs != [] {
      RawBound(bs[1..]);
    }
  }

  lemma {:induction false} PowerGrows(m: nat, n: nat)
    requires m <= n
    ensures Pow128(m) <= Pow128(n)
    decreases n
  {
    if m < n {
      PowerGrows(m, n - 1);
    }
  }

  lemma {:induction false} GatherSome(bytes: seq<Byte>, pos: nat, n: nat)
    requires n > 0 && Gather(bytes, pos, n).Some?
    ensures 0 < |Gather(bytes, pos, n).value|
  {
  }

  lemma UnsignedNoLonger(bs: seq<Byte>, width: nat)
    requires bs != []
    ensures ValueOf(false, width, bs) >= 0 && |Encode(false, ValueOf(false, width, bs))| <= |bs|
  {
    hide EncodeUnsigned, Pow128, Raw, Limit;
    RawBound(bs);
    LimitPositive(width);
    AtMostRaw(Raw(bs), Limit(width));
    UnsignedFits(ValueOf(false, width, bs), |bs|);
  }

  lemma LimitPositive(width: nat)
    ensures Limit(width) > 0
  {
  }

  lemma AtMostRaw(x: nat, m: nat)
    requires m > 0
    ensures 0 <= x % m <= x
  {
    if x >= m {
      assert x % m < m;
    }
  }

  /** A value in `width` bits has its sign in as many septets as cover the width. */
  lemma WidthFits(width: nat, n: nat)
    requires width in {8, 32, 64} && width <= 7 * n
    ensures Limit(width) <= 128 * Pow128(n - 1)
  {
    Pow128Values();
    PowerGrows(if width == 8 then 1 else if width == 32 then 4 else 9, n - 1);
  }

  lemma SignedNoLonger(bs: seq<Byte>, width: nat)
    requires bs != [] && width in {8, 32, 64}
    ensures |Encode(true, ValueOf(true, width, bs))| <= |bs|
  {
    hide EncodeSigned, Raw, Limit, Pow128;
    var n, v := |bs|, ValueOf(true, width, bs);
    LimitPositive(width);
    RawBound(bs);
    Pow128Step(n);
    assert SignFits(v, n) by {
      if width <= 7 * n {
        WidthFits(width, n);
      }
    }
    SignedLength(v, n);
  }

  /** For every input: a value that was read takes no more bytes when it is written again. */
  lemma NoLonger(bytes: seq<Byte>, pos: nat, signed: bool, bits: nat, width: nat, min: int, max: int)
    requires bits > 0 && width in {8, 32, 64}
    requires ReadVarInt(bytes, pos, signed, bits, width, min, max).Some?
    ensures var (v, next) := ReadVarInt(bytes, pos, signed, bits, width, min, max).value;
            (signed || v >= 0) && pos + |Encode(signed, v)| <= next
  {
    hide Encode, ValueOf, Gather;
    var bs := Gather(bytes, pos, MaxBytes(bits)).value;
    GatherSome(bytes, pos, MaxBytes(bits));
    if signed {
      SignedNoLonger(bs, width);
    } else {
      UnsignedNoLonger(bs, width);
    }
  }

  /** The number of bytes of an unsigned value. */
  function Length(v: nat): (n: nat)
    ensures n > 0
  {
    |EncodeUnsigned(v)|
  }

  lemma {:induction false} LengthBound(v: nat)
    ensures v < Pow128(Length(v))
    decreases v
  {
    if v < 128 {
      Pow128Values();
    } else {
      LengthBound(v / 128);
    }
  }

  lemma LengthGrows(a: nat, b: nat)
    requires a <= b
    ensures Length(a) <= Length(b)
  {
    hide Length;
    LengthBound(b);
    LengthIs(a, Length(b));
  }

  lemma LengthIs(v: nat, n: nat)
    requires n > 0 && v < Pow128(n)
    ensures Length(v) <= n
  {
    UnsignedFits(v, n);
  }

  /** Two counts never take less room than their sum. */
  lemma LengthSum(a: nat, b: nat)
    ensures Length(a + b) <= Length(a) + Length(b)
  {
    hide Length, Pow128;
    var m, n := Length(a), Length(b);
    LengthBound(a);
    LengthBound(b);
    PowerSum(m, n);
    LengthIs(a + b, m + n);
  }

  lemma {:induction false} PowerSum(m: nat, n: nat)
    requires m > 0 && n > 0
    ensures Pow128(m) + Pow128(n) <= Pow128(m + n)
    decreases m
  {
    if m == 1 {
      Pow128Step(n + 1);
      Pow128Values();
      PowerGrows(1, n);
    } else {
      PowerSum(m - 1, n);
      Pow128Step(m);
      Pow128Step(m + n);
    }
  }

  // ----- the reader's loops -----

  lemma {:induction false} RawSnoc(bs: seq<Byte>, b: Byte)
    ensures Raw(bs + [b]) == Raw(bs) + b % 128 * Pow128(|bs|)
  {
    if bs == [] {
      assert bs + [b] == [b] && [b][1..] == [];
    } else {
      RawSnoc(bs[1..], b);
      assert (bs + [b])[1..] == bs[1..] + [b];
      assert 128 * (b % 128 * Pow128(|bs| - 1)) == b % 128 * Pow128(|bs|);
    }
  }

  /** Reads bytes into the buffer up to the first one without a continuation bit. */
  method GatherBytes(bytes: seq<Byte>, pos: nat, maxBytes: nat) returns (r: Option<seq<Byte>>)
    ensures r == Gather(bytes, pos, maxBytes)
  {
    var bs: seq<Byte>, done := [], false;
    GatherAll(bytes, pos, maxBytes);
    while |bs| < maxBytes && !done
      invariant |bs| <= maxBytes
      invariant if done then Gather(bytes, pos, maxBytes) == Some(bs)
                else Gather(bytes, pos, maxBytes) == Prefixed(bs, Gather(bytes, pos + |bs|, maxBytes - |bs|))
      decreases maxBytes - |bs|, !done
    {
      if pos + |bs| >= |bytes| {
        return None;
      }
      var byte := bytes[pos + |bs|];
      GatherStep(bytes, pos + |bs|, maxBytes - |bs|, bs);
      bs := bs + [byte];
      done := byte < 128;
    }
    assert bs + [] == bs;
    return Some(bs);
  }

  function Prefixed(bs: seq<Byte>, r: Option<seq<Byte>>): Option<seq<Byte>> {
    match r
    case None => None
    case Some(rest) => Some(bs + rest)
  }

  lemma GatherAll(bytes: seq<Byte>, pos: nat, n: nat)
    ensures Gather(bytes, pos, n) == Prefixed([], Gather(bytes, pos, n))
  {
    assert forall rest: seq<Byte> :: [] + rest == rest;
  }

  lemma GatherStep(bytes: seq<Byte>, pos: nat, n: nat, bs: seq<Byte>)
    requires n > 0 && pos < |bytes|
    ensures Prefixed(bs, Gather(bytes, pos, n))
         == if bytes[pos] < 128 then Some(bs + [bytes[pos]]) else Prefixed(bs + [bytes[pos]], Gather(bytes, pos + 1, n - 1))
  {
    assert forall rest: seq<Byte> :: bs + ([bytes[pos]] + rest) == bs + [bytes[pos]] + rest;
  }

  /** Adds up the septets of the buffer. */
  method Assemble(bs: seq<Byte>) returns (value: nat)
    ensures value == Raw(bs)
  {
    value := 0;
    for i := 0 to |bs|
      invariant value == Raw(bs[..i])
    {
      assert bs[..i + 1] == bs[..i] + [bs[i]];
      RawSnoc(bs[..i], bs[i]);
      value := value + bs[i] % 128 * Pow128(i);
    }
    assert bs[..|bs|] == bs;
  }

  /** Fills the buffer, checks its last byte, and assembles and extends the value. */
  method ParseVarInt(bytes: seq<Byte>, pos: nat, signed: bool, bits: nat, width: nat, min: int, max: int)
    returns (r: Option<(int, nat)>)
    ensures r == ReadVarInt(bytes, pos, signed, bits, width, min, max)
  {
    var buffer := GatherBytes(bytes, pos, MaxBytes(bits));
    if buffer.None? {
      return None;
    }
    var bs := buffer.value;
    if |bs| == MaxBytes(bits) > 0 && !LastByteOk(signed, bits, bs[|bs| - 1]) {
      return None;
    }
    var raw := Assemble(bs);
    var value: int := if !signed || 7 * |bs| >= width then raw % Limit(width) else raw;
    if signed {
      value := AsSigned(value, if 7 * |bs| < width then Pow128(|bs|) else Limit(width));
    }
    return if min <= value <= max then Some((value, pos + |bs|)) else None;
  }
}
