/** The variable-length integers of section 5.2.2 of the WebAssembly Core Specification 1.0, as relations
    between byte strings and numbers, and that the reader accepts exactly these. */
module Leb {
  import opened Wrappers
  import opened Varints

  /** Two to a power below eight; larger powers never matter for a single byte. */
  function SmallPower(n: nat): nat {
    match n
    case 0 => 1
    case 1 => 2
    case 2 => 4
    case 3 => 8
    case 4 => 16
    case 5 => 32
    case 6 => 64
    case _ => 128
  }

  /** The bytes are an unsigned integer of at most `bits` bits. */
  predicate IsUnsigned(bytes: seq<Byte>, bits: nat, v: int)
    decreases |bytes|
  {
    && bytes != []
    && if bytes[0] < 128 then |bytes| == 1 && v == bytes[0] && v < SmallPower(bits)
       else bits > 7 && v >= 0 && v % 128 == bytes[0] - 128 && IsUnsigned(bytes[1..], bits - 7, v / 128)
  }

  /** The bytes are a signed integer of at most `bits` bits. */
  predicate IsSigned(bytes: seq<Byte>, bits: nat, v: int)
    decreases |bytes|
  {
    && bytes != [] && bits > 0
    && if bytes[0] < 64 then |bytes| == 1 && v == bytes[0] && v < SmallPower(bits - 1)
       else if bytes[0] < 128 then |bytes| == 1 && v + 128 == bytes[0] && 0 <= v + SmallPower(bits - 1)
       else bits > 7 && v % 128 == bytes[0] - 128 && IsSigned(bytes[1..], bits - 7, v / 128)
  }

  predicate IsInteger(bytes: seq<Byte>, signed: bool, bits: nat, v: int) {
    if signed then IsSigned(bytes, bits, v) else IsUnsigned(bytes, bits, v)
  }

  // ----- the bytes that the reader gathers -----

  /** The number the bytes stand for, however many there are. */
  function Number(signed: bool, bs: seq<Byte>): int {
    if signed && bs != [] && bs[|bs| - 1] % 128 >= 64 then Raw(bs) - Pow128(|bs|) else Raw(bs)
  }

  /** The bytes end in the first one without a continuation bit, or are as many as there may be; in
      the second case the unused bits of the last one are right. */
  predicate Acceptable(signed: bool, bits: nat, bs: seq<Byte>) {
    && 0 < |bs| <= MaxBytes(bits)
    && (forall i :: 0 <= i < |bs| - 1 ==> bs[i] >= 128)
    && (|bs| < MaxBytes(bits) ==> bs[|bs| - 1] < 128)
    && (|bs| == MaxBytes(bits) ==> LastByteOk(signed, bits, bs[|bs| - 1]))
  }

  lemma NumberStep(signed: bool, bs: seq<Byte>)
    requires |bs| > 1
    ensures Number(signed, bs) == bs[0] % 128 + 128 * Number(signed, bs[1..])
    ensures Number(signed, bs) % 128 == bs[0] % 128 && Number(signed, bs) / 128 == Number(signed, bs[1..])
  {
    assert bs[1..][|bs| - 2] == bs[|bs| - 1];
    Pow128Step(|bs|);
  }

  /** The numbers of bits that occur, and those left of them behind the first bytes. */
  predicate InUse(bits: nat) {
    bits > 0 && (bits % 7 == 0 || bits % 7 == 1 || bits % 7 == 4)
  }

  /** A single byte is within the bits. */
  predicate Within(signed: bool, bits: nat, b: Byte)
    requires bits > 0
  {
    && b < 128
    && if !signed then b < SmallPower(bits)
       else if b < 64 then b < SmallPower(bits - 1)
       else 128 <= b + SmallPower(bits - 1)
  }

  lemma OneForm(signed: bool, bits: nat, bs: seq<Byte>, v: int)
    requires bits > 0 && |bs| == 1
    ensures IsInteger(bs, signed, bits, v) <==>
              Within(signed, bits, bs[0]) && v == if signed && bs[0] >= 64 then bs[0] as int - 128 else bs[0]
  {
    hide SmallPower;
    assert bs[1..] == [];
    if bs[0] >= 128 && bits > 7 {
      assert !IsUnsigned([], bits - 7, v / 128) && !IsSigned([], bits - 7, v / 128);
    }
  }

  lemma OneAcceptable(signed: bool, bits: nat, bs: seq<Byte>)
    requires InUse(bits) && |bs| == 1
    ensures Acceptable(signed, bits, bs) <==> Within(signed, bits, bs[0])
  {
    hide LastByteOk, SmallPower, MaxBytes, UsedBits, InUse;
    Sizes(bits);
    if bits > 7 {
      assert SmallPower(bits) == 128 by { LargePower(bits); }
      assert SmallPower(bits - 1) == 128 by { LargePower(bits - 1); }
    } else {
      LastIff(signed, bits, bs[0]);
    }
  }

  lemma Sizes(bits: nat)
    requires InUse(bits)
    ensures if bits > 7 then MaxBytes(bits) > 1
            else (bits == 1 || bits == 4 || bits == 7) && MaxBytes(bits) == 1 && UsedBits(bits) == bits
  {
  }

  lemma LargePower(n: nat)
    requires n >= 7
    ensures SmallPower(n) == 128
  {
  }

  /** With seven bits or less, all bits in use are in the last byte. */
  lemma LastIff(signed: bool, bits: nat, b: Byte)
    requires (bits == 1 || bits == 4 || bits == 7) && UsedBits(bits) == bits
    ensures LastByteOk(signed, bits, b) <==> Within(signed, bits, b)
  {
    hide UsedBits;
  }

  lemma OneByte(signed: bool, bits: nat, bs: seq<Byte>, v: int)
    requires InUse(bits) && |bs| == 1
    ensures IsInteger(bs, signed, bits, v) <==> Acceptable(signed, bits, bs) && v == Number(signed, bs)
  {
    hide Raw, Pow128, IsInteger, Acceptable, SmallPower;
    OneForm(signed, bits, bs, v);
    OneAcceptable(signed, bits, bs);
    RawOne(bs);
    Pow128Values();
  }

  lemma RawOne(bs: seq<Byte>)
    requires |bs| == 1
    ensures Raw(bs) == bs[0] % 128
  {
    assert bs[1..] == [];
  }

  lemma Shorter(signed: bool, bits: nat, bs: seq<Byte>)
    requires InUse(bits) && |bs| > 1 && bs[0] >= 128
    ensures Acceptable(signed, bits, bs) <==> bits > 7 && Acceptable(signed, bits - 7, bs[1..])
  {
    assert forall i :: 0 <= i < |bs| - 1 ==> bs[1..][i] == bs[i + 1];
    if Acceptable(signed, bits, bs) {
      forall i | 0 <= i < |bs[1..]| - 1 ensures bs[1..][i] >= 128 {
        assert bs[1..][i] == bs[i + 1];
      }
    }
    if bits > 7 && Acceptable(signed, bits - 7, bs[1..]) {
      forall i | 0 <= i < |bs| - 1 ensures bs[i] >= 128 {
        assert i > 0 ==> bs[i] == bs[1..][i - 1];
      }
    }
  }

  lemma {:induction false} IntegerIff(signed: bool, bits: nat, bs: seq<Byte>, v: int)
    requires InUse(bits)
    ensures IsInteger(bs, signed, bits, v) <==> Acceptable(signed, bits, bs) && v == Number(signed, bs)
    decreases |bs|
  {
    hide Number, LastByteOk;
    if |bs| == 1 {
      OneByte(signed, bits, bs, v);
    } else if |bs| > 1 && bs[0] >= 128 {
      Shorter(signed, bits, bs);
      NumberStep(signed, bs);
      if bits > 7 {
        IntegerIff(signed, bits - 7, bs[1..], v / 128);
        MoreBytes(signed, bits, bs, v);
      }
    }
  }

  lemma MoreBytes(signed: bool, bits: nat, bs: seq<Byte>, v: int)
    requires InUse(bits) && |bs| > 1 && bs[0] >= 128 && bits > 7
    ensures IsInteger(bs, signed, bits, v) <==>
              v % 128 == bs[0] - 128 && IsInteger(bs[1..], signed, bits - 7, v / 128)
  {
    if !signed && v < 0 {
      NeverNegative(bs[1..], bits - 7, v / 128);
    }
  }

  lemma {:induction false} NeverNegative(bs: seq<Byte>, bits: nat, v: int)
    ensures IsUnsigned(bs, bits, v) ==> v >= 0
  {
  }

  // ----- what is gathered -----

  /** Some bytes with continuation bits, and one more. */
  predicate IsChunk(bs: seq<Byte>, n: nat) {
    && 0 < |bs| <= n && (forall i :: 0 <= i < |bs| - 1 ==> bs[i] >= 128)
    && (|bs| < n ==> bs[|bs| - 1] < 128)
  }

  lemma {:induction false} GatherIff(bytes: seq<Byte>, pos: nat, n: nat, bs: seq<Byte>)
    requires n > 0
    ensures Gather(bytes, pos, n) == Some(bs) <==>
              pos + |bs| <= |bytes| && bs == bytes[pos..pos + |bs|] && IsChunk(bs, n)
    decreases n
  {
    if pos >= |bytes| {
    } else if bytes[pos] < 128 {
      GatherOne(bytes, pos, n, bs);
    } else if n == 1 {
      assert Gather(bytes, pos + 1, 0) == Some([]);
      GatherLast(bytes, pos, bs);
    } else if bs != [] {
      GatherIff(bytes, pos + 1, n - 1, bs[1..]);
      GatherMore(bytes, pos, n, bs);
      if Gather(bytes, pos + 1, n - 1).Some? {
        var rest := Gather(bytes, pos + 1, n - 1).value;
        assert ([bytes[pos]] + rest)[1..] == rest;
        assert bs == [bs[0]] + bs[1..];
      }
    }
  }

  lemma GatherOne(bytes: seq<Byte>, pos: nat, n: nat, bs: seq<Byte>)
    requires n > 0 && pos < |bytes| && bytes[pos] < 128
    ensures bs == [bytes[pos]] <==> pos + |bs| <= |bytes| && bs == bytes[pos..pos + |bs|] && IsChunk(bs, n)
  {
    if pos + |bs| <= |bytes| && bs == bytes[pos..pos + |bs|] && IsChunk(bs, n) {
      assert bs[0] == bytes[pos];
    }
  }

  lemma GatherLast(bytes: seq<Byte>, pos: nat, bs: seq<Byte>)
    requires pos < |bytes|
    ensures bs == [bytes[pos]] + [] <==> pos + |bs| <= |bytes| && bs == bytes[pos..pos + |bs|] && IsChunk(bs, 1)
  {
  }

  lemma GatherMore(bytes: seq<Byte>, pos: nat, n: nat, bs: seq<Byte>)
    requires n > 1 && pos < |bytes| && bytes[pos] >= 128 && bs != []
    ensures (pos + |bs| <= |bytes| && bs == bytes[pos..pos + |bs|] && IsChunk(bs, n)) <==>
              && bs[0] == bytes[pos] && pos + 1 + |bs[1..]| <= |bytes|
              && bs[1..] == bytes[pos + 1..pos + 1 + |bs[1..]|] && IsChunk(bs[1..], n - 1)
  {
    var tail := bs[1..];
    if pos + |bs| <= |bytes| && bs == bytes[pos..pos + |bs|] && IsChunk(bs, n) {
      assert bs[0] == bytes[pos];
      assert |bs| > 1;
      assert forall i :: 0 <= i < |tail| ==> tail[i] == bs[i + 1];
      assert tail == bytes[pos + 1..pos + |bs|];
    }
    if bs[0] == bytes[pos] && pos + 1 + |tail| <= |bytes| && tail == bytes[pos + 1..pos + 1 + |tail|] && IsChunk(tail, n - 1) {
      assert bs == [bs[0]] + tail;
      assert bytes[pos..pos + |bs|] == [bytes[pos]] + bytes[pos + 1..pos + |bs|];
      assert forall i :: 0 < i < |bs| ==> bs[i] == tail[i - 1];
    }
  }

  // ----- the value in the variable -----

  /** Half of the range of a signed number, or all of the range of an unsigned one. */
  function Bound(signed: bool, bits: nat): nat
    requires bits > 0
  {
    if bits > 7 then 128 * Bound(signed, bits - 7) else SmallPower(if signed then bits - 1 else bits)
  }

  lemma {:induction false} BoundSmall(signed: bool, bits: nat)
    requires bits > 0
    ensures Bound(signed, bits) >= SmallPower(if signed then bits - 1 else bits)
  {
    if bits > 7 {
      BoundSmall(signed, bits - 7);
    }
  }

  lemma {:induction false} IntegerBound(signed: bool, bits: nat, bs: seq<Byte>, v: int)
    requires bits > 0 && IsInteger(bs, signed, bits, v)
    ensures v < Bound(signed, bits) && if signed then 0 <= v + Bound(signed, bits) else 0 <= v
    decreases |bs|
  {
    if bs[0] >= 128 {
      IntegerBound(signed, bits - 7, bs[1..], v / 128);
    } else {
      BoundSmall(signed, bits);
    }
  }

  lemma BoundValues()
    ensures Bound(false, 1) == 2 && Bound(false, 7) == 128 && Bound(false, 8) == 256
    ensures Bound(true, 7) == 64
    ensures Bound(false, 32) == 0x1_0000_0000 && Bound(true, 32) == 0x8000_0000
    ensures Bound(false, 64) == 0x1_0000_0000_0000_0000 && Bound(true, 64) == 0x8000_0000_0000_0000
  {
    assert Bound(false, 18) == 0x4_0000 && Bound(true, 18) == 0x2_0000;
    assert Bound(false, 15) == 0x8000 && Bound(true, 15) == 0x4000;
    assert Bound(false, 29) == 0x2000_0000 && Bound(true, 29) == 0x1000_0000;
    assert Bound(false, 43) == 0x800_0000_0000 && Bound(true, 43) == 0x400_0000_0000;
    assert Bound(false, 57) == 0x200_0000_0000_0000 && Bound(true, 57) == 0x100_0000_0000_0000;
  }

  /** The widths of the reader's variables. */
  predicate Fits(signed: bool, bits: nat, width: nat) {
    bits <= width && width in {8, 32, 64} && if signed then bits in {7, 32, 64} else bits in {1, 7, 8, 32, 64}
  }

  lemma Bounds(signed: bool, bits: nat, width: nat)
    requires Fits(signed, bits, width)
    ensures InUse(bits) && (if signed then 2 * Bound(signed, bits) else Bound(signed, bits)) <= Limit(width)
  {
    hide Bound;
    BoundValues();
  }

  lemma RawSplit(bs: seq<Byte>)
    requires bs != []
    ensures var n := |bs| - 1; bs[n] % 128 * Pow128(n) <= Raw(bs) < (bs[n] % 128 + 1) * Pow128(n)
  {
    hide Raw, Pow128;
    var n := |bs| - 1;
    Distribute(bs[n] % 128, 1, Pow128(n));
    RawSnoc(bs[..n], bs[n]);
    assert bs[..n] + [bs[n]] == bs;
    RawBound(bs[..n]);
  }

  lemma ValueIs(signed: bool, bits: nat, width: nat, bs: seq<Byte>)
    requires Fits(signed, bits, width) && Acceptable(signed, bits, bs)
    ensures ValueOf(signed, width, bs) == Number(signed, bs)
  {
    hide Raw, Acceptable, LastByteOk, Bound, Pow128, IsInteger;
    Bounds(signed, bits, width);
    IntegerIff(signed, bits, bs, Number(signed, bs));
    IntegerBound(signed, bits, bs, Number(signed, bs));
    assert 0 < |bs| <= MaxBytes(bits) by { AcceptableSize(signed, bits, bs); }
    if signed {
      SignedIs(bits, width, bs);
    } else {
      Unwrapped(Raw(bs), Limit(width));
    }
  }

  lemma Unwrapped(x: nat, m: nat)
    requires x < m
    ensures x % m == x
  {
  }

  lemma AcceptableSize(signed: bool, bits: nat, bs: seq<Byte>)
    requires Acceptable(signed, bits, bs)
    ensures 0 < |bs| <= MaxBytes(bits)
  {
  }

  lemma SignedIs(bits: nat, width: nat, bs: seq<Byte>)
    requires Fits(true, bits, width) && 0 < |bs| <= MaxBytes(bits)
    requires 0 <= 2 * Number(true, bs) + Limit(width) && 2 * Number(true, bs) < Limit(width)
    ensures ValueOf(true, width, bs) == Number(true, bs)
  {
    hide Raw, Pow128;
    var n := |bs|;
    if 7 * n >= width {
      var v := Number(true, bs);
      assert (width == 32 && n == 5) || (width == 64 && n == 10);
      if v < 0 {
        assert Raw(bs) == v + Pow128(n) by { NegativeIs(bs); }
        WrapsTo(n, width, v);
      } else {
        assert Raw(bs) == v by { PositiveIs(bs); }
      }
    } else {
      HalfIs(bs);
    }
  }

  lemma NegativeIs(bs: seq<Byte>)
    requires bs != [] && Number(true, bs) < 0
    ensures Raw(bs) == Number(true, bs) + Pow128(|bs|)
  {
  }

  lemma PositiveIs(bs: seq<Byte>)
    requires bs != [] && Number(true, bs) >= 0
    ensures Raw(bs) == Number(true, bs)
  {
    hide Raw;
    RawBound(bs);
  }

  lemma HalfIs(bs: seq<Byte>)
    requires bs != []
    ensures 2 * Raw(bs) >= Pow128(|bs|) <==> bs[|bs| - 1] % 128 >= 64
  {
    hide Raw, Pow128;
    var n, d := |bs| - 1, bs[|bs| - 1] % 128;
    RawSplit(bs);
    Pow128Step(|bs|);
    Scaled(d, Pow128(n));
  }

  lemma Scaled(d: nat, p: nat)
    ensures d >= 64 ==> d * p >= 64 * p
    ensures d < 64 ==> (d + 1) * p <= 64 * p
  {
    if d >= 64 {
      Distribute(64, d - 64, p);
    } else {
      Distribute(d + 1, 63 - d, p);
    }
  }

  /** For every input: the reader takes exactly the integers of the specification that are in range. */
  lemma ReadIff(bytes: seq<Byte>, pos: nat, signed: bool, bits: nat, width: nat, min: int, max: int, v: int, next: nat)
    requires Fits(signed, bits, width)
    ensures ReadVarInt(bytes, pos, signed, bits, width, min, max) == Some((v, next)) <==>
              pos <= next <= |bytes| && IsInteger(bytes[pos..next], signed, bits, v) && min <= v <= max
  {
    hide Gather, Number, LastByteOk, Raw, ValueOf, IsInteger, Bound;
    Bounds(signed, bits, width);
    var n := MaxBytes(bits);
    if ReadVarInt(bytes, pos, signed, bits, width, min, max) == Some((v, next)) {
      var bs := Gather(bytes, pos, n).value;
      GatherIff(bytes, pos, n, bs);
      ValueIs(signed, bits, width, bs);
      IntegerIff(signed, bits, bs, v);
    }
    if pos <= next <= |bytes| && IsInteger(bytes[pos..next], signed, bits, v) && min <= v <= max {
      var bs := bytes[pos..next];
      IntegerIff(signed, bits, bs, v);
      GatherIff(bytes, pos, n, bs);
      ValueIs(signed, bits, width, bs);
    }
  }
}
