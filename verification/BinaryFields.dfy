/** The primitive fields of the binary format. Each is written as bytes and read back from the front
    of a stream; a reader returns the value and the rest of the stream. */
module BinaryFields {
  import opened Wrappers
  import opened IR
  import opened Varints

  // ----- integers -----

  const MAX_U32 := 0xffff_ffff
  const INT32_BOUND := 0x8000_0000
  const INT64_BOUND := 0x8000_0000_0000_0000

  function Ranged(signed: bool, v: int, min: int, max: int): Option<seq<Byte>>
    requires signed || min >= 0
  {
    if min <= v <= max then Some(Encode(signed, v)) else None
  }

  function ReadRanged(s: seq<Byte>, signed: bool, bits: nat, width: nat, min: int,
      max: int): (r: Option<(int, seq<Byte>)>)
    ensures r.Some? ==> min <= r.value.0 <= max && |r.value.1| <= |s|
  {
    match ReadVarInt(s, 0, signed, bits, width, min, max)
    case None => None
    case Some((v, n)) => if n <= |s| then Some((v, s[n..])) else None
  }

  lemma RangedBack(signed: bool, bits: nat, width: nat, v: int, min: int, max: int, rest: seq<Byte>)
    requires Supported(signed, bits, width, v) && min <= v <= max
    ensures ReadRanged(Encode(signed, v) + rest, signed, bits, width, min, max) == Some((v, rest))
  {
    hide ReadVarInt;
    VarIntRoundTrip([], signed, bits, width, v, min, max, rest);
    assert [] + Encode(signed, v) + rest == Encode(signed, v) + rest;
    assert (Encode(signed, v) + rest)[|Encode(signed, v)|..] == rest;
  }

  function WriteU32(v: int): Option<seq<Byte>> {
    Ranged(false, v, 0, MAX_U32)
  }

  function ReadU32(s: seq<Byte>): (r: Option<(nat, seq<Byte>)>)
    ensures r.Some? ==> r.value.0 <= MAX_U32 && |r.value.1| <= |s|
  {
    match ReadRanged(s, false, 32, 64, 0, MAX_U32)
    case None => None
    case Some((v, rest)) => Some((v, rest))
  }

  lemma U32Back(v: int, rest: seq<Byte>)
    requires WriteU32(v).Some?
    ensures v >= 0 && ReadU32(WriteU32(v).value + rest) == Some((v, rest))
  {
    hide ReadRanged;
    RangedBack(false, 32, 64, v, 0, MAX_U32, rest);
  }

  // ----- types -----

  function EncodeType(t: ValueType): Option<int> {
    match t
    case I32 => Some(-1)
    case I64 => Some(-2)
    case F32 => Some(-3)
    case F64 => Some(-4)
    case V128 => Some(-5)
    case Funcref => Some(-16)
    case Anyref => Some(-17)
    case _ => None
  }

  function DecodeType(v: int): Option<ValueType> {
    if v == -1 then Some(I32)
    else if v == -2 then Some(I64)
    else if v == -3 then Some(F32)
    else if v == -4 then Some(F64)
    else if v == -5 then Some(V128)
    else if v == -16 then Some(Funcref)
    else if v == -17 then Some(Anyref)
    else None
  }

  function EncodeBlockType(bt: BlockType): Option<int> {
    match bt
    case NoParametersOrResult => Some(-64)
    case OneResult(t) => EncodeType(t)
    case TypeIndex(i) => Some(i)
  }

  function DecodeBlockType(v: int): Option<BlockType> {
    if v >= 0 then Some(TypeIndex(v))
    else if v == -64 then Some(NoParametersOrResult)
    else
      var t :- DecodeType(v);
      Some(OneResult(t))
  }

  // ----- fields -----

  /** The kinds of field an immediate is made of. */
  datatype Field = U32Field | U7Field | S32Field | S64Field | OctetField | ZeroField | TypeField | BlockField

  datatype Value = Number(n: int) | OfType(t: ValueType) | OfBlock(bt: BlockType)

  predicate HasKind(f: Field, v: Value) {
    match f
    case TypeField => v.OfType?
    case BlockField => v.OfBlock?
    case OctetField => v.Number? && 0 <= v.n < 256
    case _ => v.Number?
  }

  function WriteField(f: Field, v: Value): Option<seq<Byte>>
    requires HasKind(f, v)
  {
    match f
    case U32Field => WriteU32(v.n)
    case U7Field => Ranged(false, v.n, 0, 127)
    case S32Field => Ranged(true, v.n, -INT32_BOUND, INT32_BOUND - 1)
    case S64Field => Ranged(true, v.n, -INT64_BOUND, INT64_BOUND - 1)
    case OctetField => Some([v.n])
    case ZeroField => Some([0])
    case TypeField => (var e :- EncodeType(v.t); Ranged(true, e, -64, 63))
    case BlockField => (var e :- EncodeBlockType(v.bt); Ranged(true, e, -INT32_BOUND, INT32_BOUND - 1))
  }

  function ReadNumber(r: Option<(int, seq<Byte>)>): Option<(Value, seq<Byte>)> {
    match r
    case None => None
    case Some((v, rest)) => Some((Number(v), rest))
  }

  function ReadField(f: Field, s: seq<Byte>): (r: Option<(Value, seq<Byte>)>)
    ensures r.Some? ==> |r.value.1| <= |s|
  {
    match f
    case U32Field => ReadNumber(ReadRanged(s, false, 32, 64, 0, MAX_U32))
    case U7Field => ReadNumber(ReadRanged(s, false, 7, 8, 0, 127))
    case S32Field => ReadNumber(ReadRanged(s, true, 32, 32, -INT32_BOUND, INT32_BOUND - 1))
    case S64Field => ReadNumber(ReadRanged(s, true, 64, 64, -INT64_BOUND, INT64_BOUND - 1))
    case OctetField => if s == [] then None else Some((Number(s[0]), s[1..]))
    case ZeroField => if s == [] || s[0] != 0 then None else Some((Number(0), s[1..]))
    case TypeField =>
      (var r :- ReadRanged(s, true, 7, 8, -64, 63);
       var t :- DecodeType(r.0);
       Some((OfType(t), r.1)))
    case BlockField =>
      (var r :- ReadRanged(s, true, 32, 64, -INT32_BOUND, INT32_BOUND - 1);
       var bt :- DecodeBlockType(r.0);
       Some((OfBlock(bt), r.1)))
  }

  /** What reading gives back: the writer drops the value of a reserved zero. */
  function Canonical(f: Field, v: Value): Value {
    if f.ZeroField? then Number(0) else v
  }

  lemma FieldBack(f: Field, v: Value, rest: seq<Byte>)
    requires HasKind(f, v) && WriteField(f, v).Some?
    ensures ReadField(f, WriteField(f, v).value + rest) == Some((Canonical(f, v), rest))
  {
    hide ReadRanged, Encode;
    match f
    case U32Field => RangedBack(false, 32, 64, v.n, 0, MAX_U32, rest);
    case U7Field => RangedBack(false, 7, 8, v.n, 0, 127, rest);
    case S32Field => RangedBack(true, 32, 32, v.n, -INT32_BOUND, INT32_BOUND - 1, rest);
    case S64Field => RangedBack(true, 64, 64, v.n, -INT64_BOUND, INT64_BOUND - 1, rest);
    case OctetField => assert ([v.n] + rest)[1..] == rest;
    case ZeroField => assert ([0] + rest)[1..] == rest;
    case TypeField =>
      RangedBack(true, 7, 8, EncodeType(v.t).value, -64, 63, rest);
    case BlockField =>
      RangedBack(true, 32, 64, EncodeBlockType(v.bt).value, -INT32_BOUND, INT32_BOUND - 1, rest);
  }

  // ----- several fields -----

  predicate HaveKinds(fs: seq<Field>, vs: seq<Value>) {
    |fs| == |vs| && forall i :: 0 <= i < |fs| ==> HasKind(fs[i], vs[i])
  }

  function WriteFields(fs: seq<Field>, vs: seq<Value>): Option<seq<Byte>>
    requires HaveKinds(fs, vs)
  {
    if fs == [] then Some([])
    else
      var first :- WriteField(fs[0], vs[0]);
      var others :- WriteFields(fs[1..], vs[1..]);
      Some(first + others)
  }

  function ReadFields(fs: seq<Field>, s: seq<Byte>): (r: Option<(seq<Value>, seq<Byte>)>)
    ensures r.Some? ==> |r.value.0| == |fs| && |r.value.1| <= |s|
  {
    if fs == [] then Some(([], s))
    else
      var first :- ReadField(fs[0], s);
      var others :- ReadFields(fs[1..], first.1);
      Some(([first.0] + others.0, others.1))
  }

  function Canonicals(fs: seq<Field>, vs: seq<Value>): seq<Value>
    requires |fs| == |vs|
  {
    seq(|fs|, i requires 0 <= i < |fs| => Canonical(fs[i], vs[i]))
  }

  lemma {:induction false} FieldsBack(fs: seq<Field>, vs: seq<Value>, rest: seq<Byte>)
    requires HaveKinds(fs, vs) && WriteFields(fs, vs).Some?
    ensures ReadFields(fs, WriteFields(fs, vs).value + rest) == Some((Canonicals(fs, vs), rest))
  {
    hide WriteField, ReadField;
    if fs == [] {
      assert [] + rest == rest;
    } else {
      var first, others := WriteField(fs[0], vs[0]).value, WriteFields(fs[1..], vs[1..]).value;
      assert first + others + rest == first + (others + rest);
      FieldBack(fs[0], vs[0], others + rest);
      FieldsBack(fs[1..], vs[1..], rest);
      assert Canonicals(fs, vs) == [Canonical(fs[0], vs[0])] + Canonicals(fs[1..], vs[1..]);
    }
  }
}
