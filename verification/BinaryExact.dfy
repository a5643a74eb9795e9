/** The readers of the binary format accept exactly the encodings of the grammar, and the writers
    write such encodings. */
module BinaryExact {
  import opened Wrappers
  import opened IR
  import opened Varints
  import opened Leb
  import opened F = BinaryFields
  import opened BinaryBody
  import opened BinaryEntities
  import opened BinaryGrammar

  /** For every input: the reader returns an entity if and only if the input starts with an encoding of it. */
  ghost predicate Exact<T(!new)>(read: Reader<T>, g: Grammar<T>) {
    forall s, x, rest :: read(s) == Some((x, rest)) <==> g(s, x, rest)
  }

  // ----- values -----

  lemma RangedExact(s: seq<Byte>, signed: bool, bits: nat, width: nat, min: int, max: int, v: int, rest: seq<Byte>)
    requires Fits(signed, bits, width)
    ensures ReadRanged(s, signed, bits, width, min, max) == Some((v, rest))
       <==> IsLeb(s, signed, bits, v, rest) && min <= v <= max
  {
    hide ReadVarInt, IsInteger, Fits;
    if ReadRanged(s, signed, bits, width, min, max) == Some((v, rest)) {
      var n := ReadVarInt(s, 0, signed, bits, width, min, max).value.1;
      ReadIff(s, 0, signed, bits, width, min, max, v, n);
    }
    if IsLeb(s, signed, bits, v, rest) && min <= v <= max {
      var k :| 0 <= k <= |s| && IsInteger(s[..k], signed, bits, v) && s[k..] == rest;
      assert s[0..k] == s[..k];
      ReadIff(s, 0, signed, bits, width, min, max, v, k);
    }
  }

  /** The integers of a width are those between its bounds. */
  lemma LebBounds(s: seq<Byte>, signed: bool, bits: nat, v: int, rest: seq<Byte>)
    requires bits in {1, 7, 8, 32, 64} && IsLeb(s, signed, bits, v, rest)
    ensures v < Bound(signed, bits) && if signed then 0 <= v + Bound(true, bits) else 0 <= v
  {
    hide IsInteger, Bound;
    var k :| 0 <= k <= |s| && IsInteger(s[..k], signed, bits, v) && s[k..] == rest;
    IntegerBound(signed, bits, s[..k], v);
  }

  lemma U32Exact(s: seq<Byte>, v: nat, rest: seq<Byte>)
    ensures ReadU32(s) == Some((v, rest)) <==> IsU32(s, v, rest)
  {
    hide ReadRanged, IsLeb, Bound;
    RangedExact(s, false, 32, 64, 0, MAX_U32, v, rest);
    BoundValues();
    if IsU32(s, v, rest) {
      LebBounds(s, false, 32, v, rest);
    }
    if ReadU32(s) == Some((v, rest)) {
      assert ReadRanged(s, false, 32, 64, 0, MAX_U32) == Some((v, rest));
    }
  }

  lemma U32Positive(s: seq<Byte>, v: int, rest: seq<Byte>)
    requires IsU32(s, v, rest)
    ensures 0 <= v <= MAX_U32
  {
    hide IsLeb, Bound;
    BoundValues();
    LebBounds(s, false, 32, v, rest);
  }

  lemma BytesExact(s: seq<Byte>, bytes: seq<Byte>, rest: seq<Byte>)
    ensures ReadBytes(s) == Some((bytes, rest)) <==> IsBytes(s, bytes, rest)
  {
    hide ReadU32, IsU32;
    if ReadBytes(s) == Some((bytes, rest)) {
      var n := ReadU32(s).value;
      assert n.1 == bytes + rest;
      U32Exact(s, n.0, n.1);
    }
    if IsBytes(s, bytes, rest) {
      U32Exact(s, |bytes|, bytes + rest);
      assert (bytes + rest)[..|bytes|] == bytes && (bytes + rest)[|bytes|..] == rest;
    }
  }

  lemma NumberExact()
    ensures Exact(ReadNumberU32, IsU32)
  {
    hide ReadU32, IsU32;
    forall s, v, rest ensures ReadNumberU32(s) == Some((v, rest)) <==> IsU32(s, v, rest) {
      if v >= 0 {
        U32Exact(s, v, rest);
      } else if IsU32(s, v, rest) {
        U32Positive(s, v, rest);
      }
    }
  }

  // ----- vectors -----

  lemma {:induction false} ManyExact<T(!new)>(read: Reader<T>, g: Grammar<T>, n: nat, s: seq<Byte>, xs: seq<T>,
      rest: seq<Byte>)
    requires Exact(read, g)
    ensures ReadAll(read, n, s) == Some((xs, rest)) <==> n == |xs| && IsMany(g, s, xs, rest)
    decreases n
  {
    if n == 0 {
    } else {
      if ReadAll(read, n, s) == Some((xs, rest)) {
        var first := read(s).value;
        var others := ReadAll(read, n - 1, first.1).value;
        ManyExact(read, g, n - 1, first.1, others.0, rest);
        assert xs[1..] == others.0 && g(s, xs[0], first.1);
      }
      if n == |xs| && IsMany(g, s, xs, rest) {
        var r :| g(s, xs[0], r) && IsMany(g, r, xs[1..], rest);
        assert read(s) == Some((xs[0], r));
        ManyExact(read, g, n - 1, r, xs[1..], rest);
        assert [xs[0]] + xs[1..] == xs;
      }
    }
  }

  lemma VectorExact<T(!new)>(read: Reader<T>, g: Grammar<T>, s: seq<Byte>, xs: seq<T>, rest: seq<Byte>)
    requires Exact(read, g)
    ensures ReadCounted(read, s) == Some((xs, rest)) <==> IsVector(g, s, xs, rest)
  {
    hide ReadU32, IsU32, ReadAll, IsMany, Exact;
    if ReadCounted(read, s) == Some((xs, rest)) {
      var n := ReadU32(s).value;
      U32Exact(s, n.0, n.1);
      ManyExact(read, g, n.0, n.1, xs, rest);
    }
    if IsVector(g, s, xs, rest) {
      var r :| IsU32(s, |xs|, r) && IsMany(g, r, xs, rest);
      U32Exact(s, |xs|, r);
      ManyExact(read, g, |xs|, r, xs, rest);
    }
  }

  // ----- types -----

  /** A negative number of seven bits is one byte. */
  lemma SevenBits(s: seq<Byte>, v: int, rest: seq<Byte>)
    requires v < 0
    ensures IsLeb(s, true, 7, v, rest) <==> v >= -64 && IsByte(s, v + 128, rest)
  {
    if IsLeb(s, true, 7, v, rest) {
      var k :| 0 <= k <= |s| && IsInteger(s[..k], true, 7, v) && s[k..] == rest;
      assert s[..k] != [] && s[..k][0] == s[0];
    }
    if v >= -64 && IsByte(s, v + 128, rest) {
      assert s[..1] == [s[0]] && IsInteger(s[..1], true, 7, v);
    }
  }

  lemma TypeCodes(v: int, t: ValueType)
    ensures DecodeType(v) == Some(t) <==> -64 <= v < 0 && TypeByte(v + 128, t)
  {
  }

  lemma TypeFieldExact(s: seq<Byte>, t: ValueType, rest: seq<Byte>)
    ensures ReadField(TypeField, s) == Some((OfType(t), rest)) <==> IsType(s, t, rest)
  {
    hide ReadRanged, IsLeb, DecodeType, TypeByte, Fits;
    assert Fits(true, 7, 8) by { SevenFits(); }
    if ReadField(TypeField, s) == Some((OfType(t), rest)) {
      var v := ReadRanged(s, true, 7, 8, -64, 63).value.0;
      TypeCodes(v, t);
      RangedExact(s, true, 7, 8, -64, 63, v, rest);
      SevenBits(s, v, rest);
      assert 0 <= v + 128 < 128 && TypeByte(v + 128, t) && IsByte(s, v + 128, rest);
    }
    if IsType(s, t, rest) {
      var b :| 0 <= b < 128 && TypeByte(b, t) && IsByte(s, b, rest);
      TypeBytes(b, t);
      SevenBits(s, b - 128, rest);
      RangedExact(s, true, 7, 8, -64, 63, b - 128, rest);
      TypeCodes(b - 128, t);
    }
  }

  lemma SevenFits()
    ensures Fits(true, 7, 8)
  {
  }

  lemma TypeBytes(b: int, t: ValueType)
    requires TypeByte(b, t)
    ensures 64 <= b < 128
  {
  }

  lemma TypeExact()
    ensures Exact(ReadType, IsType)
  {
    hide ReadField, IsType;
    forall s, t, rest ensures ReadType(s) == Some((t, rest)) <==> IsType(s, t, rest) {
      TypeFieldExact(s, t, rest);
    }
  }

  lemma TupleExact()
    ensures Exact(ReadTuple, IsTuple)
  {
    hide ReadCounted, IsVector;
    TypeExact();
    forall s, ts, rest ensures ReadTuple(s) == Some((ts, rest)) <==> IsTuple(s, ts, rest) {
      VectorExact(ReadType, IsType, s, ts, rest);
    }
  }

  lemma FuncTypeExact()
    ensures Exact(ReadFuncType, IsFuncType)
  {
    hide ReadTuple, IsTuple;
    TupleExact();
    forall s, t, rest ensures ReadFuncType(s) == Some((t, rest)) <==> IsFuncType(s, t, rest) {
      if ReadFuncType(s) == Some((t, rest)) {
        var r := ReadTuple(s[1..]).value.1;
        assert IsTuple(s[1..], t.params, r) && IsTuple(r, t.results, rest);
      }
      if IsFuncType(s, t, rest) {
        var r :| IsTuple(s[1..], t.params, r) && IsTuple(r, t.results, rest);
        assert ReadTuple(s[1..]) == Some((t.params, r)) && ReadTuple(r) == Some((t.results, rest));
      }
    }
  }

  // ----- limits -----

  lemma LimitsRead(s: seq<Byte>, l: Limits, rest: seq<Byte>)
    requires ReadLimits(s) == Some((l, rest))
    ensures IsLimits(s, l, rest)
  {
    hide ReadU32, IsU32;
    var flags := ReadU32(s).value;
    var min := ReadU32(flags.1).value;
    U32Exact(s, flags.0, flags.1);
    U32Exact(flags.1, min.0, min.1);
    if l.max.Some? {
      U32Exact(min.1, l.max.value, rest);
    }
    assert IsU32(s, flags.0, flags.1) && IsU32(flags.1, l.min, min.1);
  }

  lemma LimitsAccepted(s: seq<Byte>, l: Limits, rest: seq<Byte>)
    requires IsLimits(s, l, rest)
    ensures ReadLimits(s) == Some((l, rest))
  {
    hide ReadU32, IsU32;
    var flags: nat, r, q :|
      && IsU32(s, flags, r) && IsU32(r, l.min, q)
      && (l.max.Some? <==> flags % 2 == 1) && (l.isShared <==> flags / 2 % 2 == 1)
      && match l.max case None => q == rest case Some(max) => IsU32(q, max, rest);
    U32Exact(s, flags, r);
    U32Exact(r, l.min, q);
    if l.max.Some? {
      U32Exact(q, l.max.value, rest);
    }
  }

  lemma LimitsExact()
    ensures Exact(ReadLimits, IsLimits)
  {
    hide ReadLimits, IsLimits;
    forall s, l, rest ensures ReadLimits(s) == Some((l, rest)) <==> IsLimits(s, l, rest) {
      if ReadLimits(s) == Some((l, rest)) {
        LimitsRead(s, l, rest);
      }
      if IsLimits(s, l, rest) {
        LimitsAccepted(s, l, rest);
      }
    }
  }

  lemma TableTypeExact()
    ensures Exact(ReadTableType, IsTableType)
  {
    hide ReadLimits, IsLimits;
    LimitsExact();
    forall s, t, rest ensures ReadTableType(s) == Some((t, rest)) <==> IsTableType(s, t, rest) {
    }
  }

  lemma BitExact(s: seq<Byte>, bit: int, rest: seq<Byte>)
    ensures ReadRanged(s, false, 1, 8, 0, 1) == Some((bit, rest)) <==> IsLeb(s, false, 1, bit, rest)
  {
    hide ReadRanged, IsLeb, Bound;
    RangedExact(s, false, 1, 8, 0, 1, bit, rest);
    BoundValues();
    if IsLeb(s, false, 1, bit, rest) {
      LebBounds(s, false, 1, bit, rest);
    }
  }

  lemma GlobalTypeExact()
    ensures Exact(ReadGlobalType, IsGlobalType)
  {
    hide ReadType, IsType, ReadRanged, IsLeb;
    TypeExact();
    forall s, g, rest ensures ReadGlobalType(s) == Some((g, rest)) <==> IsGlobalType(s, g, rest) {
      var bit := if g.isMutable then 1 else 0;
      if ReadGlobalType(s) == Some((g, rest)) {
        var r := ReadType(s).value.1;
        BitExact(r, ReadRanged(r, false, 1, 8, 0, 1).value.0, rest);
        assert IsType(s, g.t, r);
      }
      if IsGlobalType(s, g, rest) {
        var r :| IsType(s, g.t, r) && IsLeb(r, false, 1, bit, rest);
        assert ReadType(s) == Some((g.t, r));
        BitExact(r, bit, rest);
      }
    }
  }

  // ----- immediates -----

  lemma NumbersExact(s: seq<Byte>, v: int, rest: seq<Byte>)
    ensures ReadRanged(s, false, 32, 64, 0, MAX_U32) == Some((v, rest)) <==> IsLeb(s, false, 32, v, rest)
    ensures ReadRanged(s, false, 7, 8, 0, 127) == Some((v, rest)) <==> IsLeb(s, false, 7, v, rest)
    ensures ReadRanged(s, false, 8, 8, 0, 255) == Some((v, rest)) <==> IsLeb(s, false, 8, v, rest)
    ensures ReadRanged(s, true, 32, 32, -INT32_BOUND, INT32_BOUND - 1) == Some((v, rest)) <==> IsLeb(s, true, 32, v, rest)
    ensures ReadRanged(s, true, 32, 64, -INT32_BOUND, INT32_BOUND - 1) == Some((v, rest)) <==> IsLeb(s, true, 32, v, rest)
    ensures ReadRanged(s, true, 64, 64, -INT64_BOUND, INT64_BOUND - 1) == Some((v, rest)) <==> IsLeb(s, true, 64, v, rest)
  {
    hide ReadRanged, IsLeb, Bound;
    BoundValues();
    RangedExact(s, false, 32, 64, 0, MAX_U32, v, rest);
    RangedExact(s, false, 7, 8, 0, 127, v, rest);
    RangedExact(s, false, 8, 8, 0, 255, v, rest);
    RangedExact(s, true, 32, 32, -INT32_BOUND, INT32_BOUND - 1, v, rest);
    RangedExact(s, true, 32, 64, -INT32_BOUND, INT32_BOUND - 1, v, rest);
    RangedExact(s, true, 64, 64, -INT64_BOUND, INT64_BOUND - 1, v, rest);
    forall signed, bits: nat | bits in {1, 7, 8, 32, 64} && IsLeb(s, signed, bits, v, rest)
      ensures v < Bound(signed, bits) && if signed then 0 <= v + Bound(true, bits) else 0 <= v
    {
      LebBounds(s, signed, bits, v, rest);
    }
  }

  lemma BlockCodes(v: int, bt: BlockType)
    ensures DecodeBlockType(v) == Some(bt) <==> BlockNumber(v, bt)
  {
    hide DecodeType, TypeByte;
    if bt.OneResult? {
      TypeCodes(v, bt.resultType);
      if TypeByte(v + 128, bt.resultType) {
        TypeBytes(v + 128, bt.resultType);
      }
      NoTypeThere(bt.resultType);
    }
  }

  lemma NoTypeThere(t: ValueType)
    ensures !TypeByte(64, t)
  {
  }

  lemma BlockFieldExact(s: seq<Byte>, bt: BlockType, rest: seq<Byte>)
    ensures ReadField(BlockField, s) == Some((OfBlock(bt), rest)) <==> IsField(BlockField, s, OfBlock(bt), rest)
  {
    hide ReadRanged, IsLeb, DecodeBlockType, BlockNumber;
    if ReadField(BlockField, s) == Some((OfBlock(bt), rest)) {
      var n := ReadRanged(s, true, 32, 64, -INT32_BOUND, INT32_BOUND - 1).value.0;
      NumbersExact(s, n, rest);
      BlockCodes(n, bt);
    }
    if IsField(BlockField, s, OfBlock(bt), rest) {
      var n :| IsLeb(s, true, 32, n, rest) && BlockNumber(n, bt);
      NumbersExact(s, n, rest);
      BlockCodes(n, bt);
    }
  }

  lemma FieldExact(f: Field, s: seq<Byte>, v: Value, rest: seq<Byte>)
    ensures ReadField(f, s) == Some((v, rest)) <==> IsField(f, s, v, rest)
  {
    hide ReadRanged, IsLeb, DecodeType, DecodeBlockType, BlockNumber, IsType;
    match f
    case TypeField =>
      if v.OfType? {
        TypeFieldExact(s, v.t, rest);
      }
    case BlockField =>
      if v.OfBlock? {
        BlockFieldExact(s, v.bt, rest);
      }
    case _ =>
      if v.Number? {
        NumbersExact(s, v.n, rest);
      }
  }

  /** What is written for a field is an encoding of it. */
  lemma FieldWritten(f: Field, v: Value, rest: seq<Byte>)
    requires HasKind(f, v) && WriteField(f, v).Some?
    ensures IsField(f, WriteField(f, v).value + rest, Canonical(f, v), rest)
  {
    hide WriteField, ReadField, IsField;
    FieldBack(f, v, rest);
    FieldExact(f, WriteField(f, v).value + rest, Canonical(f, v), rest);
  }

  lemma {:induction false} FieldsExact(fs: seq<Field>, s: seq<Byte>, vs: seq<Value>, rest: seq<Byte>)
    ensures ReadFields(fs, s) == Some((vs, rest)) <==> IsFields(fs, s, vs, rest)
    decreases |fs|
  {
    hide ReadField, IsField;
    if fs != [] {
      if ReadFields(fs, s) == Some((vs, rest)) {
        var first := ReadField(fs[0], s).value;
        FieldExact(fs[0], s, first.0, first.1);
        FieldsExact(fs[1..], first.1, vs[1..], rest);
        assert vs == [first.0] + vs[1..];
      }
      if IsFields(fs, s, vs, rest) {
        var r :| IsField(fs[0], s, vs[0], r) && IsFields(fs[1..], r, vs[1..], rest);
        FieldExact(fs[0], s, vs[0], r);
        FieldsExact(fs[1..], r, vs[1..], rest);
        assert vs == [vs[0]] + vs[1..];
      }
    }
  }

  lemma OpcodeExact(s: seq<Byte>, opcode: nat, rest: seq<Byte>)
    ensures ReadOpcode(s) == Some((opcode, rest)) <==> IsOpcode(s, opcode, rest)
  {
    hide ReadRanged, IsLeb;
    if s != [] && s[0] > 0xdf {
      if ReadOpcode(s) == Some((opcode, rest)) {
        var low := ReadRanged(s[1..], false, 8, 8, 0, 255).value.0;
        NumbersExact(s[1..], low, rest);
        Halves(s[0], low, opcode);
      }
      if IsOpcode(s, opcode, rest) {
        NumbersExact(s[1..], opcode % 256, rest);
        Halves(s[0], opcode % 256, opcode);
      }
    }
  }

  lemma Halves(high: nat, low: nat, opcode: nat)
    requires low < 256
    ensures opcode == high * 256 + low <==> opcode / 256 == high && opcode % 256 == low
  {
  }

  // ----- initializers -----

  lemma ConstantsSame(opcode: nat)
    ensures InitializerFields(opcode) == ConstantFields(opcode)
  {
    assert forall n: nat :: Octets(n) == seq(n, _ => OctetField);
  }

  lemma InitializerExact()
    ensures Exact(ReadInitializer, IsInitializer)
  {
    hide ReadOpcode, IsOpcode, ReadFields, IsFields, InitializerFields, ConstantFields;
    forall s, i, rest ensures ReadInitializer(s) == Some((i, rest)) <==> IsInitializer(s, i, rest) {
      ConstantsSame(i.opcode);
      if ReadInitializer(s) == Some((i, rest)) {
        var o := ReadOpcode(s).value;
        var fields := ReadFields(InitializerFields(o.0).value, o.1).value;
        OpcodeExact(s, o.0, o.1);
        FieldsExact(ConstantFields(o.0).value, o.1, fields.0, fields.1);
        assert IsByte(fields.1, 0x0b, rest);
      }
      if IsInitializer(s, i, rest) {
        var fs := ConstantFields(i.opcode).value;
        var r, q :| IsOpcode(s, i.opcode, r) && IsFields(fs, r, i.values, q) && IsByte(q, 0x0b, rest);
        OpcodeExact(s, i.opcode, r);
        FieldsExact(fs, r, i.values, q);
      }
    }
  }

  lemma GlobalExact()
    ensures Exact(ReadGlobal, IsGlobal)
  {
    hide ReadGlobalType, IsGlobalType, ReadInitializer, IsInitializer;
    GlobalTypeExact();
    InitializerExact();
    forall s, d, rest ensures ReadGlobal(s) == Some((d, rest)) <==> IsGlobal(s, d, rest) {
      if ReadGlobal(s) == Some((d, rest)) {
        var r := ReadGlobalType(s).value.1;
        assert IsGlobalType(s, d.g, r) && IsInitializer(r, d.init, rest);
      }
      if IsGlobal(s, d, rest) {
        var r :| IsGlobalType(s, d.g, r) && IsInitializer(r, d.init, rest);
        assert ReadGlobalType(s) == Some((d.g, r)) && ReadInitializer(r) == Some((d.init, rest));
      }
    }
  }

  // ----- imports and exports -----

  lemma ExternExact(kind: Byte, s: seq<Byte>, e: ExternType, rest: seq<Byte>)
    ensures ReadExternType(kind, s) == Some((e, rest)) <==> IsExtern(kind, s, e, rest)
  {
    hide ReadU32, IsU32, ReadTableType, IsTableType, ReadLimits, IsLimits, ReadGlobalType, IsGlobalType, ReadTuple,
         IsTuple;
    match e
    case FunctionExtern(i) => U32Exact(s, i, rest);
    case TableExtern(_) => TableTypeExact();
    case MemoryExtern(_) => LimitsExact();
    case GlobalExtern(_) => GlobalTypeExact();
    case ExceptionExtern(_) => TupleExact();
  }

  lemma ImportExact()
    ensures Exact(ReadImport, IsImport)
  {
    hide ReadBytes, IsBytes, ReadExternType, IsExtern;
    forall s, i, rest ensures ReadImport(s) == Some((i, rest)) <==> IsImport(s, i, rest) {
      if ReadImport(s) == Some((i, rest)) {
        var r := ReadBytes(s).value.1;
        var q := ReadBytes(r).value.1;
        BytesExact(s, i.moduleName, r);
        BytesExact(r, i.exportName, q);
        ExternExact(q[0], q[1..], i.e, rest);
      }
      if IsImport(s, i, rest) {
        var r, q :|
          IsBytes(s, i.moduleName, r) && IsBytes(r, i.exportName, q) && q != [] && IsExtern(q[0], q[1..], i.e, rest);
        BytesExact(s, i.moduleName, r);
        BytesExact(r, i.exportName, q);
        ExternExact(q[0], q[1..], i.e, rest);
      }
    }
  }

  lemma ExportExact(isUtf8: Utf8)
    ensures forall s, e, rest :: ExportReader(isUtf8)(s) == Some((e, rest)) <==> IsExport(s, e, rest) && isUtf8(e.name)
  {
    hide ReadBytes, IsBytes, ReadU32, IsU32;
    var read := ExportReader(isUtf8);
    forall s, e, rest ensures read(s) == Some((e, rest)) <==> IsExport(s, e, rest) && isUtf8(e.name) {
      if read(s) == Some((e, rest)) {
        var r := ReadBytes(s).value.1;
        BytesExact(s, e.name, r);
        U32Exact(r[1..], e.index, rest);
      }
      if IsExport(s, e, rest) && isUtf8(e.name) {
        var r :| IsBytes(s, e.name, r) && r != [] && r[0] == e.kind && IsU32(r[1..], e.index, rest);
        BytesExact(s, e.name, r);
        U32Exact(r[1..], e.index, rest);
      }
    }
  }

  // ----- segments -----

  lemma TargetRead(s: seq<Byte>, t: Target, rest: seq<Byte>)
    requires ReadTarget(s) == Some((t, rest))
    ensures IsTarget(s, t, rest)
  {
    hide ReadU32, IsU32, ReadInitializer, IsInitializer;
    InitializerExact();
    var flags := ReadU32(s).value;
    U32Exact(s, flags.0, flags.1);
    if flags.0 == 0 {
      assert IsInitializer(flags.1, t.value.1, rest);
    } else if flags.0 == 2 {
      var i := ReadU32(flags.1).value;
      U32Exact(flags.1, i.0, i.1);
      assert IsInitializer(i.1, t.value.1, rest);
    }
  }

  lemma TargetAccepted(s: seq<Byte>, t: Target, rest: seq<Byte>)
    requires IsTarget(s, t, rest)
    ensures ReadTarget(s) == Some((t, rest))
  {
    hide ReadU32, IsU32, ReadInitializer, IsInitializer;
    InitializerExact();
    match t
    case None => U32Exact(s, 1, rest);
    case Some((index, base)) =>
      if index == 0 && exists r :: IsU32(s, 0, r) && IsInitializer(r, base, rest) {
        var r :| IsU32(s, 0, r) && IsInitializer(r, base, rest);
        U32Exact(s, 0, r);
        assert ReadInitializer(r) == Some((base, rest));
      } else {
        var r, q :| IsU32(s, 2, r) && IsU32(r, index, q) && IsInitializer(q, base, rest);
        U32Exact(s, 2, r);
        U32Exact(r, index, q);
        assert ReadInitializer(q) == Some((base, rest));
      }
  }

  lemma TargetExact(s: seq<Byte>, t: Target, rest: seq<Byte>)
    ensures ReadTarget(s) == Some((t, rest)) <==> IsTarget(s, t, rest)
  {
    hide ReadTarget, IsTarget;
    if ReadTarget(s) == Some((t, rest)) {
      TargetRead(s, t, rest);
    }
    if IsTarget(s, t, rest) {
      TargetAccepted(s, t, rest);
    }
  }

  lemma DataExact()
    ensures Exact(ReadData, IsData)
  {
    hide ReadTarget, IsTarget, ReadBytes, IsBytes;
    forall s, d, rest ensures ReadData(s) == Some((d, rest)) <==> IsData(s, d, rest) {
      if ReadData(s) == Some((d, rest)) {
        var r := ReadTarget(s).value.1;
        TargetExact(s, d.target, r);
        BytesExact(r, d.data, rest);
      }
      if IsData(s, d, rest) {
        var r :| IsTarget(s, d.target, r) && IsBytes(r, d.data, rest);
        TargetExact(s, d.target, r);
        BytesExact(r, d.data, rest);
      }
    }
  }

  lemma ElemExact()
    ensures Exact(ReadElem, IsElem)
  {
    hide ReadU32, IsU32;
    forall s, e, rest ensures ReadElem(s) == Some((e, rest)) <==> IsElem(s, e, rest) {
      if ReadElem(s) == Some((e, rest)) {
        ElemRead(s, e, rest);
      }
      if IsElem(s, e, rest) {
        ElemAccepted(s, e, rest);
      }
    }
  }

  lemma PrefixedAbove(s: seq<Byte>)
    requires ReadOpcode(s).Some? && s[0] > 0xdf
    ensures ReadOpcode(s).value.0 > 0xdf
  {
    hide ReadRanged;
  }

  lemma ElemRead(s: seq<Byte>, e: Elem, rest: seq<Byte>)
    requires ReadElem(s) == Some((e, rest))
    ensures IsElem(s, e, rest)
  {
    hide ReadU32, IsU32, ReadRanged;
    if s[0] > 0xdf {
      PrefixedAbove(s);
    }
    var r := ReadOpcode(s).value.1;
    match e
    case None => assert IsByte(s, 0xd0, r) && IsByte(r, 0x0b, rest);
    case Some(index) =>
      var q := ReadU32(r).value.1;
      U32Exact(r, index, q);
      assert IsByte(s, 0xd2, r) && IsByte(q, 0x0b, rest);
  }

  lemma ElemAccepted(s: seq<Byte>, e: Elem, rest: seq<Byte>)
    requires IsElem(s, e, rest)
    ensures ReadElem(s) == Some((e, rest))
  {
    hide ReadU32, IsU32, ReadRanged;
    if e.Some? {
      var r, q :| IsByte(s, 0xd2, r) && IsU32(r, e.value, q) && IsByte(q, 0x0b, rest);
      U32Exact(r, e.value, q);
    }
  }

  lemma ActiveExact(s: seq<Byte>, e: ElemSegment, rest: seq<Byte>)
    requires e.ActiveElems?
    ensures ReadElems(s) == Some((e, rest)) <==> IsElems(s, e, rest)
  {
    hide ReadTarget, IsTarget, ReadCounted, IsVector, ReadRefType, RefByte;
    NumberExact();
    var t: Target := Some((e.table, e.base));
    if ReadElems(s) == Some((e, rest)) {
      var r := ReadTarget(s).value.1;
      TargetExact(s, t, r);
      VectorExact(ReadNumberU32, IsU32, r, e.functions, rest);
    }
    if IsElems(s, e, rest) {
      var r :| IsTarget(s, t, r) && IsVector(IsU32, r, e.functions, rest);
      TargetExact(s, t, r);
      VectorExact(ReadNumberU32, IsU32, r, e.functions, rest);
    }
  }

  lemma PassiveExact(s: seq<Byte>, e: ElemSegment, rest: seq<Byte>)
    requires e.PassiveElems?
    ensures ReadElems(s) == Some((e, rest)) <==> IsElems(s, e, rest)
  {
    hide ReadTarget, IsTarget, ReadCounted, IsVector;
    ElemExact();
    if ReadElems(s) == Some((e, rest)) {
      var r := ReadTarget(s).value.1;
      TargetExact(s, None, r);
      VectorExact(ReadElem, IsElem, r[1..], e.elems, rest);
    }
    if IsElems(s, e, rest) {
      var r :| IsTarget(s, None, r) && r != [] && RefByte(r[0], e.element) && IsVector(IsElem, r[1..], e.elems, rest);
      TargetExact(s, None, r);
      VectorExact(ReadElem, IsElem, r[1..], e.elems, rest);
    }
  }

  lemma ElemsExact()
    ensures Exact(ReadElems, IsElems)
  {
    hide ReadElems, IsElems;
    forall s, e, rest ensures ReadElems(s) == Some((e, rest)) <==> IsElems(s, e, rest) {
      if e.ActiveElems? {
        ActiveExact(s, e, rest);
      } else {
        PassiveExact(s, e, rest);
      }
    }
  }
}
