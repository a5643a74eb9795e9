/** Whatever was read can be written, in no more bytes than it was read from. Encodings may be longer
    than they need to be, counts and flags may be redundant, and adjacent sets of locals may be of one
    type; the writer only ever shortens them. */
module BinaryRewrite {
  import opened Wrappers
  import opened IR
  import opened Varints
  import opened BinaryFields
  import opened BinaryBody
  import opened BinaryCode
  import opened BinaryEntities

  /** What `read` took from the stream, `write` can put back in no more room. */
  ghost predicate Rewrites<T(!new)>(write: Writer<T>, read: Reader<T>) {
    forall s :: read(s).Some? ==> Refits(write(read(s).value.0), s, read(s).value.1)
  }

  /** The bytes fit in front of the rest of the stream. */
  ghost predicate Refits(bytes: Option<seq<Byte>>, s: seq<Byte>, rest: seq<Byte>) {
    bytes.Some? && |bytes.value| + |rest| <= |s|
  }

  // ----- fields -----

  lemma RangedFits(s: seq<Byte>, signed: bool, bits: nat, width: nat, min: int, max: int)
    requires bits > 0 && width in {8, 32, 64} && (signed || min >= 0)
    requires ReadRanged(s, signed, bits, width, min, max).Some?
    ensures var r := ReadRanged(s, signed, bits, width, min, max).value; Refits(Ranged(signed, r.0, min, max), s, r.1)
  {
    hide ReadVarInt, Encode;
    NoLonger(s, 0, signed, bits, width, min, max);
  }

  lemma U32Fits(s: seq<Byte>)
    requires ReadU32(s).Some?
    ensures Refits(WriteU32(ReadU32(s).value.0), s, ReadU32(s).value.1)
  {
    hide ReadRanged, Ranged;
    RangedFits(s, false, 32, 64, 0, MAX_U32);
  }

  lemma FieldFits(f: Field, s: seq<Byte>)
    requires ReadField(f, s).Some?
    ensures var r := ReadField(f, s).value; HasKind(f, r.0) && Refits(WriteField(f, r.0), s, r.1)
  {
    hide ReadRanged, Ranged;
    match f {
      case U32Field => RangedFits(s, false, 32, 64, 0, MAX_U32);
      case U7Field => RangedFits(s, false, 7, 8, 0, 127);
      case S32Field => RangedFits(s, true, 32, 32, -INT32_BOUND, INT32_BOUND - 1);
      case S64Field => RangedFits(s, true, 64, 64, -INT64_BOUND, INT64_BOUND - 1);
      case OctetField =>
      case ZeroField =>
      case TypeField => RangedFits(s, true, 7, 8, -64, 63);
      case BlockField => RangedFits(s, true, 32, 64, -INT32_BOUND, INT32_BOUND - 1);
    }
  }

  lemma {:induction false} FieldsFit(fs: seq<Field>, s: seq<Byte>)
    requires ReadFields(fs, s).Some?
    ensures var r := ReadFields(fs, s).value; HaveKinds(fs, r.0) && Refits(WriteFields(fs, r.0), s, r.1)
  {
    hide ReadField, WriteField;
    if fs != [] {
      var first := ReadField(fs[0], s).value;
      FieldFits(fs[0], s);
      FieldsFit(fs[1..], first.1);
      var others := ReadFields(fs[1..], first.1).value.0;
      assert ([first.0] + others)[1..] == others;
      assert forall i :: 0 < i < |fs| ==> fs[i] == fs[1..][i - 1];
    }
  }

  // ----- operators -----

  lemma OpcodeFits(s: seq<Byte>)
    requires ReadOpcode(s).Some?
    ensures var r := ReadOpcode(s).value; r.0 < 0x1_0000 && Refits(Some(WriteOpcode(r.0)), s, r.1)
  {
    hide ReadRanged, Encode;
    if s[0] > MAX_SINGLE_BYTE_OPCODE {
      RangedFits(s[1..], false, 8, 8, 0, 255);
      var low := ReadRanged(s[1..], false, 8, 8, 0, 255).value.0;
      assert (s[0] * 256 + low) / 256 == s[0] && (s[0] * 256 + low) % 256 == low;
    }
  }

  lemma {:induction false} DepthsFit(n: nat, s: seq<Byte>)
    requires ReadDepths(n, s).Some?
    ensures Refits(WriteDepths(ReadDepths(n, s).value.0), s, ReadDepths(n, s).value.1)
  {
    hide ReadU32, WriteU32;
    if n > 0 {
      var first := ReadU32(s).value;
      U32Fits(s);
      DepthsFit(n - 1, first.1);
      var others := ReadDepths(n - 1, first.1).value.0;
      assert ([first.0] + others)[1..] == others;
    }
  }

  lemma ArrayFits(s: seq<Byte>)
    requires ReadArray(s).Some?
    ensures Refits(WriteArray(ReadArray(s).value.0), s, ReadArray(s).value.1)
  {
    hide ReadU32, WriteU32, ReadDepths, WriteDepths;
    var n := ReadU32(s).value;
    U32Fits(s);
    DepthsFit(n.0, n.1);
  }

  lemma LeadFits(c: ImmClass, s: seq<Byte>, done: seq<seq<nat>>, op: Operator, all: seq<seq<nat>>)
    requires ReadLead(c, s, done).Some? && ReadLead(c, s, done).value.0 <= all
    requires op.branchTable == if c.BranchTableImm? then |done| else 0
    ensures (c.BranchTableImm? ==> op.branchTable < |all|) && Refits(WriteLead(c, op, all), s, ReadLead(c, s, done).value.1)
  {
    hide ReadArray, WriteArray, ReadU32, WriteU32;
    if c.BranchTableImm? {
      ArrayFits(s);
      var after := ReadLead(c, s, done).value.0;
      assert after[|done|] == all[|done|];
    } else if c.SelectImm? {
      U32Fits(s);
    }
  }

  lemma OperatorFits(table: OpTable, s: seq<Byte>, done: seq<seq<nat>>, count: Option<nat>, all: seq<seq<nat>>)
    requires TableOk(table) && ReadOperator(table, s, done, count).Some?
    requires ReadOperator(table, s, done, count).value.1 <= all
    ensures var r := ReadOperator(table, s, done, count).value;
            OperatorOk(table, r.0, |all|) && Refits(WriteOperator(table, r.0, all), s, r.2)
  {
    hide ReadOpcode, WriteOpcode, ReadLead, WriteLead, ReadFields, WriteFields, Fields, TableOk;
    OperatorRead(table, s, done, count, all);
    var r, o := ReadOperator(table, s, done, count).value, ReadOpcode(s).value;
    OpcodeFits(s);
    if o.0 == UNTYPED_SELECT {
      assert IsUntypedSelect(r.0);
      OneByte();
    } else {
      var c := ClassOf(table, o.0).value;
      var lead := ReadLead(c, o.1, done).value;
      LeadFits(c, o.1, done, r.0, all);
      FieldsFit(Fields(c), lead.1);
      assert IsUntypedSelect(r.0) ==> o.0 == SELECT && |WriteOpcode(SELECT)| == |WriteOpcode(UNTYPED_SELECT)| by { OneByte(); }
    }
  }

  lemma OneByte()
    ensures |WriteOpcode(SELECT)| == |WriteOpcode(UNTYPED_SELECT)| == 1
  {
  }

  lemma {:induction false} OperatorsFit(table: OpTable, s: seq<Byte>, done: seq<seq<nat>>, count: Option<nat>,
      ops: seq<Operator>, all: seq<seq<nat>>)
    requires TableOk(table) && ReadOperators(table, s, done, count) == Some((ops, all))
    ensures AllOperatorsOk(table, ops, |all|) && Refits(WriteOperators(table, ops, all), s, [])
    decreases |s|
  {
    hide ReadOperator, WriteOperator, TableOk, OperatorOk;
    if s != [] {
      var first := ReadOperator(table, s, done, count).value;
      ReadExtends(table, first.2, first.1, count);
      OperatorFits(table, s, done, count, all);
      OperatorsFit(table, first.2, first.1, count, ops[1..], all);
      assert forall i :: 0 < i < |ops| ==> ops[i] == ops[1..][i - 1];
    }
  }

  // ----- locals -----

  function SetSize(l: LocalRun): nat {
    Length(l.num) + 1
  }

  function SetsSize(sets: seq<LocalRun>): nat {
    if sets == [] then 0 else SetSize(sets[0]) + SetsSize(sets[1..])
  }

  lemma {:induction false} SetsSizeSum(a: seq<LocalRun>, b: seq<LocalRun>)
    ensures SetsSize(a + b) == SetsSize(a) + SetsSize(b)
  {
    if a == [] {
      assert a + b == b;
    } else {
      assert (a + b)[1..] == a[1..] + b;
      SetsSizeSum(a[1..], b);
    }
  }

  /** A further set at the end costs no more than itself: it is joined to the last one, or is new. */
  lemma {:induction false} RunsGrow(locals: seq<ValueType>, t: ValueType, num: nat, n: nat, u: ValueType)
    requires !u.AnyType?
    ensures var more := RunsFrom(locals + Repeat(n, u), t, num);
            && SetsSize(more) <= SetsSize(RunsFrom(locals, t, num)) + SetSize(LocalRun(n, u))
            && |more| <= |RunsFrom(locals, t, num)| + 1
    decreases |locals|
  {
    hide SetsSize, SetSize;
    if locals == [] {
      assert locals + Repeat(n, u) == Repeat(n, u);
      OneMoreRun(t, num, n, u);
    } else {
      assert (locals + Repeat(n, u))[1..] == locals[1..] + Repeat(n, u);
      if locals[0] == t {
        RunsGrow(locals[1..], t, num + 1, n, u);
      } else {
        RunsGrow(locals[1..], locals[0], 1, n, u);
        SetsSizeSum(Open(t, num), RunsFrom(locals[1..], locals[0], 1));
        SetsSizeSum(Open(t, num), RunsFrom(locals[1..] + Repeat(n, u), locals[0], 1));
      }
    }
  }

  lemma OneMoreRun(t: ValueType, num: nat, n: nat, u: ValueType)
    requires !u.AnyType?
    ensures var more := RunsFrom(Repeat(n, u), t, num);
            SetsSize(more) <= SetsSize(Open(t, num)) + SetSize(LocalRun(n, u)) && |more| <= |Open(t, num)| + 1
  {
    hide Length;
    if n > 0 {
      assert Repeat(n, u)[1..] == Repeat(n - 1, u);
      assert Repeat(n, u) + [] == Repeat(n, u) && Repeat(n - 1, u) + [] == Repeat(n - 1, u);
      if u == t {
        RunsOfRepeat(n, u, [], num);
        LengthSum(num, n);
      } else {
        RunsOfRepeat(n - 1, u, [], 1);
        assert RunsFrom(Repeat(n, u), t, num) == Open(t, num) + [LocalRun(n, u)];
        SetsSizeSum(Open(t, num), [LocalRun(n, u)]);
      }
    }
  }

  lemma SetFits(s: seq<Byte>)
    requires ReadSet(s).Some?
    ensures var r := ReadSet(s).value; !r.0.t.AnyType? && SetSize(r.0) + |r.1| <= |s|
  {
    hide ReadFields, WriteFields;
    FieldsFit(SET_FIELDS, s);
    var vs := ReadFields(SET_FIELDS, s).value.0;
    SecondWritten(vs);
    SetBytes(vs);
  }

  lemma TwoFields(vs: seq<Value>)
    requires HaveKinds(SET_FIELDS, vs)
    ensures var first, second := WriteField(U32Field, vs[0]), WriteField(TypeField, vs[1]);
            WriteFields(SET_FIELDS, vs)
            == if first.Some? && second.Some? then Some(first.value + second.value) else None
  {
    hide WriteField;
    assert SET_FIELDS[1..] == [TypeField] && vs[1..] == [vs[1]];
    assert [TypeField][1..] == [] && [vs[1]][1..] == [];
    LastField(vs[1]);
  }

  lemma LastField(v: Value)
    requires HasKind(TypeField, v)
    ensures WriteFields([TypeField], [v]) == WriteField(TypeField, v)
  {
    hide WriteField;
    assert [TypeField][1..] == [] && [v][1..] == [];
    assert WriteFields([], []) == Some([]);
    if WriteField(TypeField, v).Some? {
      assert WriteField(TypeField, v).value + [] == WriteField(TypeField, v).value;
    }
  }

  lemma SetBytes(vs: seq<Value>)
    requires HaveKinds(SET_FIELDS, vs) && WriteFields(SET_FIELDS, vs).Some? && vs[0].n >= 0
    ensures |WriteFields(SET_FIELDS, vs).value| == Length(vs[0].n) + 1
  {
    hide WriteFields;
    TwoFields(vs);
    assert |WriteField(TypeField, vs[1]).value| == 1;
  }

  lemma {:induction false} LocalsFit(n: nat, s: seq<Byte>, locals: seq<ValueType>, maxLocals: nat)
    requires ReadLocals(n, s, locals, maxLocals).Some?
    ensures var r := ReadLocals(n, s, locals, maxLocals).value;
            && SetsSize(Runs(r.0)) + |r.1| <= SetsSize(Runs(locals)) + |s|
            && |Runs(r.0)| <= |Runs(locals)| + n
    decreases n
  {
    hide ReadSet, SetSize, SetsSize;
    if n > 0 {
      var r := ReadSet(s).value;
      SetFits(s);
      RunsGrow(locals, AnyType, 0, r.0.num, r.0.t);
      LocalsFit(n - 1, r.1, locals + Repeat(r.0.num, r.0.t), maxLocals);
    }
  }

  /** The one thing about a body that was read that may keep it from being written: a run of locals
      whose length is no longer a 32-bit number. */
  predicate RunsFit(locals: seq<ValueType>) {
    forall i :: 0 <= i < |Runs(locals)| ==> Runs(locals)[i].num <= MAX_U32
  }

  lemma {:induction false} SetsWritten(sets: seq<LocalRun>)
    requires forall i :: 0 <= i < |sets| ==> EncodeType(sets[i].t).Some?
    ensures WriteSets(sets).Some? <==> forall i :: 0 <= i < |sets| ==> sets[i].num <= MAX_U32
    ensures WriteSets(sets).Some? ==> |WriteSets(sets).value| == SetsSize(sets)
  {
    hide WriteFields, EncodeType, Length;
    if sets != [] {
      SetsWritten(sets[1..]);
      SetWritten(sets[0]);
      assert forall i :: 0 < i < |sets| ==> sets[i] == sets[1..][i - 1];
    }
  }

  lemma SetWritten(l: LocalRun)
    requires EncodeType(l.t).Some?
    ensures var bytes := WriteFields(SET_FIELDS, [Number(l.num), OfType(l.t)]);
            (bytes.Some? <==> l.num <= MAX_U32) && (bytes.Some? ==> |bytes.value| == SetSize(l))
  {
    hide Length, WriteFields;
    var vs := [Number(l.num), OfType(l.t)];
    TwoFields(vs);
    if WriteFields(SET_FIELDS, vs).Some? {
      SetBytes(vs);
    }
  }

  lemma {:induction false} RunsEncodable(locals: seq<ValueType>, t: ValueType, num: nat)
    requires Encodable(locals) && (t.AnyType? || EncodeType(t).Some?)
    ensures forall i :: 0 <= i < |RunsFrom(locals, t, num)| ==> EncodeType(RunsFrom(locals, t, num)[i].t).Some?
  {
    hide EncodeType;
    if locals != [] {
      assert EncodeType(locals[0]).Some? && Encodable(locals[1..]);
      RunsEncodable(locals[1..], locals[0], if locals[0] == t then num + 1 else 1);
    }
  }

  /** A body that was read can be written exactly if its runs fit, and then in no more room. */
  lemma ContentFits(table: OpTable, s: seq<Byte>, maxLocals: nat, count: Option<nat>, accepts: Acceptor)
    requires TableOk(table) && ReadContent(table, s, maxLocals, count, accepts).Some?
    ensures var body := ReadContent(table, s, maxLocals, count, accepts).value;
            && BodyOk(table, body) && (WriteContent(table, body).Some? <==> RunsFit(body.locals))
            && (RunsFit(body.locals) ==> |WriteContent(table, body).value| <= |s|)
  {
    hide ReadU32, WriteU32, ReadLocals, ReadOperators, WriteOperators, WriteSets, TableOk, EncodeType, Runs, SetsSize;
    var body := ReadContent(table, s, maxLocals, count, accepts).value;
    var n := ReadU32(s).value;
    var l := ReadLocals(n.0, n.1, [], maxLocals).value;
    U32Fits(s);
    LocalsRead(n.0, n.1, [], maxLocals);
    LocalsFit(n.0, n.1, [], maxLocals);
    NoRuns();
    OperatorsFit(table, l.1, [], count, body.ops, body.tables);
    RunsOfEncodable(body.locals);
    SetsWritten(Runs(body.locals));
    CountFits(|Runs(body.locals)|, n.0);
  }

  lemma NoRuns()
    ensures Runs([]) == [] && SetsSize([]) == 0
  {
  }

  lemma RunsOfEncodable(locals: seq<ValueType>)
    requires Encodable(locals)
    ensures forall i :: 0 <= i < |Runs(locals)| ==> EncodeType(Runs(locals)[i].t).Some?
  {
    RunsEncodable(locals, AnyType, 0);
  }

  lemma CountFits(m: nat, n: nat)
    requires m <= n <= MAX_U32
    ensures WriteU32(m).Some? && WriteU32(n).Some? && |WriteU32(m).value| <= |WriteU32(n).value|
  {
    hide EncodeUnsigned;
    LengthGrows(m, n);
  }

  /** Below 2^32 locals every run fits. */
  lemma FewLocalsFit(locals: seq<ValueType>)
    requires |locals| <= MAX_U32
    ensures RunsFit(locals)
  {
    RunsBounded(locals, AnyType, 0);
  }

  lemma {:induction false} RunsBounded(locals: seq<ValueType>, t: ValueType, num: nat)
    ensures forall i :: 0 <= i < |RunsFrom(locals, t, num)| ==> RunsFrom(locals, t, num)[i].num <= num + |locals|
  {
    if locals != [] {
      RunsBounded(locals[1..], locals[0], if locals[0] == t then num + 1 else 1);
    }
  }

  /** Two sets of 2^32 - 1 locals of one type can be read, but not written as one. */
  lemma LongRunUnwritable(t: ValueType)
    requires !t.AnyType?
    ensures var sets := [LocalRun(MAX_U32, t), LocalRun(MAX_U32, t)];
            (EncodeType(t).Some? ==> WriteSets(sets).Some?) && !RunsFit(Expand(sets))
  {
    var sets := [LocalRun(MAX_U32, t), LocalRun(MAX_U32, t)];
    if EncodeType(t).Some? {
      SetsWritten(sets);
    }
    JoinedRun(MAX_U32, t);
    assert Runs(Expand(sets))[0].num > MAX_U32;
  }

  lemma JoinedRun(n: nat, t: ValueType)
    requires !t.AnyType? && n > 0
    ensures Runs(Expand([LocalRun(n, t), LocalRun(n, t)])) == [LocalRun(n + n, t)]
  {
    var sets := [LocalRun(n, t), LocalRun(n, t)];
    assert sets[1..] == [LocalRun(n, t)] && sets[1..][1..] == [];
    ExpandNothing();
    assert Expand(sets[1..]) == Repeat(n, t) + Expand([]);
    assert Expand(sets) == Repeat(n + n, t) + [];
    assert (Repeat(n + n, t) + [])[1..] == Repeat(n + n - 1, t) + [];
    RunsOfRepeat(n + n - 1, t, [], 1);
  }

  lemma NamedAll(locals: seq<ValueType>)
    requires Encodable(locals)
    ensures Named(locals) == locals
  {
    assert AnyType !in locals;
  }

  /** For every input: a body that was read is written, in no more room, exactly if its runs fit; and
      then it is read again as itself. */
  lemma ReadWriteRead(table: OpTable, s: seq<Byte>, maxLocals: nat, count: Option<nat>, accepts: Acceptor)
    requires TableOk(table) && ReadContent(table, s, maxLocals, count, accepts).Some?
    ensures var body := ReadContent(table, s, maxLocals, count, accepts).value;
            && BodyOk(table, body) && (WriteContent(table, body).Some? <==> RunsFit(body.locals))
            && (RunsFit(body.locals) ==>
                  && |WriteContent(table, body).value| <= |s|
                  && ReadContent(table, WriteContent(table, body).value, maxLocals, count, accepts) == Some(body))
  {
    hide ReadU32, WriteContent, ReadLocals, ReadOperators, WriteOperators, Renumbered, SegmentsKnown, TableOk,
         EncodeType,
         RunsFit, Named;
    ContentFits(table, s, maxLocals, count, accepts);
    var body := ReadContent(table, s, maxLocals, count, accepts).value;
    var n := ReadU32(s).value;
    var l := ReadLocals(n.0, n.1, [], maxLocals).value;
    LocalsRead(n.0, n.1, [], maxLocals);
    OperatorsRead(table, l.1, [], count, body.ops, body.tables);
    NamedAll(body.locals);
    if RunsFit(body.locals) {
      ContentBack(table, body, maxLocals, count, accepts);
    }
  }

  // ----- entities -----

  lemma {:induction false} AllFit<T(!new)>(write: Writer<T>, read: Reader<T>, n: nat, s: seq<Byte>)
    requires Rewrites(write, read) && ReadAll(read, n, s).Some?
    ensures var r := ReadAll(read, n, s).value; |r.0| == n && Refits(WriteAll(write, r.0), s, r.1)
    decreases n
  {
    if n > 0 {
      var first := read(s).value;
      AllFit(write, read, n - 1, first.1);
      var others := ReadAll(read, n - 1, first.1).value.0;
      assert ([first.0] + others)[1..] == others;
    }
  }

  lemma CountedFits<T(!new)>(write: Writer<T>, read: Reader<T>, s: seq<Byte>)
    requires Rewrites(write, read) && ReadCounted(read, s).Some?
    ensures var r := ReadCounted(read, s).value; Refits(WriteCounted(write, r.0), s, r.1)
  {
    hide ReadU32, WriteU32, Rewrites;
    U32Fits(s);
    AllFit(write, read, ReadU32(s).value.0, ReadU32(s).value.1);
  }

  lemma BytesFit(s: seq<Byte>)
    requires ReadBytes(s).Some?
    ensures Refits(WriteBytes(ReadBytes(s).value.0), s, ReadBytes(s).value.1)
  {
    hide ReadU32, WriteU32;
    U32Fits(s);
  }

  lemma U32Rewrites()
    ensures Rewrites(WriteU32, ReadNumberU32)
  {
    hide ReadU32, WriteU32;
    forall s | ReadNumberU32(s).Some? ensures Refits(WriteU32(ReadNumberU32(s).value.0), s, ReadNumberU32(s).value.1) {
      U32Fits(s);
    }
  }

  lemma TypeRewrites()
    ensures Rewrites(WriteType, ReadType)
  {
    hide ReadField, WriteField;
    forall s | ReadType(s).Some? ensures Refits(WriteType(ReadType(s).value.0), s, ReadType(s).value.1) {
      FieldFits(TypeField, s);
    }
  }

  lemma TupleRewrites()
    ensures Rewrites(WriteTuple, ReadTuple)
  {
    hide WriteCounted, ReadCounted;
    TypeRewrites();
    forall s | ReadTuple(s).Some? ensures Refits(WriteTuple(ReadTuple(s).value.0), s, ReadTuple(s).value.1) {
      CountedFits(WriteType, ReadType, s);
    }
  }

  lemma FuncTypeRewrites()
    ensures Rewrites(WriteFuncType, ReadFuncType)
  {
    hide WriteTuple, ReadTuple;
    TupleRewrites();
    forall s | ReadFuncType(s).Some? ensures Refits(WriteFuncType(ReadFuncType(s).value.0), s, ReadFuncType(s).value.1) {
      var params := ReadTuple(s[1..]).value;
      assert Refits(WriteTuple(params.0), s[1..], params.1);
    }
  }

  lemma LimitsRewrites()
    ensures Rewrites(WriteLimits, ReadLimits)
  {
    hide WriteU32, ReadU32, WriteLimits, ReadLimits;
    forall s | ReadLimits(s).Some? ensures Refits(WriteLimits(ReadLimits(s).value.0), s, ReadLimits(s).value.1) {
      LimitsFit(s);
    }
  }

  lemma LimitsFit(s: seq<Byte>)
    requires ReadLimits(s).Some?
    ensures Refits(WriteLimits(ReadLimits(s).value.0), s, ReadLimits(s).value.1)
  {
    hide WriteU32, ReadU32;
    var flags := ReadU32(s).value;
    U32Fits(s);
    U32Fits(flags.1);
    var min := ReadU32(flags.1).value;
    if flags.0 % 2 == 1 {
      U32Fits(min.1);
    }
    var l := ReadLimits(s).value.0;
    FlagsLess(flags.0, l);
    CountFits(Flags(l), flags.0);
  }

  /** Flags without a meaning are dropped. */
  lemma FlagsLess(flags: nat, l: Limits)
    requires l.max.Some? == (flags % 2 == 1) && l.isShared == (flags / 2 % 2 == 1)
    ensures Flags(l) <= flags
  {
  }

  lemma RefTypeFits(s: seq<Byte>)
    requires ReadRefType(s).Some?
    ensures Refits(Some([RefCode(ReadRefType(s).value.0)]), s, ReadRefType(s).value.1)
  {
  }

  lemma TableTypeRewrites()
    ensures Rewrites(WriteTableType, ReadTableType)
  {
    hide WriteLimits, ReadLimits, ReadRefType, RefCode;
    LimitsRewrites();
    forall s | ReadTableType(s).Some? ensures Refits(WriteTableType(ReadTableType(s).value.0), s, ReadTableType(s).value.1) {
      RefTypeFits(s);
      assert Refits(WriteLimits(ReadLimits(ReadRefType(s).value.1).value.0), ReadRefType(s).value.1, ReadTableType(s).value.1);
    }
  }

  lemma GlobalTypeRewrites()
    ensures Rewrites(WriteGlobalType, ReadGlobalType)
  {
    hide WriteType, ReadType, ReadRanged, Encode;
    TypeRewrites();
    forall s | ReadGlobalType(s).Some? ensures Refits(WriteGlobalType(ReadGlobalType(s).value.0), s, ReadGlobalType(s).value.1) {
      var t := ReadType(s).value;
      assert Refits(WriteType(t.0), s, t.1);
      RangedFits(t.1, false, 1, 8, 0, 1);
    }
  }

  lemma InitializerFits(s: seq<Byte>)
    requires ReadInitializer(s).Some?
    ensures Refits(WriteInitializer(ReadInitializer(s).value.0), s, ReadInitializer(s).value.1)
  {
    hide ReadOpcode, WriteOpcode, ReadFields, WriteFields;
    var o := ReadOpcode(s).value;
    OpcodeFits(s);
    FieldsFit(InitializerFields(o.0).value, o.1);
  }

  lemma GlobalRewrites()
    ensures Rewrites(WriteGlobal, ReadGlobal)
  {
    hide WriteGlobalType, ReadGlobalType, WriteInitializer, ReadInitializer;
    GlobalTypeRewrites();
    forall s | ReadGlobal(s).Some? ensures Refits(WriteGlobal(ReadGlobal(s).value.0), s, ReadGlobal(s).value.1) {
      var g := ReadGlobalType(s).value;
      assert Refits(WriteGlobalType(g.0), s, g.1);
      InitializerFits(g.1);
    }
  }

  lemma ExternTypeFits(code: Byte, s: seq<Byte>)
    requires ReadExternType(code, s).Some?
    ensures var r := ReadExternType(code, s).value; ExternCode(r.0) == code && Refits(WriteExternType(r.0), s, r.1)
  {
    hide WriteU32, ReadU32, WriteTableType, ReadTableType, WriteLimits, ReadLimits;
    hide WriteGlobalType, ReadGlobalType, WriteTuple, ReadTuple;
    if code == 0 {
      U32Fits(s);
    } else if code == 1 {
      TableTypeRewrites();
    } else if code == 2 {
      LimitsRewrites();
    } else if code == 3 {
      GlobalTypeRewrites();
    } else {
      TupleRewrites();
    }
  }

  lemma ImportRewrites()
    ensures Rewrites(WriteImport, ReadImport)
  {
    hide WriteBytes, ReadBytes, WriteExternType, ReadExternType, ExternCode;
    forall s | ReadImport(s).Some? ensures Refits(WriteImport(ReadImport(s).value.0), s, ReadImport(s).value.1) {
      var a := ReadBytes(s).value;
      var b := ReadBytes(a.1).value;
      BytesFit(s);
      BytesFit(a.1);
      ExternTypeFits(b.1[0], b.1[1..]);
    }
  }

  lemma ExportFits(isUtf8: Utf8, s: seq<Byte>)
    requires ReadExport(isUtf8, s).Some?
    ensures Refits(WriteExport(isUtf8, ReadExport(isUtf8, s).value.0), s, ReadExport(isUtf8, s).value.1)
  {
    hide WriteBytes, ReadBytes, WriteU32, ReadU32;
    BytesFit(s);
    U32Fits(ReadBytes(s).value.1[1..]);
  }

  lemma ExportRewrites(isUtf8: Utf8)
    ensures Rewrites(ExportWriter(isUtf8), ExportReader(isUtf8))
  {
    hide WriteExport, ReadExport;
    var write, read := ExportWriter(isUtf8), ExportReader(isUtf8);
    forall s | read(s).Some? ensures Refits(write(read(s).value.0), s, read(s).value.1) {
      ExportFits(isUtf8, s);
    }
  }

  lemma TargetFits(s: seq<Byte>)
    requires ReadTarget(s).Some?
    ensures Refits(WriteTarget(ReadTarget(s).value.0), s, ReadTarget(s).value.1)
  {
    hide ReadU32, WriteU32, WriteInitializer, ReadInitializer;
    var flags := ReadU32(s).value;
    U32Fits(s);
    FlagByte(flags.0);
    if flags.0 == 0 {
      InitializerFits(flags.1);
    } else if flags.0 == 2 {
      U32Fits(flags.1);
      InitializerFits(ReadU32(flags.1).value.1);
    }
  }

  lemma FlagByte(v: nat)
    requires WriteU32(v).Some?
    ensures |WriteU32(v).value| >= 1
  {
  }

  lemma DataRewrites()
    ensures Rewrites(WriteData, ReadData)
  {
    hide WriteTarget, ReadTarget, WriteBytes, ReadBytes;
    forall s | ReadData(s).Some? ensures Refits(WriteData(ReadData(s).value.0), s, ReadData(s).value.1) {
      TargetFits(s);
      BytesFit(ReadTarget(s).value.1);
    }
  }

  lemma ElemRewrites()
    ensures Rewrites(WriteElem, ReadElem)
  {
    hide ReadOpcode, WriteOpcode, WriteU32, ReadU32;
    forall s | ReadElem(s).Some? ensures Refits(WriteElem(ReadElem(s).value.0), s, ReadElem(s).value.1) {
      var o := ReadOpcode(s).value;
      if o.0 == REF_FUNC {
        U32Fits(o.1);
      }
    }
  }

  lemma ActiveElemsFit(s: seq<Byte>)
    requires ReadElems(s).Some? && ReadTarget(s).value.0.Some?
    ensures Refits(WriteElems(ReadElems(s).value.0), s, ReadElems(s).value.1)
  {
    hide WriteTarget, ReadTarget, WriteCounted, ReadCounted, WriteU32, ReadNumberU32, Rewrites;
    TargetFits(s);
    U32Rewrites();
    CountedFits(WriteU32, ReadNumberU32, ReadTarget(s).value.1);
  }

  lemma PassiveElemsFit(s: seq<Byte>)
    requires ReadElems(s).Some? && ReadTarget(s).value.0.None?
    ensures Refits(WriteElems(ReadElems(s).value.0), s, ReadElems(s).value.1)
  {
    hide WriteTarget, ReadTarget, WriteCounted, ReadCounted, ReadRefType, RefCode, WriteElem, ReadElem, Rewrites;
    TargetFits(s);
    RefTypeFits(ReadTarget(s).value.1);
    ElemRewrites();
    CountedFits(WriteElem, ReadElem, ReadRefType(ReadTarget(s).value.1).value.1);
  }

  lemma ElemsRewrites()
    ensures Rewrites(WriteElems, ReadElems)
  {
    hide WriteElems, ReadElems, ReadTarget;
    forall s | ReadElems(s).Some? ensures Refits(WriteElems(ReadElems(s).value.0), s, ReadElems(s).value.1) {
      assert ReadTarget(s).Some? by { ElemsTarget(s); }
      if ReadTarget(s).value.0.Some? {
        ActiveElemsFit(s);
      } else {
        PassiveElemsFit(s);
      }
    }
  }

  lemma ElemsTarget(s: seq<Byte>)
    requires ReadElems(s).Some?
    ensures ReadTarget(s).Some?
  {
    hide ReadTarget;
  }
}
