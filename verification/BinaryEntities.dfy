/** The entities a module's sections are arrays of: function types, limits, tables, memories, globals,
    imports, exports, element and data segments. Each is read back as it was written. */
module BinaryEntities {
  import opened Wrappers
  import opened IR
  import opened Varints
  import opened BinaryFields
  import opened BinaryBody

  // ----- arrays -----

  type Writer<!T> = T -> Option<seq<Byte>>

  type Reader<!T> = seq<Byte> -> Option<(T, seq<Byte>)>

  /** Whatever is written is read back, and the rest of the stream is left. */
  ghost predicate Inverts<T(!new)>(write: Writer<T>, read: Reader<T>) {
    forall x, rest :: write(x).Some? ==> read(write(x).value + rest) == Some((x, rest))
  }

  function WriteAll<T>(write: Writer<T>, xs: seq<T>): Option<seq<Byte>> {
    if xs == [] then Some([])
    else
      var first :- write(xs[0]);
      var others :- WriteAll(write, xs[1..]);
      Some(first + others)
  }

  function ReadAll<T>(read: Reader<T>, n: nat, s: seq<Byte>): Option<(seq<T>, seq<Byte>)> {
    if n == 0 then Some(([], s))
    else
      var first :- read(s);
      var others :- ReadAll(read, n - 1, first.1);
      Some(([first.0] + others.0, others.1))
  }

  lemma {:induction false} AllBack<T(!new)>(write: Writer<T>, read: Reader<T>, xs: seq<T>, rest: seq<Byte>)
    requires Inverts(write, read) && WriteAll(write, xs).Some?
    ensures ReadAll(read, |xs|, WriteAll(write, xs).value + rest) == Some((xs, rest))
  {
    if xs == [] {
      assert [] + rest == rest;
    } else {
      var first, others := write(xs[0]).value, WriteAll(write, xs[1..]).value;
      assert first + others + rest == first + (others + rest);
      AllBack(write, read, xs[1..], rest);
      assert xs == [xs[0]] + xs[1..];
    }
  }

  function WriteCounted<T>(write: Writer<T>, xs: seq<T>): Option<seq<Byte>> {
    var n :- WriteU32(|xs|);
    var all :- WriteAll(write, xs);
    Some(n + all)
  }

  function ReadCounted<T>(read: Reader<T>, s: seq<Byte>): Option<(seq<T>, seq<Byte>)> {
    var n :- ReadU32(s);
    ReadAll(read, n.0, n.1)
  }

  lemma CountedBack<T(!new)>(write: Writer<T>, read: Reader<T>, xs: seq<T>, rest: seq<Byte>)
    requires Inverts(write, read) && WriteCounted(write, xs).Some?
    ensures ReadCounted(read, WriteCounted(write, xs).value + rest) == Some((xs, rest))
  {
    hide ReadU32, WriteU32, Inverts;
    var n, all := WriteU32(|xs|).value, WriteAll(write, xs).value;
    assert n + all + rest == n + (all + rest);
    U32Back(|xs|, all + rest);
    AllBack(write, read, xs, rest);
  }

  // ----- byte strings -----

  function WriteBytes(bytes: seq<Byte>): Option<seq<Byte>> {
    var n :- WriteU32(|bytes|);
    Some(n + bytes)
  }

  function ReadBytes(s: seq<Byte>): (r: Option<(seq<Byte>, seq<Byte>)>)
    ensures r.Some? ==> |r.value.1| <= |s|
  {
    var n :- ReadU32(s);
    if n.0 <= |n.1| then Some((n.1[..n.0], n.1[n.0..])) else None
  }

  lemma BytesBack(bytes: seq<Byte>, rest: seq<Byte>)
    requires WriteBytes(bytes).Some?
    ensures ReadBytes(WriteBytes(bytes).value + rest) == Some((bytes, rest))
  {
    hide ReadU32, WriteU32;
    var n := WriteU32(|bytes|).value;
    assert n + bytes + rest == n + (bytes + rest);
    U32Back(|bytes|, bytes + rest);
    assert (bytes + rest)[..|bytes|] == bytes && (bytes + rest)[|bytes|..] == rest;
  }

  // ----- numbers and types -----

  lemma U32Inverts()
    ensures Inverts(WriteU32, ReadNumberU32)
  {
    hide ReadU32, WriteU32;
    forall x: int, rest: seq<Byte> | WriteU32(x).Some? ensures ReadNumberU32(WriteU32(x).value + rest) == Some((x, rest)) {
      U32Back(x, rest);
    }
  }

  function ReadNumberU32(s: seq<Byte>): Option<(int, seq<Byte>)> {
    var r :- ReadU32(s);
    Some((r.0, r.1))
  }

  function WriteType(t: ValueType): Option<seq<Byte>> {
    WriteField(TypeField, OfType(t))
  }

  function ReadType(s: seq<Byte>): Option<(ValueType, seq<Byte>)> {
    var r :- ReadField(TypeField, s);
    if r.0.OfType? then Some((r.0.t, r.1)) else None
  }

  lemma TypeInverts()
    ensures Inverts(WriteType, ReadType)
  {
    hide ReadField, WriteField;
    forall t, rest | WriteType(t).Some? ensures ReadType(WriteType(t).value + rest) == Some((t, rest)) {
      FieldBack(TypeField, OfType(t), rest);
    }
  }

  /** A list of types with its length. */
  function WriteTuple(ts: seq<ValueType>): Option<seq<Byte>> {
    WriteCounted(WriteType, ts)
  }

  function ReadTuple(s: seq<Byte>): Option<(seq<ValueType>, seq<Byte>)> {
    ReadCounted(ReadType, s)
  }

  lemma TupleInverts()
    ensures Inverts(WriteTuple, ReadTuple)
  {
    hide WriteCounted, ReadCounted;
    TypeInverts();
    forall ts, rest | WriteTuple(ts).Some? ensures ReadTuple(WriteTuple(ts).value + rest) == Some((ts, rest)) {
      CountedBack(WriteType, ReadType, ts, rest);
    }
  }

  const FUNCTION_TAG: Byte := 0x60

  function WriteFuncType(t: FuncType): Option<seq<Byte>> {
    var params :- WriteTuple(t.params);
    var results :- WriteTuple(t.results);
    Some([FUNCTION_TAG] + (params + results))
  }

  function ReadFuncType(s: seq<Byte>): Option<(FuncType, seq<Byte>)> {
    if s == [] || s[0] != FUNCTION_TAG then None
    else
      var params :- ReadTuple(s[1..]);
      var results :- ReadTuple(params.1);
      Some((FuncType(params.0, results.0), results.1))
  }

  lemma FuncTypeInverts()
    ensures Inverts(WriteFuncType, ReadFuncType)
  {
    hide WriteTuple, ReadTuple;
    TupleInverts();
    forall t, rest | WriteFuncType(t).Some? ensures ReadFuncType(WriteFuncType(t).value + rest) == Some((t, rest)) {
      var params, results := WriteTuple(t.params).value, WriteTuple(t.results).value;
      assert ([FUNCTION_TAG] + (params + results) + rest)[1..] == params + (results + rest);
    }
  }

  // ----- limits -----

  /** The size of a table or memory. No maximum stands for the largest 64-bit number. */
  datatype Limits = Limits(min: nat, max: Option<nat>, isShared: bool)

  function Flags(l: Limits): nat {
    (if l.max.Some? then 1 else 0) + if l.isShared then 2 else 0
  }

  function WriteLimits(l: Limits): Option<seq<Byte>> {
    var flags :- WriteU32(Flags(l));
    var min :- WriteU32(l.min);
    if l.max.None? then Some(flags + min)
    else
      var max :- WriteU32(l.max.value);
      Some(flags + (min + max))
  }

  function ReadLimits(s: seq<Byte>): Option<(Limits, seq<Byte>)> {
    var flags :- ReadU32(s);
    var min :- ReadU32(flags.1);
    var isShared := flags.0 / 2 % 2 == 1;
    if flags.0 % 2 == 0 then Some((Limits(min.0, None, isShared), min.1))
    else
      var max :- ReadU32(min.1);
      Some((Limits(min.0, Some(max.0), isShared), max.1))
  }

  lemma LimitsInverts()
    ensures Inverts(WriteLimits, ReadLimits)
  {
    hide WriteU32, ReadU32;
    forall l, rest | WriteLimits(l).Some? ensures ReadLimits(WriteLimits(l).value + rest) == Some((l, rest)) {
      var flags, min := WriteU32(Flags(l)).value, WriteU32(l.min).value;
      if l.max.None? {
        assert flags + min + rest == flags + (min + rest);
        U32Back(Flags(l), min + rest);
        U32Back(l.min, rest);
      } else {
        var max := WriteU32(l.max.value).value;
        assert flags + (min + max) + rest == flags + (min + (max + rest));
        U32Back(Flags(l), min + (max + rest));
        U32Back(l.min, max + rest);
        U32Back(l.max.value, rest);
      }
    }
  }

  /** The element types of tables. */
  datatype RefType = FuncRef | AnyRef

  function RefCode(t: RefType): Byte {
    if t.FuncRef? then 0x70 else 0x6f
  }

  function ReadRefType(s: seq<Byte>): Option<(RefType, seq<Byte>)> {
    if s == [] then None
    else if s[0] == 0x70 then Some((FuncRef, s[1..]))
    else if s[0] == 0x6f then Some((AnyRef, s[1..]))
    else None
  }

  lemma RefTypeBack(t: RefType, rest: seq<Byte>)
    ensures ReadRefType([RefCode(t)] + rest) == Some((t, rest))
  {
    assert ([RefCode(t)] + rest)[1..] == rest;
  }

  datatype TableType = TableType(element: RefType, size: Limits)

  function WriteTableType(t: TableType): Option<seq<Byte>> {
    var size :- WriteLimits(t.size);
    Some([RefCode(t.element)] + size)
  }

  function ReadTableType(s: seq<Byte>): Option<(TableType, seq<Byte>)> {
    var element :- ReadRefType(s);
    var size :- ReadLimits(element.1);
    Some((TableType(element.0, size.0), size.1))
  }

  lemma TableTypeInverts()
    ensures Inverts(WriteTableType, ReadTableType)
  {
    hide WriteLimits, ReadLimits, ReadRefType, RefCode;
    LimitsInverts();
    forall t, rest | WriteTableType(t).Some? ensures ReadTableType(WriteTableType(t).value + rest) == Some((t, rest)) {
      var size := WriteLimits(t.size).value;
      assert [RefCode(t.element)] + size + rest == [RefCode(t.element)] + (size + rest);
      RefTypeBack(t.element, size + rest);
    }
  }

  datatype GlobalType = GlobalType(t: ValueType, isMutable: bool)

  function WriteGlobalType(g: GlobalType): Option<seq<Byte>> {
    var t :- WriteType(g.t);
    Some(t + Encode(false, if g.isMutable then 1 else 0))
  }

  function ReadGlobalType(s: seq<Byte>): Option<(GlobalType, seq<Byte>)> {
    var t :- ReadType(s);
    var m :- ReadRanged(t.1, false, 1, 8, 0, 1);
    Some((GlobalType(t.0, m.0 != 0), m.1))
  }

  lemma GlobalTypeInverts()
    ensures Inverts(WriteGlobalType, ReadGlobalType)
  {
    hide WriteType, ReadType, ReadRanged, Encode;
    TypeInverts();
    forall g, rest | WriteGlobalType(g).Some? ensures ReadGlobalType(WriteGlobalType(g).value + rest) == Some((g, rest)) {
      var t, v := WriteType(g.t).value, if g.isMutable then 1 else 0;
      assert t + Encode(false, v) + rest == t + (Encode(false, v) + rest);
      RangedBack(false, 1, 8, v, 0, 1, rest);
    }
  }

  // ----- initializers -----

  datatype Initializer = Initializer(opcode: nat, values: seq<Value>)

  const END: Byte := 0x0b

  function InitializerFields(opcode: nat): Option<seq<Field>> {
    if opcode == 0x41 then Some([S32Field])
    else if opcode == 0x42 then Some([S64Field])
    else if opcode == 0x43 then Some(Octets(4))
    else if opcode == 0x44 then Some(Octets(8))
    else if opcode == 0xfd02 then Some(Octets(16))
    else if opcode == 0x23 || opcode == 0xd2 then Some([U32Field])
    else if opcode == 0xd0 then Some([])
    else None
  }

  function WriteInitializer(i: Initializer): Option<seq<Byte>> {
    var fs :- InitializerFields(i.opcode);
    if !HaveKinds(fs, i.values) then None
    else
      var fields :- WriteFields(fs, i.values);
      Some(WriteOpcode(i.opcode) + (fields + [END]))
  }

  function ReadInitializer(s: seq<Byte>): Option<(Initializer, seq<Byte>)> {
    var o :- ReadOpcode(s);
    var fs :- InitializerFields(o.0);
    var fields :- ReadFields(fs, o.1);
    if fields.1 == [] || fields.1[0] != END then None else Some((Initializer(o.0, fields.0), fields.1[1..]))
  }

  lemma InitializerBack(i: Initializer, rest: seq<Byte>)
    requires WriteInitializer(i).Some?
    ensures ReadInitializer(WriteInitializer(i).value + rest) == Some((i, rest))
  {
    hide ReadOpcode, WriteOpcode, ReadFields, WriteFields;
    var fs := InitializerFields(i.opcode).value;
    var code, fields := WriteOpcode(i.opcode), WriteFields(fs, i.values).value;
    assert code + (fields + [END]) + rest == code + (fields + ([END] + rest));
    OpcodeBack(i.opcode, fields + ([END] + rest));
    FieldsBack(fs, i.values, [END] + rest);
    assert Canonicals(fs, i.values) == i.values;
    assert ([END] + rest)[1..] == rest;
  }

  lemma InitializerInverts()
    ensures Inverts(WriteInitializer, ReadInitializer)
  {
    hide WriteInitializer, ReadInitializer;
    forall i, rest | WriteInitializer(i).Some? ensures ReadInitializer(WriteInitializer(i).value + rest) == Some((i, rest)) {
      InitializerBack(i, rest);
    }
  }

  datatype GlobalDef = GlobalDef(g: GlobalType, init: Initializer)

  function WriteGlobal(d: GlobalDef): Option<seq<Byte>> {
    var g :- WriteGlobalType(d.g);
    var init :- WriteInitializer(d.init);
    Some(g + init)
  }

  function ReadGlobal(s: seq<Byte>): Option<(GlobalDef, seq<Byte>)> {
    var g :- ReadGlobalType(s);
    var init :- ReadInitializer(g.1);
    Some((GlobalDef(g.0, init.0), init.1))
  }

  lemma GlobalInverts()
    ensures Inverts(WriteGlobal, ReadGlobal)
  {
    hide WriteGlobalType, ReadGlobalType, WriteInitializer, ReadInitializer;
    GlobalTypeInverts();
    InitializerInverts();
    forall d, rest | WriteGlobal(d).Some? ensures ReadGlobal(WriteGlobal(d).value + rest) == Some((d, rest)) {
      var g, init := WriteGlobalType(d.g).value, WriteInitializer(d.init).value;
      assert g + init + rest == g + (init + rest);
    }
  }

  // ----- imports and exports -----

  datatype ExternType =
    | FunctionExtern(typeIndex: nat)
    | TableExtern(table: TableType)
    | MemoryExtern(memory: Limits)
    | GlobalExtern(g: GlobalType)
    | ExceptionExtern(params: seq<ValueType>)

  function ExternCode(e: ExternType): Byte {
    match e
    case FunctionExtern(_) => 0
    case TableExtern(_) => 1
    case MemoryExtern(_) => 2
    case GlobalExtern(_) => 3
    case ExceptionExtern(_) => 4
  }

  function WriteExternType(e: ExternType): Option<seq<Byte>> {
    match e
    case FunctionExtern(i) => WriteU32(i)
    case TableExtern(t) => WriteTableType(t)
    case MemoryExtern(m) => WriteLimits(m)
    case GlobalExtern(g) => WriteGlobalType(g)
    case ExceptionExtern(params) => WriteTuple(params)
  }

  function ReadExternType(code: Byte, s: seq<Byte>): Option<(ExternType, seq<Byte>)> {
    if code == 0 then (var r :- ReadU32(s); Some((FunctionExtern(r.0), r.1)))
    else if code == 1 then (var r :- ReadTableType(s); Some((TableExtern(r.0), r.1)))
    else if code == 2 then (var r :- ReadLimits(s); Some((MemoryExtern(r.0), r.1)))
    else if code == 3 then (var r :- ReadGlobalType(s); Some((GlobalExtern(r.0), r.1)))
    else if code == 4 then (var r :- ReadTuple(s); Some((ExceptionExtern(r.0), r.1)))
    else None
  }

  lemma ExternTypeBack(e: ExternType, rest: seq<Byte>)
    requires WriteExternType(e).Some?
    ensures ReadExternType(ExternCode(e), WriteExternType(e).value + rest) == Some((e, rest))
  {
    hide WriteU32, ReadU32, WriteTableType, ReadTableType, WriteLimits, ReadLimits;
    hide WriteGlobalType, ReadGlobalType, WriteTuple, ReadTuple;
    match e
    case FunctionExtern(i) => U32Back(i, rest);
    case TableExtern(_) => TableTypeInverts();
    case MemoryExtern(_) => LimitsInverts();
    case GlobalExtern(_) => GlobalTypeInverts();
    case ExceptionExtern(_) => TupleInverts();
  }

  datatype Import = Import(moduleName: seq<Byte>, exportName: seq<Byte>, e: ExternType)

  function WriteImport(i: Import): Option<seq<Byte>> {
    var moduleName :- WriteBytes(i.moduleName);
    var exportName :- WriteBytes(i.exportName);
    var e :- WriteExternType(i.e);
    Some(moduleName + (exportName + ([ExternCode(i.e)] + e)))
  }

  function ReadImport(s: seq<Byte>): Option<(Import, seq<Byte>)> {
    var moduleName :- ReadBytes(s);
    var exportName :- ReadBytes(moduleName.1);
    if exportName.1 == [] then None
    else
      var e :- ReadExternType(exportName.1[0], exportName.1[1..]);
      Some((Import(moduleName.0, exportName.0, e.0), e.1))
  }

  lemma ImportInverts()
    ensures Inverts(WriteImport, ReadImport)
  {
    hide WriteBytes, ReadBytes, WriteExternType, ReadExternType, ExternCode;
    forall i, rest | WriteImport(i).Some? ensures ReadImport(WriteImport(i).value + rest) == Some((i, rest)) {
      var a, b, e := WriteBytes(i.moduleName).value, WriteBytes(i.exportName).value, WriteExternType(i.e).value;
      var code := [ExternCode(i.e)];
      assert a + (b + (code + e)) + rest == a + (b + (code + (e + rest)));
      BytesBack(i.moduleName, b + (code + (e + rest)));
      BytesBack(i.exportName, code + (e + rest));
      assert (code + (e + rest))[1..] == e + rest;
      ExternTypeBack(i.e, rest);
    }
  }

  /** The kind of an export is one uninterpreted byte. */
  datatype Export = Export(name: seq<Byte>, kind: Byte, index: nat)

  type Utf8 = seq<Byte> -> bool

  /** Writer and reader alike refuse a name that is not UTF-8. */
  function WriteExport(isUtf8: Utf8, e: Export): Option<seq<Byte>> {
    var name :- WriteBytes(e.name);
    var index :- WriteU32(e.index);
    if isUtf8(e.name) then Some(name + ([e.kind] + index)) else None
  }

  function ReadExport(isUtf8: Utf8, s: seq<Byte>): Option<(Export, seq<Byte>)> {
    var name :- ReadBytes(s);
    if !isUtf8(name.0) || name.1 == [] then None
    else
      var index :- ReadU32(name.1[1..]);
      Some((Export(name.0, name.1[0], index.0), index.1))
  }

  function ExportWriter(isUtf8: Utf8): Writer<Export> {
    e => WriteExport(isUtf8, e)
  }

  function ExportReader(isUtf8: Utf8): Reader<Export> {
    s => ReadExport(isUtf8, s)
  }

  lemma ExportBack(isUtf8: Utf8, e: Export, rest: seq<Byte>)
    requires WriteExport(isUtf8, e).Some?
    ensures ReadExport(isUtf8, WriteExport(isUtf8, e).value + rest) == Some((e, rest))
  {
    hide WriteBytes, ReadBytes, WriteU32, ReadU32;
    var name, index := WriteBytes(e.name).value, WriteU32(e.index).value;
    assert name + ([e.kind] + index) + rest == name + ([e.kind] + (index + rest));
    BytesBack(e.name, [e.kind] + (index + rest));
    assert ([e.kind] + (index + rest))[1..] == index + rest;
    U32Back(e.index, rest);
  }

  lemma ExportInverts(isUtf8: Utf8)
    ensures Inverts(ExportWriter(isUtf8), ExportReader(isUtf8))
  {
    hide WriteExport, ReadExport;
    var write, read := ExportWriter(isUtf8), ExportReader(isUtf8);
    forall e, rest | write(e).Some? ensures read(write(e).value + rest) == Some((e, rest)) {
      ExportBack(isUtf8, e, rest);
    }
  }

  // ----- segments -----

  /** Where an active segment is copied to; None for a passive one. */
  type Target = Option<(nat, Initializer)>

  /** A flag, the index of a table or memory other than the first, and the base. */
  function WriteTarget(t: Target): Option<seq<Byte>> {
    match t
    case None => Some([1])
    case Some((index, base)) =>
      var b :- WriteInitializer(base);
      if index == 0 then Some([0] + b)
      else
        var i :- WriteU32(index);
        Some([2] + (i + b))
  }

  function ReadTarget(s: seq<Byte>): Option<(Target, seq<Byte>)> {
    var flags :- ReadU32(s);
    if flags.0 == 0 then
      var b :- ReadInitializer(flags.1);
      Some((Some((0, b.0)), b.1))
    else if flags.0 == 1 then Some((None, flags.1))
    else if flags.0 == 2 then
      var i :- ReadU32(flags.1);
      var b :- ReadInitializer(i.1);
      Some((Some((i.0, b.0)), b.1))
    else None
  }

  lemma FlagBack(flag: Byte, rest: seq<Byte>)
    requires flag < 128
    ensures ReadU32([flag] + rest) == Some((flag, rest))
  {
    hide ReadU32;
    U32Back(flag, rest);
    assert WriteU32(flag) == Some([flag]);
  }

  lemma TargetInverts()
    ensures Inverts(WriteTarget, ReadTarget)
  {
    hide ReadU32, WriteU32, WriteInitializer, ReadInitializer;
    forall t, rest | WriteTarget(t).Some? ensures ReadTarget(WriteTarget(t).value + rest) == Some((t, rest)) {
      match t
      case None => FlagBack(1, rest);
      case Some((index, base)) =>
        var b := WriteInitializer(base).value;
        InitializerBack(base, rest);
        if index == 0 {
          assert [0] + b + rest == [0] + (b + rest);
          FlagBack(0, b + rest);
        } else {
          var i := WriteU32(index).value;
          assert [2] + (i + b) + rest == [2] + (i + (b + rest));
          FlagBack(2, i + (b + rest));
          U32Back(index, b + rest);
        }
    }
  }

  datatype DataSegment = DataSegment(target: Target, data: seq<Byte>)

  function WriteData(d: DataSegment): Option<seq<Byte>> {
    var target :- WriteTarget(d.target);
    var data :- WriteBytes(d.data);
    Some(target + data)
  }

  function ReadData(s: seq<Byte>): Option<(DataSegment, seq<Byte>)> {
    var target :- ReadTarget(s);
    var data :- ReadBytes(target.1);
    Some((DataSegment(target.0, data.0), data.1))
  }

  lemma DataInverts()
    ensures Inverts(WriteData, ReadData)
  {
    hide WriteTarget, ReadTarget, WriteBytes, ReadBytes;
    TargetInverts();
    forall d, rest | WriteData(d).Some? ensures ReadData(WriteData(d).value + rest) == Some((d, rest)) {
      var target, data := WriteTarget(d.target).value, WriteBytes(d.data).value;
      assert target + data + rest == target + (data + rest);
      BytesBack(d.data, rest);
    }
  }

  const REF_NULL: Byte := 0xd0
  const REF_FUNC: Byte := 0xd2

  /** An element of a passive segment is a null reference or a function. */
  type Elem = Option<nat>

  function WriteElem(e: Elem): Option<seq<Byte>> {
    match e
    case None => Some([REF_NULL, END])
    case Some(index) =>
      var i :- WriteU32(index);
      Some([REF_FUNC] + (i + [END]))
  }

  function ReadElem(s: seq<Byte>): Option<(Elem, seq<Byte>)> {
    var o :- ReadOpcode(s);
    if o.0 == REF_NULL then EndOfElem(None, o.1)
    else if o.0 == REF_FUNC then
      var i :- ReadU32(o.1);
      EndOfElem(Some(i.0), i.1)
    else None
  }

  function EndOfElem(e: Elem, s: seq<Byte>): Option<(Elem, seq<Byte>)> {
    if s == [] || s[0] != END then None else Some((e, s[1..]))
  }

  lemma ElemInverts()
    ensures Inverts(WriteElem, ReadElem)
  {
    hide WriteU32, ReadU32;
    forall e, rest | WriteElem(e).Some? ensures ReadElem(WriteElem(e).value + rest) == Some((e, rest)) {
      assert ([END] + rest)[1..] == rest;
      match e
      case None =>
        var s := [REF_NULL, END] + rest;
        assert s[0] == REF_NULL && s[1..] == [END] + rest;
      case Some(index) =>
        var i := WriteU32(index).value;
        var s := [REF_FUNC] + (i + [END]) + rest;
        assert s[0] == REF_FUNC && s[1..] == i + ([END] + rest);
        U32Back(index, [END] + rest);
    }
  }

  /** The elements of an active segment are functions only, by their indices. */
  datatype ElemSegment =
    | ActiveElems(table: nat, base: Initializer, functions: seq<int>)
    | PassiveElems(element: RefType, elems: seq<Elem>)

  function ElemTarget(e: ElemSegment): Target {
    if e.ActiveElems? then Some((e.table, e.base)) else None
  }

  function WriteElems(e: ElemSegment): Option<seq<Byte>> {
    var target :- WriteTarget(ElemTarget(e));
    match e
    case ActiveElems(_, _, functions) =>
      var all :- WriteCounted(WriteU32, functions);
      Some(target + all)
    case PassiveElems(element, elems) =>
      var all :- WriteCounted(WriteElem, elems);
      Some(target + ([RefCode(element)] + all))
  }

  function ReadElems(s: seq<Byte>): Option<(ElemSegment, seq<Byte>)> {
    var target :- ReadTarget(s);
    match target.0
    case Some((table, base)) =>
      var all :- ReadCounted(ReadNumberU32, target.1);
      Some((ActiveElems(table, base, all.0), all.1))
    case None =>
      var element :- ReadRefType(target.1);
      var all :- ReadCounted(ReadElem, element.1);
      Some((PassiveElems(element.0, all.0), all.1))
  }

  lemma ActiveBack(e: ElemSegment, rest: seq<Byte>)
    requires e.ActiveElems? && WriteElems(e).Some?
    ensures ReadElems(WriteElems(e).value + rest) == Some((e, rest))
  {
    hide WriteTarget, ReadTarget, WriteCounted, ReadCounted, WriteU32, ReadNumberU32, Inverts;
    U32Inverts();
    var target, all := WriteTarget(ElemTarget(e)).value, WriteCounted(WriteU32, e.functions).value;
    assert target + all + rest == target + (all + rest);
    TargetBack(ElemTarget(e), all + rest);
    CountedBack(WriteU32, ReadNumberU32, e.functions, rest);
  }

  lemma PassiveBack(e: ElemSegment, rest: seq<Byte>)
    requires e.PassiveElems? && WriteElems(e).Some?
    ensures ReadElems(WriteElems(e).value + rest) == Some((e, rest))
  {
    hide WriteTarget, ReadTarget, WriteCounted, ReadCounted, ReadRefType, RefCode, WriteElem, ReadElem, Inverts;
    ElemInverts();
    var target, all := WriteTarget(ElemTarget(e)).value, WriteCounted(WriteElem, e.elems).value;
    assert target + ([RefCode(e.element)] + all) + rest == target + ([RefCode(e.element)] + (all + rest));
    TargetBack(ElemTarget(e), [RefCode(e.element)] + (all + rest));
    RefTypeBack(e.element, all + rest);
    CountedBack(WriteElem, ReadElem, e.elems, rest);
  }

  lemma TargetBack(t: Target, rest: seq<Byte>)
    requires WriteTarget(t).Some?
    ensures ReadTarget(WriteTarget(t).value + rest) == Some((t, rest))
  {
    hide WriteTarget, ReadTarget;
    TargetInverts();
  }

  lemma ElemsInverts()
    ensures Inverts(WriteElems, ReadElems)
  {
    hide WriteElems, ReadElems;
    forall e, rest | WriteElems(e).Some? ensures ReadElems(WriteElems(e).value + rest) == Some((e, rest)) {
      if e.ActiveElems? {
        ActiveBack(e, rest);
      } else {
        PassiveBack(e, rest);
      }
    }
  }
}
