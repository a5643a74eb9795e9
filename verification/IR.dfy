/** The intermediate representation shared by the validator, the emitter and the
    reference machine: value types, operators and function definitions. */
module IR {

  import opened Wrappers

  /** The operand types. NoType is the bottom type `none`, AnyType the top type `any`. */
  datatype ValueType =
    | NoType | AnyType
    | I32 | I64 | F32 | F64 | V128
    | Anyref | Funcref | Nullref

  predicate IsNumeric(t: ValueType) {
    t.I32? || t.I64? || t.F32? || t.F64? || t.V128?
  }

  predicate IsReference(t: ValueType) {
    t.Anyref? || t.Funcref? || t.Nullref?
  }

  /** The types a run-time value can have: everything but the two extremes. */
  predicate IsProper(t: ValueType) {
    !t.NoType? && !t.AnyType?
  }

  predicate AllProper(ts: seq<ValueType>) {
    forall i :: 0 <= i < |ts| ==> IsProper(ts[i])
  }

  predicate IsSubtype(sub: ValueType, super: ValueType) {
    || sub == super
    || sub.NoType?
    || match super
       case AnyType => true
       case Anyref => sub.Funcref? || sub.Nullref?
       case Funcref => sub.Nullref?
       case _ => false
  }

  datatype FuncType = FuncType(params: seq<ValueType>, results: seq<ValueType>)

  datatype BlockType =
    | NoParametersOrResult
    | OneResult(resultType: ValueType)
    | TypeIndex(index: nat)

  datatype FeatureSpec = FeatureSpec(mvp: bool, simd: bool, referenceTypes: bool,
                                     multipleResultsAndBlockParams: bool)

  datatype Module = Module(types: seq<FuncType>, features: FeatureSpec)

  /** One operator of a function body. `Plain` stands for every operator with a fixed
      signature (arithmetic, memory access, calls, ...); `allowed` is the verdict of its
      feature and immediate checks. */
  datatype Op =
    | Block(bt: BlockType)
    | Loop(bt: BlockType)
    | If(bt: BlockType)
    | Else
    | End
    | Br(depth: nat)
    | BrIf(depth: nat)
    | BrTable(table: nat, default: nat)
    | Return
    | Unreachable
    | Drop
    | Select(ty: ValueType)
    | LocalGet(index: nat)
    | LocalSet(index: nat)
    | LocalTee(index: nat)
    | Plain(id: nat, sig: FuncType, allowed: bool)
  {
    predicate Opens() { Block? || Loop? || If? }
  }

  /** The kinds of an open control structure. */
  datatype Kind = FunctionBody | BlockBody | IfThen | IfElse | LoopBody

  datatype FunctionDef = FunctionDef(mod: Module, typeIndex: nat, localTypes: seq<ValueType>,
                                     branchTables: seq<seq<nat>>, code: seq<Op>)

  const UINT32_MAX: nat := 0xffff_ffff

  /** Is the value type usable under the enabled features? */
  predicate ValidValueType(features: FeatureSpec, t: ValueType) {
    match t
    case I32 | I64 | F32 | F64 => features.mvp
    case V128 => features.simd
    case Anyref | Funcref => features.referenceTypes
    case NoType | AnyType | Nullref => false
  }

  predicate ValidTuple(features: FeatureSpec, ts: seq<ValueType>) {
    forall i :: 0 <= i < |ts| ==> ValidValueType(features, ts[i])
  }

  /** What the rest of the module checks establish before a body is validated. */
  predicate WellFormed(fn: FunctionDef) {
    && fn.typeIndex < |fn.mod.types|
    && (forall i :: 0 <= i < |fn.mod.types| ==>
          && ValidTuple(fn.mod.features, fn.mod.types[i].params)
          && ValidTuple(fn.mod.features, fn.mod.types[i].results))
    && (forall i :: 0 <= i < |fn.branchTables| ==> |fn.branchTables[i]| <= UINT32_MAX)
    && forall i :: 0 <= i < |fn.code| ==> WellFormedOp(fn, fn.code[i])
  }

  predicate WellFormedOp(fn: FunctionDef, op: Op) {
    && (op.BrTable? ==> op.table < |fn.branchTables|)
    && (op.Plain? ==> AllProper(op.sig.params) && AllProper(op.sig.results))
  }

  function Signature(fn: FunctionDef): FuncType
    requires fn.typeIndex < |fn.mod.types|
  {
    fn.mod.types[fn.typeIndex]
  }

  function LocalTypes(fn: FunctionDef): seq<ValueType>
    requires fn.typeIndex < |fn.mod.types|
  {
    Signature(fn).params + fn.localTypes
  }

  function ResolveBlockType(mod: Module, bt: BlockType): Option<FuncType> {
    match bt
    case NoParametersOrResult => Some(FuncType([], []))
    case OneResult(t) => Some(FuncType([], [t]))
    case TypeIndex(i) => if i < |mod.types| then Some(mod.types[i]) else None
  }

  // ----- nesting of the operator stream -----

  /** The position of the `end` that closes the construct whose body continues at `pc`
      with `nest` further constructs open; |code| if there is none. */
  function FindEnd(code: seq<Op>, pc: nat, nest: nat): nat
    decreases |code| - pc
  {
    if pc >= |code| then |code|
    else if code[pc].Opens() then FindEnd(code, pc + 1, nest + 1)
    else if code[pc].End? then if nest == 0 then pc else FindEnd(code, pc + 1, nest - 1)
    else FindEnd(code, pc + 1, nest)
  }

  /** The position of the `else` that belongs to the construct whose body continues at `pc`. */
  function FindElse(code: seq<Op>, pc: nat, nest: nat): Option<nat>
    decreases |code| - pc
  {
    if pc >= |code| then None
    else if code[pc].Opens() then FindElse(code, pc + 1, nest + 1)
    else if code[pc].End? then if nest == 0 then None else FindElse(code, pc + 1, nest - 1)
    else if code[pc].Else? && nest == 0 then Some(pc)
    else FindElse(code, pc + 1, nest)
  }

  // ----- sequence helpers -----

  function Last<T>(s: seq<T>): T
    requires s != []
  {
    s[|s| - 1]
  }

  function Front<T>(s: seq<T>): seq<T>
    requires s != []
  {
    s[..|s| - 1]
  }

  /** The last `n` elements. */
  function Top<T>(s: seq<T>, n: nat): seq<T>
    requires n <= |s|
  {
    s[|s| - n..]
  }

  /** All but the last `n` elements. */
  function Below<T>(s: seq<T>, n: nat): seq<T>
    requires n <= |s|
  {
    s[..|s| - n]
  }
}
