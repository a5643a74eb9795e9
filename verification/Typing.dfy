/** The typing of function bodies, section 3.3 of the WebAssembly Core Specification 1.0 with the extensions
    this program knows, as a relation on nested bodies: which operand types each instruction takes and
    leaves. Nothing here is shared with the validator but the types of the program. */
module Typing {
  import opened IR

  // ----- nested bodies -----

  /** A sequence of instructions. `Then` holds one without a body of its own. */
  datatype Body =
    | Done
    | Then(op: Op, rest: Body)
    | InBlock(bt: BlockType, inner: Body, rest: Body)
    | InLoop(bt: BlockType, inner: Body, rest: Body)
    | InIf(bt: BlockType, yes: Body, rest: Body)
    | InIfElse(bt: BlockType, yes: Body, no: Body, rest: Body)

  /** The operators of a body in the order of the stream. */
  function Code(b: Body): seq<Op> {
    match b
    case Done => []
    case Then(op, rest) => [op] + Code(rest)
    case InBlock(bt, inner, rest) => [Block(bt)] + Code(inner) + [End] + Code(rest)
    case InLoop(bt, inner, rest) => [Loop(bt)] + Code(inner) + [End] + Code(rest)
    case InIf(bt, yes, rest) => [If(bt)] + Code(yes) + [End] + Code(rest)
    case InIfElse(bt, yes, no, rest) => [If(bt)] + Code(yes) + [Else] + Code(no) + [End] + Code(rest)
  }

  // ----- types -----

  /** Every type matches itself and `any`, the bottom type matches every type, and the references match
      along nullref, funcref, anyref. */
  predicate Matches(sub: ValueType, super: ValueType) {
    || sub == super || sub == NoType || super == AnyType
    || (sub, super) in {(Nullref, Funcref), (Nullref, Anyref), (Funcref, Anyref)}
  }

  predicate AllMatch(subs: seq<ValueType>, supers: seq<ValueType>) {
    |subs| == |supers| && forall i :: 0 <= i < |subs| ==> Matches(subs[i], supers[i])
  }

  /** Numeric types need no extension, vectors and references one each. */
  predicate Enabled(features: FeatureSpec, t: ValueType) {
    || (features.mvp && t in {I32, I64, F32, F64})
    || (features.simd && t == V128)
    || (features.referenceTypes && t in {Anyref, Funcref})
  }

  predicate AllEnabled(features: FeatureSpec, ts: seq<ValueType>) {
    forall i :: 0 <= i < |ts| ==> Enabled(features, ts[i])
  }

  /** Without the extension for multiple values a block has no parameters and at most one result. */
  predicate BlockTyped(mod: Module, bt: BlockType, ft: FuncType) {
    match bt
    case NoParametersOrResult => ft == FuncType([], [])
    case OneResult(t) => Enabled(mod.features, t) && ft == FuncType([], [t])
    case TypeIndex(i) =>
      && i < |mod.types| && ft == mod.types[i]
      && (mod.features.multipleResultsAndBlockParams || (ft.params == [] && |ft.results| <= 1))
  }

  // ----- instructions -----

  /** The surroundings of an instruction: the module, the branch tables, locals and results of the function,
      and the labels of the enclosing constructs, the innermost last, with the types a branch to each takes. */
  datatype Context = Context(
    mod: Module, tables: seq<seq<nat>>, locals: seq<ValueType>, results: seq<ValueType>, labels: seq<seq<ValueType>>)

  predicate HasLabel(c: Context, depth: nat) {
    depth < |c.labels|
  }

  function LabelAt(c: Context, depth: nat): seq<ValueType>
    requires HasLabel(c, depth)
  {
    c.labels[|c.labels| - 1 - depth]
  }

  function Inside(c: Context, target: seq<ValueType>): Context {
    c.(labels := c.labels + [target])
  }

  /** The topmost operands match the types. */
  predicate Takes(ts: seq<ValueType>, before: seq<ValueType>) {
    |ts| <= |before| && AllMatch(before[|before| - |ts|..], ts)
  }

  /** The topmost operands match the parameters and give way to the results. */
  predicate Turns(params: seq<ValueType>, results: seq<ValueType>, before: seq<ValueType>, after: seq<ValueType>) {
    Takes(params, before) && after == before[..|before| - |params|] + results
  }

  /** An instruction without a body takes one list of operand types to another. Behind a branch, a return
      and `unreachable` the operands may be any. */
  ghost predicate OpTyped(c: Context, op: Op, before: seq<ValueType>, after: seq<ValueType>)
  {
    match op
    case Plain(_, sig, allowed) => allowed && Turns(sig.params, sig.results, before, after)
    case Unreachable => true
    case Drop => before != [] && after == before[..|before| - 1]
    case Select(ty) =>
      if ty == AnyType
      then exists t :: t in {NoType, I32, I64, F32, F64, V128} && Turns([t, t, I32], [t], before, after)
      else c.mod.features.referenceTypes && Enabled(c.mod.features, ty) && Turns([ty, ty, I32], [ty], before, after)
    case LocalGet(i) => i < |c.locals| && after == before + [c.locals[i]]
    case LocalSet(i) => i < |c.locals| && Turns([c.locals[i]], [], before, after)
    case LocalTee(i) => i < |c.locals| && Takes([c.locals[i]], before) && after == before
    case Br(depth) => HasLabel(c, depth) && Takes(LabelAt(c, depth), before)
    case BrIf(depth) =>
      HasLabel(c, depth) && Turns(LabelAt(c, depth) + [I32], LabelAt(c, depth), before, after)
    case BrTable(table, default) =>
      && table < |c.tables| && HasLabel(c, default) && Takes(LabelAt(c, default) + [I32], before)
      && forall depth :: depth in c.tables[table] ==>
           && HasLabel(c, depth) && |LabelAt(c, depth)| == |LabelAt(c, default)|
           && Takes(LabelAt(c, depth) + [I32], before)
    case Return => Takes(c.results, before)
    case _ => false
  }

  /** A body takes one list of operand types to another. */
  ghost predicate Typed(c: Context, b: Body, before: seq<ValueType>, after: seq<ValueType>)
    decreases b, 0
  {
    match b
    case Done => after == before
    case Then(op, rest) => exists mid :: OpTyped(c, op, before, mid) && Typed(c, rest, mid, after)
    case InBlock(bt, inner, rest) =>
      exists ft, mid ::
        && BlockTyped(c.mod, bt, ft) && Turns(ft.params, ft.results, before, mid)
        && Fills(c, ft.results, inner, ft.params, ft.results) && Typed(c, rest, mid, after)
    case InLoop(bt, inner, rest) =>
      exists ft, mid ::
        && BlockTyped(c.mod, bt, ft) && Turns(ft.params, ft.results, before, mid)
        && Fills(c, ft.params, inner, ft.params, ft.results) && Typed(c, rest, mid, after)
    case InIf(bt, yes, rest) =>
      exists ft, mid ::
        && BlockTyped(c.mod, bt, ft) && Turns(ft.params + [I32], ft.results, before, mid)
        && ft.params == ft.results
        && Fills(c, ft.results, yes, ft.params, ft.results) && Typed(c, rest, mid, after)
    case InIfElse(bt, yes, no, rest) =>
      exists ft, mid ::
        && BlockTyped(c.mod, bt, ft) && Turns(ft.params + [I32], ft.results, before, mid)
        && Fills(c, ft.results, yes, ft.params, ft.results) && Fills(c, ft.results, no, ft.params, ft.results)
        && Typed(c, rest, mid, after)
  }

  /** The body of a construct turns the parameters into operands that match the results, and no more. */
  ghost predicate Fills(c: Context, target: seq<ValueType>, b: Body, params: seq<ValueType>, results: seq<ValueType>)
    decreases b, 1
  {
    exists after :: Typed(Inside(c, target), b, params, after) && AllMatch(after, results)
  }

  /** The stream is a nested body and an `end`, and the body turns no operands into the results. */
  ghost predicate WellTyped(fn: FunctionDef)
    requires fn.typeIndex < |fn.mod.types|
  {
    var ft := fn.mod.types[fn.typeIndex];
    var c := Context(fn.mod, fn.branchTables, ft.params + fn.localTypes, ft.results, []);
    && AllEnabled(fn.mod.features, fn.localTypes)
    && exists b :: fn.code == Code(b) + [End] && Fills(c, ft.results, b, [], ft.results)
  }
}
