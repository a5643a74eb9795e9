/** The function body validator: a type checker that runs over the operator stream with an
    operand stack of types and a stack of open control structures. */
module Validator {
  import opened IR
  import opened Wrappers

  /** An open control structure. `params` are the types a branch to it takes. */
  datatype Control = Control(kind: Kind, outer: nat, params: seq<ValueType>,
                             results: seq<ValueType>, reachable: bool,
                             elseParams: seq<ValueType>)

  datatype State = State(control: seq<Control>, stack: seq<ValueType>)

  // ----- operand stack -----

  /** The type of the operand at the given depth; the bottom type below the base of an
      unreachable context; an error below the base of a reachable one. */
  function Peek(s: State, depth: nat, expected: ValueType): Option<ValueType>
    requires s.control != []
  {
    var top := Last(s.control);
    if |s.stack| > top.outer + depth then
      var actual := s.stack[|s.stack| - depth - 1];
      if IsSubtype(actual, expected) then Some(actual) else None
    else if !top.reachable then Some(NoType)
    else None
  }

  function DropTop(s: State): State
    requires s.control != []
  {
    if |s.stack| > Last(s.control).outer then s.(stack := Front(s.stack)) else s
  }

  function PopOperand(s: State, expected: ValueType): Option<State>
    requires s.control != []
  {
    var _ :- Peek(s, 0, expected);
    Some(DropTop(s))
  }

  /** Pops the operands of a tuple, the last one first. */
  function PopTuple(s: State, expected: seq<ValueType>): (r: Option<State>)
    requires s.control != []
    ensures r.Some? ==> r.value.control == s.control
    decreases |expected|
  {
    if expected == [] then Some(s)
    else
      var s1 :- PopOperand(s, Last(expected));
      PopTuple(s1, Front(expected))
  }

  /** Are all operands of a tuple present, without popping them? */
  predicate PeekTuple(s: State, expected: seq<ValueType>)
    requires s.control != []
  {
    forall i :: 0 <= i < |expected| ==> Peek(s, |expected| - i - 1, expected[i]).Some?
  }

  function PushTuple(s: State, ts: seq<ValueType>): State {
    s.(stack := s.stack + ts)
  }

  // ----- control stack -----

  function PushControl(s: State, kind: Kind, params: seq<ValueType>, results: seq<ValueType>,
                       elseParams: seq<ValueType>): State
  {
    s.(control := s.control + [Control(kind, |s.stack|, params, results, true, elseParams)])
  }

  function EnterUnreachable(s: State): State
    requires s.control != []
  {
    var top := Last(s.control);
    State(Front(s.control) + [top.(reachable := false)],
          if top.outer <= |s.stack| then s.stack[..top.outer] else s.stack)
  }

  function Target(s: State, depth: nat): Option<Control> {
    if depth < |s.control| then Some(s.control[|s.control| - depth - 1]) else None
  }

  function ValidateBlockType(mod: Module, bt: BlockType): Option<FuncType> {
    match bt
    case NoParametersOrResult => Some(FuncType([], []))
    case OneResult(t) =>
      if ValidValueType(mod.features, t) then Some(FuncType([], [t])) else None
    case TypeIndex(i) =>
      if i >= |mod.types| then None
      else if |mod.types[i].params| > 0 && !mod.features.multipleResultsAndBlockParams then None
      else if |mod.types[i].results| > 1 && !mod.features.multipleResultsAndBlockParams then None
      else Some(mod.types[i])
  }

  // ----- operators -----

  /** Opens a construct: its parameters are popped below its base and pushed above it. */
  function OpenOp(mod: Module, s: State, bt: BlockType, kind: Kind): Option<State>
    requires s.control != []
  {
    var t :- ValidateBlockType(mod, bt);
    var s1 :- PopTuple(s, t.params);
    Some(PushTuple(PushControl(s1, kind, if kind == LoopBody then t.params else t.results, t.results,
                               if kind == IfThen then t.params else []),
                   t.params))
  }

  function PopResults(s: State): Option<State>
    requires s.control != []
  {
    var s1 :- PopTuple(s, Last(s.control).results);
    if |s1.stack| == Last(s.control).outer then Some(s1) else None
  }

  function ElseOp(s: State): Option<State>
    requires s.control != []
  {
    var top := Last(s.control);
    if top.kind != IfThen then None else
    var s1 :- PopResults(s);
    Some(PushTuple(s1.(control := Front(s.control) + [top.(kind := IfElse, reachable := true)]),
                   top.elseParams))
  }

  function EndOp(s: State): Option<State>
    requires s.control != []
  {
    var top := Last(s.control);
    if top.kind == IfThen && top.results != top.elseParams then None else
    var s1 :- PopResults(s);
    var s2 := s1.(control := Front(s.control));
    Some(if s2.control == [] then s2 else PushTuple(s2, top.results))
  }

  /** Every table entry takes as many operands as the default target, and the operands fit. */
  predicate TableTargetsFit(s: State, depths: seq<nat>, arity: nat)
    requires s.control != []
  {
    forall i :: 0 <= i < |depths| ==>
      && depths[i] < |s.control|
      && |Target(s, depths[i]).value.params| == arity
      && PeekTuple(s, Target(s, depths[i]).value.params)
  }

  function BrTableOp(s: State, depths: seq<nat>, default: nat): Option<State>
    requires s.control != []
  {
    var s1 :- PopOperand(s, I32);
    var target :- Target(s1, default);
    if !TableTargetsFit(s1, depths, |target.params|) then None else
    var s2 :- PopTuple(s1, target.params);
    Some(EnterUnreachable(s2))
  }

  /** The type popped next: the bottom type when an unreachable context is exhausted. */
  function TopType(s: State): ValueType
    requires s.control != []
  {
    if |s.stack| > Last(s.control).outer then Last(s.stack) else NoType
  }

  function SelectOp(features: FeatureSpec, s: State, ty: ValueType): Option<State>
    requires s.control != []
  {
    var s1 :- PopOperand(s, I32);
    if ty.AnyType? then
      var falseType := TopType(s1);
      var s2 :- PopOperand(s1, AnyType);
      var trueType := TopType(s2);
      var s3 :- PopOperand(s2, AnyType);
      if (!falseType.NoType? && !IsNumeric(falseType)) || (!trueType.NoType? && !IsNumeric(trueType)) then None
      else if falseType.NoType? then Some(PushTuple(s3, [trueType]))
      else if trueType.NoType? then Some(PushTuple(s3, [falseType]))
      else if falseType != trueType then None
      else Some(PushTuple(s3, [falseType]))
    else if !features.referenceTypes || !ValidValueType(features, ty) then None
    else
      var s2 :- PopOperand(s1, ty);
      var s3 :- PopOperand(s2, ty);
      Some(PushTuple(s3, [ty]))
  }

  /** The effect of one operator; None where the validator throws. */
  function Step(fn: FunctionDef, s: State, op: Op): Option<State>
    requires WellFormed(fn) && WellFormedOp(fn, op)
  {
    if s.control == [] then None else
    match op
    case Block(bt) => OpenOp(fn.mod, s, bt, BlockBody)
    case Loop(bt) => OpenOp(fn.mod, s, bt, LoopBody)
    case If(bt) =>
      var s1 :- PopOperand(s, I32);
      OpenOp(fn.mod, s1, bt, IfThen)
    case Else => ElseOp(s)
    case End => EndOp(s)
    case Br(depth) =>
      var target :- Target(s, depth);
      var s1 :- PopTuple(s, target.params);
      Some(EnterUnreachable(s1))
    case BrIf(depth) =>
      var target :- Target(s, depth);
      var s1 :- PopOperand(s, I32);
      var s2 :- PopTuple(s1, target.params);
      Some(PushTuple(s2, target.params))
    case BrTable(table, default) => BrTableOp(s, fn.branchTables[table], default)
    case Return =>
      var s1 :- PopTuple(s, Signature(fn).results);
      Some(EnterUnreachable(s1))
    case Unreachable => Some(EnterUnreachable(s))
    case Drop => PopOperand(s, AnyType)
    case Select(ty) => SelectOp(fn.mod.features, s, ty)
    case LocalGet(i) =>
      if i >= |LocalTypes(fn)| then None else Some(PushTuple(s, [LocalTypes(fn)[i]]))
    case LocalSet(i) =>
      if i >= |LocalTypes(fn)| then None else PopOperand(s, LocalTypes(fn)[i])
    case LocalTee(i) =>
      if i >= |LocalTypes(fn)| then None else
      var s1 :- PopOperand(s, LocalTypes(fn)[i]);
      Some(PushTuple(s1, [TopType(s)]))
    case Plain(_, sig, allowed) =>
      if !allowed then None else
      var s1 :- PopTuple(s, sig.params);
      Some(PushTuple(s1, sig.results))
  }

  function Initial(fn: FunctionDef): Option<State>
    requires WellFormed(fn)
  {
    if !ValidTuple(fn.mod.features, fn.localTypes) then None
    else
      var results := Signature(fn).results;
      Some(PushControl(State([], []), FunctionBody, results, results, []))
  }

  /** The validator's state after the first `n` operators. */
  function After(fn: FunctionDef, n: nat): Option<State>
    requires WellFormed(fn) && n <= |fn.code|
  {
    if n == 0 then Initial(fn)
    else
      var s :- After(fn, n - 1);
      Step(fn, s, fn.code[n - 1])
  }

  /** The body is accepted: no operator throws and `finish` finds the control stack empty. */
  predicate Accepts(fn: FunctionDef) {
    WellFormed(fn) && After(fn, |fn.code|).Some? && After(fn, |fn.code|).value.control == []
  }
}
