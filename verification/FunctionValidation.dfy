/** The validator as an object that consumes one operator at a time, updating its operand and
    control stacks in place. A result of None or false stands for a validation exception. */
module FunctionValidation {
  import opened IR
  import opened Wrappers
  import V = Validator
  import Typing
  import TypingExact

  /** An operation that may throw agrees with its specification: it throws exactly where the
      specification has no result, and otherwise leaves the specified state. */
  ghost predicate Agrees(expected: Option<V.State>, ok: bool, now: V.State) {
    && ok == expected.Some?
    && (ok ==> now == expected.value)
  }

  method ValidateTypes(features: FeatureSpec, types: seq<ValueType>) returns (ok: bool)
    ensures ok <==> ValidTuple(features, types)
  {
    for i := 0 to |types|
      invariant ValidTuple(features, types[..i])
    {
      if !ValidValueType(features, types[i]) {
        return false;
      }
      assert types[..i + 1] == types[..i] + [types[i]];
    }
    assert types[..|types|] == types;
    return true;
  }

  class FunctionValidationContext {
    const fn: FunctionDef
    var control: seq<V.Control>
    var stack: seq<ValueType>

    ghost function Now(): V.State
      reads this
    {
      V.State(control, stack)
    }

    constructor (fn: FunctionDef)
      requires WellFormed(fn)
      ensures this.fn == fn
      ensures ValidTuple(fn.mod.features, fn.localTypes) ==> Some(Now()) == V.Initial(fn)
    {
      this.fn := fn;
      stack := [];
      control := [V.Control(FunctionBody, 0, Signature(fn).results, Signature(fn).results, true, [])];
      new;
      assert [] + control == control;
    }

    // ----- operand stack -----

    method PeekAndValidateOperand(depth: nat, expected: ValueType) returns (actual: Option<ValueType>)
      requires control != []
      ensures actual == V.Peek(Now(), depth, expected)
    {
      var ty;
      if |stack| > Last(control).outer + depth {
        ty := stack[|stack| - depth - 1];
      } else if !Last(control).reachable {
        ty := NoType;
      } else {
        return None;
      }
      return if IsSubtype(ty, expected) then Some(ty) else None;
    }

    method PopAndValidateOperand(expected: ValueType) returns (actual: Option<ValueType>)
      requires control != []
      modifies this`stack
      ensures Agrees(V.PopOperand(old(Now()), expected), actual.Some?, Now())
      ensures actual.Some? ==> actual.value == V.TopType(old(Now()))
    {
      actual := PeekAndValidateOperand(0, expected);
      if actual.Some? && |stack| > Last(control).outer {
        stack := stack[..|stack| - 1];
      }
    }

    method PopAndValidateTuple(expected: seq<ValueType>) returns (ok: bool)
      requires control != []
      modifies this`stack
      ensures Agrees(V.PopTuple(old(Now()), expected), ok, Now())
    {
      assert expected[..|expected|] == expected;
      for fromEnd := 0 to |expected|
        invariant V.PopTuple(Now(), expected[..|expected| - fromEnd]) == V.PopTuple(old(Now()), expected)
      {
        ghost var rest := expected[..|expected| - fromEnd];
        assert rest[..|rest| - 1] == expected[..|expected| - fromEnd - 1];
        var actual := PopAndValidateOperand(expected[|expected| - fromEnd - 1]);
        if actual.None? {
          return false;
        }
      }
      return true;
    }

    method PeekAndValidateTuple(expected: seq<ValueType>) returns (ok: bool)
      requires control != []
      ensures ok <==> V.PeekTuple(Now(), expected)
    {
      for i := 0 to |expected|
        invariant forall j :: 0 <= j < i ==> V.Peek(Now(), |expected| - j - 1, expected[j]).Some?
      {
        var actual := PeekAndValidateOperand(|expected| - i - 1, expected[i]);
        if actual.None? {
          return false;
        }
      }
      return true;
    }

    method PushOperandTuple(types: seq<ValueType>)
      modifies this`stack
      ensures Now() == V.PushTuple(old(Now()), types)
    {
      for i := 0 to |types|
        invariant stack == old(stack) + types[..i]
      {
        stack := stack + [types[i]];
      }
    }

    // ----- control stack -----

    method PushControlStack(kind: Kind, params: seq<ValueType>, results: seq<ValueType>, elseParams: seq<ValueType>)
      modifies this`control
      ensures Now() == V.PushControl(old(Now()), kind, params, results, elseParams)
    {
      control := control + [V.Control(kind, |stack|, params, results, true, elseParams)];
    }

    method EnterUnreachable()
      requires control != []
      modifies this
      ensures Now() == V.EnterUnreachable(old(Now()))
    {
      var top := control[|control| - 1];
      if top.outer <= |stack| {
        stack := stack[..top.outer];
      }
      control := control[..|control| - 1] + [top.(reachable := false)];
    }

    // ----- operators -----

    method Open(bt: BlockType, kind: Kind) returns (ok: bool)
      requires control != [] && kind in {BlockBody, LoopBody, IfThen}
      modifies this
      ensures Agrees(if kind == IfThen
                     then var s :- V.PopOperand(old(Now()), I32); V.OpenOp(fn.mod, s, bt, kind)
                     else V.OpenOp(fn.mod, old(Now()), bt, kind),
                     ok, Now())
    {
      var t := V.ValidateBlockType(fn.mod, bt);
      if t.None? {
        return false;
      }
      if kind == IfThen {
        var condition := PopAndValidateOperand(I32);
        if condition.None? {
          return false;
        }
      }
      ok := PopAndValidateTuple(t.value.params);
      if ok {
        PushControlStack(kind, if kind == LoopBody then t.value.params else t.value.results, t.value.results,
                         if kind == IfThen then t.value.params else []);
        PushOperandTuple(t.value.params);
      }
    }

    method Else() returns (ok: bool)
      requires control != []
      modifies this
      ensures Agrees(V.ElseOp(old(Now())), ok, Now())
    {
      var top := control[|control| - 1];
      if top.kind != IfThen {
        return false;
      }
      ok := PopAndValidateTuple(top.results);
      ok := ok && |stack| == top.outer;
      if ok {
        control := control[..|control| - 1] + [top.(kind := IfElse, reachable := true)];
        PushOperandTuple(top.elseParams);
      }
    }

    method End() returns (ok: bool)
      requires control != []
      modifies this
      ensures Agrees(V.EndOp(old(Now())), ok, Now())
    {
      var top := control[|control| - 1];
      if top.kind == IfThen && top.results != top.elseParams {
        return false;
      }
      ok := PopAndValidateTuple(top.results);
      ok := ok && |stack| == top.outer;
      if ok {
        control := control[..|control| - 1];
        if control != [] {
          PushOperandTuple(top.results);
        }
      }
    }

    method BrTable(depths: seq<nat>, default: nat) returns (ok: bool)
      requires control != []
      modifies this
      ensures Agrees(V.BrTableOp(old(Now()), depths, default), ok, Now())
    {
      var index := PopAndValidateOperand(I32);
      if index.None? || default >= |control| {
        return false;
      }
      var params := control[|control| - default - 1].params;
      for i := 0 to |depths|
        invariant unchanged(`control)
        invariant V.PopOperand(old(Now()), I32) == Some(Now())
        invariant V.TableTargetsFit(Now(), depths[..i], |params|)
      {
        ghost var before := depths[..i];
        if depths[i] >= |control| || |control[|control| - depths[i] - 1].params| != |params| {
          assert !V.TableTargetsFit(Now(), depths, |params|);
          return false;
        }
        var fits := PeekAndValidateTuple(control[|control| - depths[i] - 1].params);
        if !fits {
          assert !V.TableTargetsFit(Now(), depths, |params|);
          return false;
        }
        assert depths[..i + 1] == before + [depths[i]];
      }
      assert depths[..|depths|] == depths;
      ok := PopAndValidateTuple(params);
      if ok {
        EnterUnreachable();
      }
    }

    method Select(ty: ValueType) returns (ok: bool)
      requires control != []
      modifies this
      ensures Agrees(V.SelectOp(fn.mod.features, old(Now()), ty), ok, Now())
    {
      var condition := PopAndValidateOperand(I32);
      if condition.None? {
        return false;
      }
      if ty != AnyType && (!fn.mod.features.referenceTypes || !ValidValueType(fn.mod.features, ty)) {
        return false;
      }
      var falseType := PopAndValidateOperand(ty);
      if falseType.None? {
        return false;
      }
      var trueType := PopAndValidateOperand(ty);
      if trueType.None? {
        return false;
      }
      var result := ty;
      if ty == AnyType {
        var f, t := falseType.value, trueType.value;
        if (f != NoType && !IsNumeric(f)) || (t != NoType && !IsNumeric(t)) || (f != NoType && t != NoType && f != t) {
          return false;
        }
        result := if f == NoType then t else f;
      }
      PushOperandTuple([result]);
      return true;
    }

    method Branch(depth: nat, conditional: bool) returns (ok: bool)
      requires control != [] && WellFormed(fn)
      modifies this
      ensures Agrees(V.Step(fn, old(Now()), if conditional then IR.BrIf(depth) else IR.Br(depth)), ok, Now())
    {
      if depth >= |control| {
        return false;
      }
      var params := control[|control| - depth - 1].params;
      if conditional {
        var condition := PopAndValidateOperand(I32);
        if condition.None? {
          return false;
        }
      }
      ok := PopAndValidateTuple(params);
      if ok {
        if conditional {
          PushOperandTuple(params);
        } else {
          EnterUnreachable();
        }
      }
    }

    method LocalAccess(op: Op) returns (ok: bool)
      requires control != [] && WellFormed(fn) && (op.LocalGet? || op.LocalSet? || op.LocalTee?)
      modifies this
      ensures Agrees(V.Step(fn, old(Now()), op), ok, Now())
    {
      if op.index >= |LocalTypes(fn)| {
        return false;
      }
      var ty := LocalTypes(fn)[op.index];
      if !op.LocalGet? {
        var actual := PopAndValidateOperand(ty);
        if actual.None? {
          return false;
        }
        ty := actual.value;
      }
      if !op.LocalSet? {
        PushOperandTuple([ty]);
      }
      return true;
    }

    /** One operator of the stream. */
    method Visit(op: Op) returns (ok: bool)
      requires WellFormed(fn) && WellFormedOp(fn, op)
      modifies this
      ensures Agrees(V.Step(fn, old(Now()), op), ok, Now())
    {
      if control == [] {
        return false;
      }
      match op {
        case Block(bt) => ok := Open(bt, BlockBody);
        case Loop(bt) => ok := Open(bt, LoopBody);
        case If(bt) => ok := Open(bt, IfThen);
        case Else => ok := Else();
        case End => ok := End();
        case Br(depth) => ok := Branch(depth, false);
        case BrIf(depth) => ok := Branch(depth, true);
        case BrTable(table, default) => ok := BrTable(fn.branchTables[table], default);
        case Return =>
          ok := PopAndValidateTuple(Signature(fn).results);
          if ok {
            EnterUnreachable();
          }
        case Unreachable =>
          EnterUnreachable();
          ok := true;
        case Drop =>
          var actual := PopAndValidateOperand(AnyType);
          ok := actual.Some?;
        case Select(ty) => ok := Select(ty);
        case LocalGet(_) => ok := LocalAccess(op);
        case LocalSet(_) => ok := LocalAccess(op);
        case LocalTee(_) => ok := LocalAccess(op);
        case Plain(_, sig, allowed) =>
          ok := false;
          if allowed {
            ok := PopAndValidateTuple(sig.params);
            if ok {
              PushOperandTuple(sig.results);
            }
          }
      }
    }
  }

  /** A prefix that throws is never recovered. */
  lemma {:induction false} ThrowsForGood(fn: FunctionDef, i: nat, n: nat)
    requires WellFormed(fn) && i <= n <= |fn.code| && V.After(fn, i).None?
    ensures V.After(fn, n).None?
    decreases n
  {
    hide V.Step, V.Initial, WellFormedOp;
    if i < n {
      ThrowsForGood(fn, i, n - 1);
    }
  }

  /** The whole stream, from construction through `finish`: it passes exactly if the function is well typed. */
  method Validate(fn: FunctionDef) returns (ok: bool)
    requires WellFormed(fn)
    ensures ok <==> V.Accepts(fn)
    ensures ok <==> Typing.WellTyped(fn)
  {
    hide V.Step, Typing.WellTyped;
    TypingExact.AcceptsIffWellTyped(fn);
    ok := ValidateTypes(fn.mod.features, fn.localTypes);
    if !ok {
      ThrowsForGood(fn, 0, |fn.code|);
      return;
    }
    var context := new FunctionValidationContext(fn);
    for i := 0 to |fn.code|
      invariant V.After(fn, i) == Some(context.Now()) && fresh(context) && context.fn == fn
    {
      ok := context.Visit(fn.code[i]);
      if !ok {
        ThrowsForGood(fn, i + 1, |fn.code|);
        return;
      }
    }
    ok := context.control == [];
  }
}
