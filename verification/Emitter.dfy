/** The emitter: turns the operator stream of a validated body into a control flow graph,
    keeping an operand stack of SSA values and skipping unreachable code. Every function
    yields None where an assertion of the emitter would fail. */
module Emitter {
  import opened IR
  import opened Wrappers
  import opened Cfg

  /** An open control structure of the emitter. */
  datatype Context = Context(kind: Kind, endBlock: nat, endPhis: seq<nat>, elseBlock: Option<nat>,
                             elseArgs: seq<Operand>, results: seq<ValueType>, outer: nat,
                             outerTargets: nat, reachable: bool)

  datatype BranchTarget = BranchTarget(params: seq<ValueType>, block: nat, phis: seq<nat>)

  /** `skip` counts the constructs opened inside unreachable code. */
  datatype Emission = Emission(blocks: Graph, insert: nat, nextReg: nat, stack: seq<Operand>,
                               control: seq<Context>, targets: seq<BranchTarget>, skip: nat)

  // ----- building blocks -----

  function CreateBlock(s: Emission): Emission {
    s.(blocks := s.blocks + [BasicBlock(map[], [])])
  }

  function PhiRegs(first: nat, n: nat): (r: seq<nat>)
    ensures |r| == n && forall i :: 0 <= i < n ==> r[i] == first + i
  {
    seq(n, i requires 0 <= i < n => first + i)
  }

  function AsOperands(regs: seq<nat>): (r: seq<Operand>)
    ensures |r| == |regs| && forall i :: 0 <= i < |regs| ==> r[i] == Reg(regs[i])
  {
    seq(|regs|, i requires 0 <= i < |regs| => Reg(regs[i]))
  }

  /** PHIs of the given types in consecutive registers. */
  function NewPhis(first: nat, types: seq<ValueType>): (r: map<nat, Phi>)
    ensures forall k :: k in r <==> first <= k < first + |types|
    ensures forall k :: k in r ==> r[k] == Phi(types[k - first], [])
  {
    if types == [] then map[] else NewPhis(first, Front(types))[first + |types| - 1 := Phi(Last(types), [])]
  }

  /** Creates PHIs of the given types in block `b`. */
  function CreatePhis(s: Emission, b: nat, types: seq<ValueType>): Emission
    requires b < |s.blocks|
  {
    s.(blocks := s.blocks[b := s.blocks[b].(phis := s.blocks[b].phis + NewPhis(s.nextReg, types))],
       nextReg := s.nextReg + |types|)
  }

  function Append(s: Emission, i: Instr): Emission
    requires s.insert < |s.blocks|
  {
    s.(blocks := s.blocks[s.insert := s.blocks[s.insert].(code := s.blocks[s.insert].code + [i])])
  }

  function AddOne(bb: BasicBlock, phi: nat, v: Operand, from: nat): BasicBlock {
    if phi in bb.phis then
      var p := bb.phis[phi];
      bb.(phis := bb.phis[phi := p.(incoming := p.incoming + [Incoming(v, from)])])
    else bb
  }

  /** Adds one incoming value to each of the PHIs. */
  function AddAll(bb: BasicBlock, phis: seq<nat>, vs: seq<Operand>, from: nat): BasicBlock
    requires |phis| == |vs|
  {
    if phis == [] then bb
    else AddOne(AddAll(bb, Front(phis), Front(vs), from), Last(phis), Last(vs), from)
  }

  function AddIncoming(s: Emission, b: nat, phis: seq<nat>, vs: seq<Operand>): Emission
    requires b < |s.blocks| && |phis| == |vs|
  {
    s.(blocks := s.blocks[b := AddAll(s.blocks[b], phis, vs, s.insert)])
  }

  /** How many operands lie above the base of the innermost context. */
  function Available(s: Emission): int {
    |s.stack| - (if s.control == [] then 0 else Last(s.control).outer)
  }

  function EnterUnreachable(s: Emission): Option<Emission> {
    if s.control == [] || Last(s.control).outer > |s.stack| then None
    else
      var top := Last(s.control);
      Some(s.(stack := s.stack[..top.outer], control := Front(s.control) + [top.(reachable := false)]))
  }

  function TargetAt(s: Emission, depth: nat): Option<BranchTarget> {
    if depth < |s.targets| then Some(s.targets[|s.targets| - depth - 1]) else None
  }

  // ----- control operators -----

  /** Pushes a context and its branch target above the remaining stack. */
  function PushContext(s: Emission, kind: Kind, t: FuncType, end: nat, endPhis: seq<nat>,
                       elseBlock: Option<nat>, elseArgs: seq<Operand>, target: BranchTarget): Option<Emission>
  {
    if s.control != [] && !Last(s.control).reachable then None
    else
      Some(s.(control := s.control + [Context(kind, end, endPhis, elseBlock, elseArgs, t.results,
                                              |s.stack|, |s.targets|, true)],
              targets := s.targets + [target]))
  }

  function BlockOp(s: Emission, t: FuncType): Option<Emission> {
    if Available(s) < |t.params| then None
    else
      var end := |s.blocks|;
      var s1 := CreatePhis(CreateBlock(s), end, t.results);
      var endPhis := PhiRegs(s.nextReg, |t.results|);
      var args := s.stack[|s.stack| - |t.params|..];
      var s2 :- PushContext(s1.(stack := s.stack[..|s.stack| - |t.params|]), BlockBody, t, end, endPhis,
                            None, [], BranchTarget(t.results, end, endPhis));
      Some(s2.(stack := s2.stack + args))
  }

  function LoopOp(s: Emission, t: FuncType): Option<Emission> {
    if Available(s) < |t.params| || s.insert >= |s.blocks| then None
    else
      var body, end := |s.blocks|, |s.blocks| + 1;
      var s1 := CreateBlock(CreateBlock(s));
      var s2 := CreatePhis(CreatePhis(s1, body, t.params), end, t.results);
      var bodyPhis := PhiRegs(s.nextReg, |t.params|);
      var endPhis := PhiRegs(s.nextReg + |t.params|, |t.results|);
      var args := s.stack[|s.stack| - |t.params|..];
      var s3 := Append(AddIncoming(s2, body, bodyPhis, args), Jump(body));
      var s4 :- PushContext(s3.(insert := body, stack := s.stack[..|s.stack| - |t.params|]), LoopBody, t, end,
                            endPhis, None, [], BranchTarget(t.params, body, bodyPhis));
      Some(s4.(stack := s4.stack + AsOperands(bodyPhis)))
  }

  function IfOp(s: Emission, t: FuncType): Option<Emission> {
    if Available(s) < |t.params| + 1 || s.insert >= |s.blocks| then None
    else
      var thenBlock, elseBlock, end := |s.blocks|, |s.blocks| + 1, |s.blocks| + 2;
      var s1 := CreateBlock(CreateBlock(CreateBlock(s)));
      var s2 := CreatePhis(s1, end, t.results);
      var endPhis := PhiRegs(s.nextReg, |t.results|);
      var n := |s.stack| - 1 - |t.params|;
      var args := s.stack[n..|s.stack| - 1];
      var s3 := Append(s2, CondJump(Last(s.stack), thenBlock, elseBlock));
      var s4 :- PushContext(s3.(insert := thenBlock, stack := s.stack[..n]), IfThen, t, end, endPhis,
                            Some(elseBlock), args, BranchTarget(t.results, end, endPhis));
      Some(s4.(stack := s4.stack + args))
  }

  /** Falls through to the end of the innermost context, if it is reachable. */
  function BranchToEnd(s: Emission): Option<Emission> {
    if s.control == [] || s.insert >= |s.blocks| then None
    else
      var top := Last(s.control);
      if !top.reachable then if |s.stack| == top.outer then Some(s) else None
      else if Available(s) != |top.results| || |top.endPhis| != |top.results| || top.endBlock >= |s.blocks| then None
      else
        var s1 := AddIncoming(s, top.endBlock, top.endPhis, s.stack[top.outer..]);
        Some(Append(s1, Jump(top.endBlock)).(stack := s.stack[..top.outer]))
  }

  function ElseOp(s: Emission): Option<Emission> {
    if s.control == [] then None else
    var top := Last(s.control);
    var s1 :- BranchToEnd(s);
    if top.elseBlock.None? || top.kind != IfThen then None
    else
      Some(s1.(insert := top.elseBlock.value, stack := s1.stack + top.elseArgs,
               control := Front(s.control) + [top.(kind := IfElse, reachable := true, elseBlock := None)]))
  }

  /** The absent else arm of an `if`: the arguments pass straight to the end. */
  function DummyElse(s: Emission, top: Context): Option<Emission> {
    if top.elseBlock.None? then Some(s)
    else if |top.elseArgs| != |top.endPhis| || top.endBlock >= |s.blocks| || top.elseBlock.value >= |s.blocks| then None
    else
      var s1 := s.(insert := top.elseBlock.value);
      Some(Append(AddIncoming(s1, top.endBlock, top.endPhis, top.elseArgs), Jump(top.endBlock)))
  }

  function EndValue(bb: BasicBlock, phi: nat, ty: ValueType): Operand {
    if phi in bb.phis && bb.phis[phi].incoming != [] then Reg(phi) else ZeroOf(ty)
  }

  /** The results of a context: its end PHIs, or zeros for PHIs without incoming values. */
  function EndValues(bb: BasicBlock, phis: seq<nat>, types: seq<ValueType>): (r: seq<Operand>)
    requires |phis| == |types|
    ensures |r| == |phis| && forall i :: 0 <= i < |r| ==> r[i] == EndValue(bb, phis[i], types[i])
  {
    seq(|phis|, i requires 0 <= i < |phis| && |phis| == |types| => EndValue(bb, phis[i], types[i]))
  }

  /** Removes the PHIs without incoming values. */
  function EraseEmpty(bb: BasicBlock, phis: seq<nat>): BasicBlock {
    bb.(phis := map r | r in bb.phis && !(r in phis && bb.phis[r].incoming == []) :: bb.phis[r])
  }

  function EndOp(s: Emission): Option<Emission> {
    if s.control == [] then None else
    var top := Last(s.control);
    var s1 :- BranchToEnd(s);
    var s2 :- DummyElse(s1, top);
    if |top.endPhis| != |top.results| || top.endBlock >= |s2.blocks| || top.outerTargets > |s2.targets| then None
    else
      var bb := s2.blocks[top.endBlock];
      Some(s2.(insert := top.endBlock,
               blocks := s2.blocks[top.endBlock := EraseEmpty(bb, top.endPhis)],
               stack := s2.stack + EndValues(bb, top.endPhis, top.results),
               targets := s2.targets[..top.outerTargets],
               control := Front(s.control)))
  }

  function BrOp(s: Emission, depth: nat): Option<Emission> {
    var target :- TargetAt(s, depth);
    var n := |target.params|;
    if n != |target.phis| || Available(s) < n || target.block >= |s.blocks| || s.insert >= |s.blocks| then None
    else
      var s1 := AddIncoming(s, target.block, target.phis, s.stack[|s.stack| - n..]);
      EnterUnreachable(Append(s1, Jump(target.block)).(stack := s.stack[..|s.stack| - n]))
  }

  function BrIfOp(s: Emission, depth: nat): Option<Emission> {
    if Available(s) < 1 || s.insert >= |s.blocks| then None else
    var target :- TargetAt(s, depth);
    var n, stack := |target.params|, s.stack[..|s.stack| - 1];
    if n != |target.phis| || Available(s) < 1 + n || target.block >= |s.blocks| then None
    else
      var s1 := AddIncoming(s, target.block, target.phis, stack[|stack| - n..]);
      var falseBlock := |s.blocks|;
      var s2 := Append(CreateBlock(s1), CondJump(Last(s.stack), target.block, falseBlock));
      Some(s2.(insert := falseBlock, stack := stack))
  }

  /** Adds the branch arguments to the PHIs of every table entry. */
  function AddTable(s: Emission, depths: seq<nat>, args: seq<Operand>): Option<Emission> {
    if depths == [] then Some(s)
    else
      var s1 :- AddTable(s, Front(depths), args);
      var target :- TargetAt(s1, Last(depths));
      if |target.phis| != |args| || target.block >= |s1.blocks| || |depths| - 1 >= UINT32_MAX then None
      else Some(AddIncoming(s1, target.block, target.phis, args))
  }

  function TableBlocks(s: Emission, depths: seq<nat>): (r: seq<nat>)
    requires forall i :: 0 <= i < |depths| ==> depths[i] < |s.targets|
    ensures |r| == |depths|
    ensures forall i :: 0 <= i < |r| ==> r[i] == s.targets[|s.targets| - depths[i] - 1].block
  {
    seq(|depths|, i requires 0 <= i < |depths| && forall i :: 0 <= i < |depths| ==> depths[i] < |s.targets| =>
          s.targets[|s.targets| - depths[i] - 1].block)
  }

  function BrTableOp(s: Emission, depths: seq<nat>, default: nat): Option<Emission> {
    if Available(s) < 1 || s.insert >= |s.blocks| then None else
    var target :- TargetAt(s, default);
    var n, stack := |target.params|, s.stack[..|s.stack| - 1];
    if n != |target.phis| || Available(s) < 1 + n || target.block >= |s.blocks| then None
    else if !(forall i :: 0 <= i < |depths| ==> depths[i] < |s.targets|) then None
    else
      var args := stack[|stack| - n..];
      var s1 := AddIncoming(s, target.block, target.phis, args);
      var s2 :- AddTable(s1, depths, args);
      if s2.insert >= |s2.blocks| then None
      else
        EnterUnreachable(Append(s2, Switch(Last(s.stack), target.block, TableBlocks(s, depths)))
                         .(stack := stack[..|stack| - n]))
  }

  function ReturnOp(s: Emission, results: seq<ValueType>): Option<Emission> {
    if s.control == [] || s.insert >= |s.blocks| then None else
    var root, n := s.control[0], |results|;
    if |root.endPhis| != n || Available(s) < n || root.endBlock >= |s.blocks| then None
    else
      var s1 := AddIncoming(s, root.endBlock, root.endPhis, s.stack[|s.stack| - n..]);
      EnterUnreachable(Append(s1, Jump(root.endBlock)).(stack := s.stack[..|s.stack| - n]))
  }

  // ----- operators that stay in their block -----

  /** Appends an instruction that defines `count` registers and replaces `n` operands by them. */
  function DefineRegs(s: Emission, i: Instr, n: nat, count: nat): Option<Emission> {
    if Available(s) < n || s.insert >= |s.blocks| then None
    else
      Some(Append(s, i).(nextReg := s.nextReg + count,
                         stack := s.stack[..|s.stack| - n] + AsOperands(PhiRegs(s.nextReg, count))))
  }

  /** An operator in reachable code. */
  function ReachableStep(fn: FunctionDef, s: Emission, op: Op): Option<Emission>
    requires WellFormed(fn) && WellFormedOp(fn, op)
  {
    match op
    case Block(bt) =>
      var t :- ResolveBlockType(fn.mod, bt);
      BlockOp(s, t)
    case Loop(bt) =>
      var t :- ResolveBlockType(fn.mod, bt);
      LoopOp(s, t)
    case If(bt) =>
      var t :- ResolveBlockType(fn.mod, bt);
      IfOp(s, t)
    case Else => ElseOp(s)
    case End => EndOp(s)
    case Br(depth) => BrOp(s, depth)
    case BrIf(depth) => BrIfOp(s, depth)
    case BrTable(table, default) => BrTableOp(s, fn.branchTables[table], default)
    case Return => ReturnOp(s, Signature(fn).results)
    case Unreachable =>
      if s.insert >= |s.blocks| then None
      else EnterUnreachable(Append(Append(s, TrapCall), NoReturn))
    case Drop => if s.stack == [] then None else Some(s.(stack := Front(s.stack)))
    case Select(_) =>
      if Available(s) < 3 then None
      else
        var n := |s.stack|;
        DefineRegs(s, Choose(s.nextReg, s.stack[n - 1], s.stack[n - 3], s.stack[n - 2]), 3, 1)
    case LocalGet(i) =>
      if i >= |LocalTypes(fn)| then None else DefineRegs(s, Load(s.nextReg, i), 0, 1)
    case LocalSet(i) =>
      if i >= |LocalTypes(fn)| || Available(s) < 1 then None else DefineRegs(s, Store(i, Last(s.stack)), 1, 0)
    case LocalTee(i) =>
      if i >= |LocalTypes(fn)| || s.stack == [] then None else DefineRegs(s, Store(i, Last(s.stack)), 0, 0)
    case Plain(id, sig, _) =>
      if Available(s) < |sig.params| then None
      else
        DefineRegs(s, Compute(s.nextReg, |sig.results|, id, s.stack[|s.stack| - |sig.params|..]),
               |sig.params|, |sig.results|)
  }

  /** An operator in unreachable code: only the nesting is tracked, and the `else` or `end` that
      ends the unreachable code is passed on. */
  function UnreachableStep(s: Emission, op: Op): Option<Emission> {
    if op.Opens() then Some(s.(skip := s.skip + 1))
    else if op.Else? then if s.skip == 0 then ElseOp(s) else Some(s)
    else if op.End? then if s.skip == 0 then EndOp(s) else Some(s.(skip := s.skip - 1))
    else Some(s)
  }

  function Step(fn: FunctionDef, s: Emission, op: Op): Option<Emission>
    requires WellFormed(fn) && WellFormedOp(fn, op)
  {
    if s.control == [] then None
    else if Last(s.control).reachable then ReachableStep(fn, s, op)
    else UnreachableStep(s, op)
  }

  // ----- the whole function -----

  const ENTRY: nat := 0
  const RETURN: nat := 1

  /** Stores parameters `i` and up, and zeros for the other locals, in their slots. */
  function StoreLocals(numParams: nat, types: seq<ValueType>, i: nat): seq<Instr>
    requires i <= |types|
    decreases |types| - i
  {
    if i == |types| then []
    else [Store(i, if i < numParams then Param(i) else ZeroOf(types[i]))] + StoreLocals(numParams, types, i + 1)
  }

  function Initial(fn: FunctionDef): Emission
    requires WellFormed(fn)
  {
    var results, phis := Signature(fn).results, PhiRegs(0, |Signature(fn).results|);
    var s := CreatePhis(CreateBlock(CreateBlock(Emission([], 0, 0, [], [], [], 0))), RETURN, results);
    var stores := StoreLocals(|Signature(fn).params|, LocalTypes(fn), 0);
    Emission(s.blocks[ENTRY := s.blocks[ENTRY].(code := stores)], ENTRY, s.nextReg, [],
             [Context(FunctionBody, RETURN, phis, None, [], results, 0, 0, true)],
             [BranchTarget(results, RETURN, phis)], 0)
  }

  /** The emitter's state after the first `n` operators. */
  function After(fn: FunctionDef, n: nat): Option<Emission>
    requires WellFormed(fn) && n <= |fn.code|
  {
    if n == 0 then Some(Initial(fn))
    else
      var s :- After(fn, n - 1);
      Step(fn, s, fn.code[n - 1])
  }

  /** The emitted graph: the operators' code and the final return. */
  function Emit(fn: FunctionDef): Option<Graph>
    requires WellFormed(fn)
  {
    var s :- After(fn, |fn.code|);
    if s.control != [] || s.insert != RETURN || RETURN >= |s.blocks| || |s.stack| != |Signature(fn).results| then None
    else Some(Append(s, Ret(s.stack)).blocks)
  }
}
