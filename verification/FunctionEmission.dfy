/** The emitter as an object that consumes one operator at a time, updating its stacks, the
    graph and the insert point in place. The assertions of the emitter are preconditions here;
    `EmitFunction` discharges them for every body the validator accepts. */
module FunctionEmission {
  import opened IR
  import opened Wrappers
  import V = Validator
  import opened ValidatorRuns
  import opened Cfg
  import opened Emitter
  import opened GraphFacts
  import opened EmitterFacts
  import opened EmitterRuns
  import opened Lockstep

  /** Adds one incoming value to each of the PHIs, the last one first. */
  function AddBackwards(bb: BasicBlock, phis: seq<nat>, vs: seq<Operand>, from: nat): BasicBlock
    requires |phis| == |vs|
  {
    if phis == [] then bb else AddOne(AddBackwards(bb, phis[1..], vs[1..], from), phis[0], vs[0], from)
  }

  lemma {:induction false} AddFirst(bb: BasicBlock, phi: nat, v: Operand, phis: seq<nat>, vs: seq<Operand>, from: nat)
    requires |phis| == |vs| && phi !in phis
    ensures AddOne(AddAll(bb, phis, vs, from), phi, v, from) == AddAll(bb, [phi] + phis, [v] + vs, from)
  {
    assert Front([phi] + phis) == if phis == [] then [] else [phi] + Front(phis);
    assert Front([v] + vs) == if vs == [] then [] else [v] + Front(vs);
    if phis != [] {
      AddFirst(bb, phi, v, Front(phis), Front(vs), from);
      var b := AddAll(bb, Front(phis), Front(vs), from);
      assert AddOne(AddOne(b, phi, v, from), Last(phis), Last(vs), from)
          == AddOne(AddOne(b, Last(phis), Last(vs), from), phi, v, from);
    }
  }

  /** The order in which distinct PHIs are fed does not matter. */
  lemma {:induction false} BackwardsIsAll(bb: BasicBlock, phis: seq<nat>, vs: seq<Operand>, from: nat)
    requires |phis| == |vs| && Distinct(phis)
    ensures AddBackwards(bb, phis, vs, from) == AddAll(bb, phis, vs, from)
  {
    if phis != [] {
      BackwardsIsAll(bb, phis[1..], vs[1..], from);
      AddFirst(bb, phis[0], vs[0], phis[1..], vs[1..], from);
      assert phis == [phis[0]] + phis[1..] && vs == [vs[0]] + vs[1..];
    }
  }

  lemma PhisStart(phis: map<nat, Phi>, first: nat, types: seq<ValueType>)
    ensures phis + NewPhis(first, types[..0]) == phis
  {
  }

  lemma PhisGrow(phis: map<nat, Phi>, first: nat, types: seq<ValueType>, i: nat)
    requires i < |types|
    ensures (phis + NewPhis(first, types[..i]))[first + i := Phi(types[i], [])] == phis + NewPhis(first, types[..i + 1])
  {
    assert Front(types[..i + 1]) == types[..i];
  }

  /** The PHIs of an end block or branch target are different objects. */
  ghost predicate PhisDistinct(s: Emission) {
    && (forall k :: 0 <= k < |s.control| ==> Distinct(s.control[k].endPhis))
    && forall k :: 0 <= k < |s.targets| ==> Distinct(s.targets[k].phis)
  }

  lemma InvDistinct(s: Emission)
    requires Inv(s)
    ensures PhisDistinct(s)
  {
    forall k | 0 <= k < |s.control| ensures Distinct(s.control[k].endPhis) && Distinct(s.targets[k].phis) {
      assert Settled(s.blocks, s.insert, s.control[k], s.targets[k], k);
    }
  }

  class EmitFunctionContext {
    const fn: FunctionDef
    var blocks: Graph
    var insert: nat
    var nextReg: nat
    var stack: seq<Operand>
    var control: seq<Context>
    var targets: seq<BranchTarget>
    var unreachableControlDepth: nat

    ghost function Now(): Emission
      reads this
    {
      Emission(blocks, insert, nextReg, stack, control, targets, unreachableControlDepth)
    }

    constructor (fn: FunctionDef)
      ensures this.fn == fn && Now() == Emission([], 0, 0, [], [], [], 0)
    {
      this.fn := fn;
      blocks, insert, nextReg, stack, control, targets, unreachableControlDepth := [], 0, 0, [], [], [], 0;
    }

    // ----- operand stack -----

    method Pop() returns (v: Operand)
      requires Available(Now()) >= 1
      modifies this`stack
      ensures stack == Front(old(stack)) && v == Last(old(stack))
    {
      v := stack[|stack| - 1];
      stack := stack[..|stack| - 1];
    }

    method PopMultiple(num: nat) returns (vs: seq<Operand>)
      requires Available(Now()) >= num
      modifies this`stack
      ensures |old(stack)| >= num
      ensures stack == old(stack)[..|old(stack)| - num] && vs == old(stack)[|old(stack)| - num..]
    {
      vs := stack[|stack| - num..];
      stack := stack[..|stack| - num];
    }

    method PushMultiple(vs: seq<Operand>)
      modifies this`stack
      ensures stack == old(stack) + vs
    {
      for i := 0 to |vs|
        invariant stack == old(stack) + vs[..i]
      {
        stack := stack + [vs[i]];
      }
    }

    // ----- the graph -----

    method AddBlock() returns (b: nat)
      modifies this`blocks
      ensures b == |old(blocks)| && Now() == CreateBlock(old(Now()))
    {
      b := |blocks|;
      blocks := blocks + [BasicBlock(map[], [])];
    }

    method CreatePHIs(b: nat, types: seq<ValueType>) returns (phis: seq<nat>)
      requires b < |blocks|
      modifies this`blocks, this`nextReg
      ensures Now() == CreatePhis(old(Now()), b, types) && phis == PhiRegs(old(nextReg), |types|)
    {
      hide NewPhis;
      phis := [];
      ghost var first, bb := nextReg, blocks[b];
      PhisStart(bb.phis, first, types);
      for i := 0 to |types|
        invariant nextReg == first + i && phis == PhiRegs(first, i)
        invariant blocks == old(blocks)[b := bb.(phis := bb.phis + NewPhis(first, types[..i]))]
      {
        PhisGrow(bb.phis, first, types, i);
        phis := phis + [nextReg];
        blocks := blocks[b := blocks[b].(phis := blocks[b].phis[nextReg := Phi(types[i], [])])];
        nextReg := nextReg + 1;
      }
      assert types[..|types|] == types;
    }

    method AddInstr(i: Instr)
      requires insert < |blocks|
      modifies this`blocks
      ensures Now() == Append(old(Now()), i)
    {
      blocks := blocks[insert := blocks[insert].(code := blocks[insert].code + [i])];
    }

    /** Adds one incoming value from the insert block to each of the PHIs. */
    method AddIncomings(b: nat, phis: seq<nat>, vs: seq<Operand>)
      requires b < |blocks| && |phis| == |vs|
      modifies this`blocks
      ensures Now() == AddIncoming(old(Now()), b, phis, vs)
    {
      for i := 0 to |phis|
        invariant blocks == old(blocks)[b := AddAll(old(blocks)[b], phis[..i], vs[..i], insert)]
      {
        assert Front(phis[..i + 1]) == phis[..i] && Front(vs[..i + 1]) == vs[..i];
        blocks := blocks[b := AddOne(blocks[b], phis[i], vs[i], insert)];
      }
      assert phis[..|phis|] == phis && vs[..|vs|] == vs;
    }

    /** Pops one incoming value for each of the PHIs, the last one first. */
    method PopIncomings(b: nat, phis: seq<nat>)
      requires b < |blocks| && Distinct(phis) && Available(Now()) >= |phis|
      modifies this`blocks, this`stack
      ensures |phis| <= |old(stack)|
      ensures Now() == AddIncoming(old(Now()), b, phis, old(stack)[|old(stack)| - |phis|..])
                       .(stack := old(stack)[..|old(stack)| - |phis|])
    {
      ghost var base := |stack| - |phis|;
      ghost var vs := stack[base..];
      for i := |phis| downto 0
        invariant stack == old(stack)[..base + i]
        invariant blocks == old(blocks)[b := AddBackwards(old(blocks)[b], phis[i..], vs[i..], insert)]
      {
        var v := Pop();
        assert phis[i..][1..] == phis[i + 1..] && vs[i..][1..] == vs[i + 1..];
        blocks := blocks[b := AddOne(blocks[b], phis[i], v, insert)];
      }
      BackwardsIsAll(old(blocks)[b], phis, vs, insert);
      assert phis[0..] == phis && vs[0..] == vs;
    }

    // ----- control contexts -----

    method PushControlStack(kind: Kind, results: seq<ValueType>, endBlock: nat, endPhis: seq<nat>,
                            elseBlock: Option<nat>, elseArgs: seq<Operand>)
      requires control != [] ==> Last(control).reachable
      modifies this`control
      ensures control == old(control) + [Context(kind, endBlock, endPhis, elseBlock, elseArgs, results,
                                                 |stack|, |targets|, true)]
    {
      control := control + [Context(kind, endBlock, endPhis, elseBlock, elseArgs, results,
                                    |stack|, |targets|, true)];
    }

    method EnterUnreachable()
      requires Emitter.EnterUnreachable(Now()).Some?
      modifies this`stack, this`control
      ensures Now() == Emitter.EnterUnreachable(old(Now())).value
    {
      var top := control[|control| - 1];
      assert top.outer <= |stack|;
      stack := stack[..top.outer];
      control := control[..|control| - 1] + [top.(reachable := false)];
    }

    method BranchToEndOfControlContext()
      requires BranchToEnd(Now()).Some? && PhisDistinct(Now())
      modifies this`blocks, this`stack
      ensures Now() == BranchToEnd(old(Now())).value
    {
      var top := control[|control| - 1];
      if top.reachable {
        PopIncomings(top.endBlock, top.endPhis);
        AddInstr(Jump(top.endBlock));
      }
      assert |stack| == top.outer;
    }

    // ----- control operators -----

    method Block(t: FuncType)
      requires BlockOp(Now(), t).Some?
      modifies this
      ensures Now() == BlockOp(old(Now()), t).value
    {
      hide AddAll, AddOne, NewPhis, PhiRegs, AsOperands, Distinct;
      var endBlock := AddBlock();
      var endPhis := CreatePHIs(endBlock, t.results);
      var args := PopMultiple(|t.params|);
      PushControlStack(BlockBody, t.results, endBlock, endPhis, None, []);
      targets := targets + [BranchTarget(t.results, endBlock, endPhis)];
      PushMultiple(args);
    }

    /** The blocks of a loop, with the PHIs of its parameters and of its end. */
    method AddLoopBlocks(t: FuncType) returns (body: nat, endBlock: nat, phis: seq<nat>, endPhis: seq<nat>)
      modifies this`blocks, this`nextReg
      ensures body == |old(blocks)| && endBlock == |old(blocks)| + 1 && |blocks| == |old(blocks)| + 2
      ensures Now() == CreatePhis(CreatePhis(CreateBlock(CreateBlock(old(Now()))), body, t.params), endBlock, t.results)
      ensures phis == PhiRegs(old(nextReg), |t.params|) && endPhis == PhiRegs(old(nextReg) + |t.params|, |t.results|)
    {
      hide NewPhis, PhiRegs;
      body := AddBlock();
      endBlock := AddBlock();
      phis := CreatePHIs(body, t.params);
      endPhis := CreatePHIs(endBlock, t.results);
    }

    method Loop(t: FuncType)
      requires LoopOp(Now(), t).Some?
      modifies this
      ensures Now() == LoopOp(old(Now()), t).value
    {
      hide AddAll, AddOne, NewPhis, PhiRegs, AsOperands, Distinct, CreatePhis, CreateBlock;
      var body, endBlock, phis, endPhis := AddLoopBlocks(t);
      ghost var s := Now();
      LoopBlocksKeep(old(Now()), t);
      PopIncomings(body, phis);
      assert blocks == AddIncoming(s, body, phis, s.stack[|s.stack| - |t.params|..]).blocks;
      AddInstr(Jump(body));
      insert := body;
      PushControlStack(LoopBody, t.results, endBlock, endPhis, None, []);
      targets := targets + [BranchTarget(t.params, body, phis)];
      PushMultiple(AsOperands(phis));
    }

    /** The blocks of an `if`, and the PHIs of its end. */
    method AddIfBlocks(t: FuncType) returns (thenBlock: nat, elseBlock: nat, endBlock: nat, endPhis: seq<nat>)
      requires IfOp(Now(), t).Some?
      modifies this`blocks, this`nextReg
      ensures Now() == old(Now()).(blocks := IfBlocks(old(Now()), t), nextReg := old(nextReg) + |t.results|)
      ensures |blocks| == |old(blocks)| + 3
      ensures thenBlock == |old(blocks)| && elseBlock == |old(blocks)| + 1 && endBlock == |old(blocks)| + 2
      ensures endPhis == PhiRegs(old(nextReg), |t.results|)
    {
      hide IfOp, IfBlocks, PhiRegs;
      IfReady(Now(), t);
      thenBlock := AddBlock();
      elseBlock := AddBlock();
      endBlock := AddBlock();
      endPhis := CreatePHIs(endBlock, t.results);
    }

    /** Ends the insert block with a branch on the topmost operand, and pops the arguments below it. */
    method BranchOnCondition(num: nat, thenBlock: nat, elseBlock: nat) returns (args: seq<Operand>)
      requires Available(Now()) >= num + 1 && insert < |blocks|
      modifies this`blocks, this`stack
      ensures |old(stack)| >= num + 1
      ensures var n := |old(stack)| - 1 - num;
              && args == old(stack)[n..|old(stack)| - 1]
              && Now() == Append(old(Now()), CondJump(Last(old(stack)), thenBlock, elseBlock)).(stack := old(stack)[..n])
    {
      ghost var was := stack;
      var condition := Pop();
      AddInstr(CondJump(condition, thenBlock, elseBlock));
      args := PopMultiple(num);
      assert stack == was[..|was| - 1 - num] && args == was[|stack|..|was| - 1];
    }

    method If(t: FuncType)
      requires IfOp(Now(), t).Some?
      modifies this
      ensures Now() == IfOp(old(Now()), t).value
    {
      hide IfOp, CreatePhis, IfBlocks, PhiRegs;
      ghost var s := Now();
      IfReady(s, t);
      IfForm(s, t);
      var thenBlock, elseBlock, endBlock, endPhis := AddIfBlocks(t);
      var args := BranchOnCondition(|t.params|, thenBlock, elseBlock);
      insert := thenBlock;
      PushControlStack(IfThen, t.results, endBlock, endPhis, Some(elseBlock), args);
      targets := targets + [BranchTarget(t.results, endBlock, endPhis)];
      PushMultiple(args);
      assert stack == s.stack[..|s.stack| - 1];
    }

    method Else()
      requires ElseOp(Now()).Some? && PhisDistinct(Now())
      modifies this
      ensures Now() == ElseOp(old(Now())).value
    {
      var top := control[|control| - 1];
      BranchToEndOfControlContext();
      assert top.elseBlock.Some? && top.kind == IfThen;
      insert := top.elseBlock.value;
      PushMultiple(top.elseArgs);
      control := control[..|control| - 1] + [top.(kind := IfElse, reachable := true, elseBlock := None)];
    }

    method PassThroughElse(top: Context)
      requires DummyElse(Now(), top).Some?
      modifies this`blocks, this`insert
      ensures Now() == DummyElse(old(Now()), top).value
    {
      if top.elseBlock.Some? {
        insert := top.elseBlock.value;
        AddIncomings(top.endBlock, top.endPhis, top.elseArgs);
        AddInstr(Jump(top.endBlock));
      }
    }

    /** Pushes the results of a context, erasing the PHIs nothing branches to. */
    method TakeEndPhis(b: nat, phis: seq<nat>, types: seq<ValueType>)
      requires b < |blocks| && |phis| == |types|
      modifies this`blocks, this`stack
      ensures blocks == old(blocks)[b := EraseEmpty(old(blocks)[b], phis)]
      ensures stack == old(stack) + EndValues(old(blocks)[b], phis, types)
    {
      ghost var bb := blocks[b];
      assert EraseEmpty(bb, phis[..0]).phis == bb.phis;
      for i := 0 to |phis|
        invariant blocks == old(blocks)[b := EraseEmpty(bb, phis[..i])]
        invariant stack == old(stack) + EndValues(bb, phis[..i], types[..i])
      {
        var phi, now := phis[i], blocks[b].phis;
        if phi in now && now[phi].incoming != [] {
          stack := stack + [Reg(phi)];
        } else {
          blocks := blocks[b := blocks[b].(phis := now - {phi})];
          stack := stack + [ZeroOf(types[i])];
        }
        assert blocks[b].phis == EraseEmpty(bb, phis[..i + 1]).phis;
        assert EndValues(bb, phis[..i + 1], types[..i + 1])
            == EndValues(bb, phis[..i], types[..i]) + [EndValue(bb, phi, types[i])];
      }
      assert phis[..|phis|] == phis && types[..|types|] == types;
    }

    method End()
      requires EndOp(Now()).Some? && PhisDistinct(Now())
      modifies this
      ensures Now() == EndOp(old(Now())).value
    {
      var top := control[|control| - 1];
      BranchToEndOfControlContext();
      PassThroughElse(top);
      insert := top.endBlock;
      assert |top.endPhis| == |top.results| && top.outerTargets <= |targets|;
      TakeEndPhis(top.endBlock, top.endPhis, top.results);
      targets := targets[..top.outerTargets];
      control := control[..|control| - 1];
    }

    method Br(depth: nat)
      requires BrOp(Now(), depth).Some? && PhisDistinct(Now())
      modifies this
      ensures Now() == BrOp(old(Now()), depth).value
    {
      var target := targets[|targets| - depth - 1];
      assert |target.params| == |target.phis|;
      PopIncomings(target.block, target.phis);
      AddInstr(Jump(target.block));
      EnterUnreachable();
    }

    method BrIf(depth: nat)
      requires BrIfOp(Now(), depth).Some?
      modifies this
      ensures Now() == BrIfOp(old(Now()), depth).value
    {
      var condition := Pop();
      var target := targets[|targets| - depth - 1];
      assert |target.params| == |target.phis|;
      AddIncomings(target.block, target.phis, stack[|stack| - |target.params|..]);
      var falseBlock := AddBlock();
      AddInstr(CondJump(condition, target.block, falseBlock));
      insert := falseBlock;
    }

    method BrTable(depths: seq<nat>, default: nat)
      requires BrTableOp(Now(), depths, default).Some?
      modifies this
      ensures Now() == BrTableOp(old(Now()), depths, default).value
    {
      hide AddAll;
      var index := Pop();
      var target := targets[|targets| - default - 1];
      ghost var full := old(stack)[..|old(stack)| - 1];
      var args := PopMultiple(|target.params|);
      AddIncomings(target.block, target.phis, args);
      TableIgnoresStack(AddIncoming(old(Now()), target.block, target.phis, args), depths, args, stack);
      var cases := AddCases(depths, args);
      AddInstr(Switch(index, target.block, cases));
      assert stack == full[..|full| - |args|];
      EnterUnreachable();
    }

    /** Adds the branch arguments to the PHIs of every table entry, and lists the entries. */
    method AddCases(depths: seq<nat>, args: seq<Operand>) returns (cases: seq<nat>)
      requires AddTable(Now(), depths, args).Some? && forall i :: 0 <= i < |depths| ==> depths[i] < |targets|
      modifies this`blocks
      ensures Now() == AddTable(old(Now()), depths, args).value && cases == TableBlocks(old(Now()), depths)
    {
      hide AddTable, TableBlocks;
      cases := [];
      assert depths[..|depths|] == depths;
      TableStart(Now(), depths, args);
      for i := 0 to |depths|
        invariant AddTable(old(Now()), depths[..i], args) == Some(Now())
        invariant cases == TableBlocks(old(Now()), depths)[..i]
      {
        TableStep(old(Now()), depths, args, i, Now());
        var entry := targets[|targets| - depths[i] - 1];
        assert i < UINT32_MAX && |entry.phis| == |args|;
        cases := cases + [entry.block];
        AddIncomings(entry.block, entry.phis, args);
      }
    }

    method Return()
      requires fn.typeIndex < |fn.mod.types| && ReturnOp(Now(), Signature(fn).results).Some? && PhisDistinct(Now())
      modifies this
      ensures Now() == ReturnOp(old(Now()), Signature(fn).results).value
    {
      PopIncomings(control[0].endBlock, control[0].endPhis);
      AddInstr(Jump(control[0].endBlock));
      EnterUnreachable();
    }

    /** Appends an instruction that defines `count` registers and replaces `n` operands by them. */
    method Define(i: Instr, n: nat, count: nat)
      requires DefineRegs(Now(), i, n, count).Some?
      modifies this
      ensures Now() == DefineRegs(old(Now()), i, n, count).value
    {
      var _ := PopMultiple(n);
      AddInstr(i);
      PushMultiple(AsOperands(PhiRegs(nextReg, count)));
      nextReg := nextReg + count;
    }

    // ----- dispatch -----

    /** An operator in reachable code. */
    method Visit(op: Op)
      requires WellFormed(fn) && WellFormedOp(fn, op) && ReachableStep(fn, Now(), op).Some? && PhisDistinct(Now())
      modifies this
      ensures Now() == ReachableStep(fn, old(Now()), op).value
    {
      match op {
        case Block(bt) => Block(ResolveBlockType(fn.mod, bt).value);
        case Loop(bt) => Loop(ResolveBlockType(fn.mod, bt).value);
        case If(bt) => If(ResolveBlockType(fn.mod, bt).value);
        case Else => Else();
        case End => End();
        case Br(depth) => Br(depth);
        case BrIf(depth) => BrIf(depth);
        case BrTable(table, default) => BrTable(fn.branchTables[table], default);
        case Return => Return();
        case Unreachable =>
          AddInstr(TrapCall);
          AddInstr(NoReturn);
          EnterUnreachable();
        case Drop => stack := stack[..|stack| - 1];
        case Select(_) =>
          var n := |stack|;
          Define(Choose(nextReg, stack[n - 1], stack[n - 3], stack[n - 2]), 3, 1);
        case LocalGet(i) => Define(Load(nextReg, i), 0, 1);
        case LocalSet(i) => Define(Store(i, stack[|stack| - 1]), 1, 0);
        case LocalTee(i) => Define(Store(i, stack[|stack| - 1]), 0, 0);
        case Plain(id, sig, _) =>
          Define(Compute(nextReg, |sig.results|, id, stack[|stack| - |sig.params|..]), |sig.params|, |sig.results|);
      }
    }

    /** An operator in unreachable code. */
    method SkipUnreachable(op: Op)
      requires UnreachableStep(Now(), op).Some? && PhisDistinct(Now())
      modifies this
      ensures Now() == UnreachableStep(old(Now()), op).value
    {
      match op {
        case Block(_) => unreachableControlDepth := unreachableControlDepth + 1;
        case Loop(_) => unreachableControlDepth := unreachableControlDepth + 1;
        case If(_) => unreachableControlDepth := unreachableControlDepth + 1;
        case Else =>
          if unreachableControlDepth == 0 {
            Else();
          }
        case End =>
          if unreachableControlDepth == 0 {
            End();
          } else {
            unreachableControlDepth := unreachableControlDepth - 1;
          }
        case _ =>
      }
    }

    /** Creates the entry and return blocks and the locals. */
    method EmitPrologue()
      requires WellFormed(fn) && Now() == Emission([], 0, 0, [], [], [], 0)
      modifies this
      ensures Now() == Emitter.Initial(fn)
    {
      var entryBlock := AddBlock();
      var returnBlock := AddBlock();
      var returnPhis := CreatePHIs(returnBlock, Signature(fn).results);
      insert := entryBlock;
      PushControlStack(FunctionBody, Signature(fn).results, returnBlock, returnPhis, None, []);
      targets := targets + [BranchTarget(Signature(fn).results, returnBlock, returnPhis)];
      EmitStores();
    }

    method EmitStores()
      requires fn.typeIndex < |fn.mod.types| && insert < |blocks| && blocks[insert].code == []
      modifies this`blocks
      ensures blocks == old(blocks)[insert := old(blocks)[insert].(code := StoreLocals(|Signature(fn).params|, LocalTypes(fn), 0))]
    {
      var types := LocalTypes(fn);
      ghost var all := StoreLocals(|Signature(fn).params|, types, 0);
      ghost var code: seq<Instr> := [];
      for i := 0 to |types|
        invariant code + StoreLocals(|Signature(fn).params|, types, i) == all
        invariant blocks == old(blocks)[insert := old(blocks)[insert].(code := code)]
      {
        var store := Store(i, if i < |Signature(fn).params| then Param(i) else ZeroOf(types[i]));
        AddInstr(store);
        assert code + ([store] + StoreLocals(|Signature(fn).params|, types, i + 1))
            == (code + [store]) + StoreLocals(|Signature(fn).params|, types, i + 1);
        code := code + [store];
      }
      assert code == all;
    }
  }

  lemma LoopBlocksKeep(s: Emission, t: FuncType)
    ensures var s2 := CreatePhis(CreatePhis(CreateBlock(CreateBlock(s)), |s.blocks|, t.params), |s.blocks| + 1, t.results);
            s2 == s.(blocks := s2.blocks, nextReg := s.nextReg + |t.params| + |t.results|) && |s2.blocks| == |s.blocks| + 2
    ensures |PhiRegs(s.nextReg, |t.params|)| == |t.params| && Distinct(PhiRegs(s.nextReg, |t.params|))
  {
  }

  lemma IfReady(s: Emission, t: FuncType)
    requires IfOp(s, t).Some?
    ensures Available(s) >= |t.params| + 1 && s.insert < |s.blocks| && (s.control != [] ==> Last(s.control).reachable)
    ensures CreatePhis(CreateBlock(CreateBlock(CreateBlock(s))), |s.blocks| + 2, t.results)
            == s.(blocks := IfBlocks(s, t), nextReg := s.nextReg + |t.results|)
    ensures |IfBlocks(s, t)| == |s.blocks| + 3
  {
    PhiBlockFacts(s.nextReg, t.results);
    var empty := BasicBlock(map[], []);
    var g := s.blocks + [empty] + [empty] + [empty];
    assert g[|s.blocks| + 2 := PhiBlock(s.nextReg, t.results)] == IfBlocks(s, t);
  }

  lemma {:induction false} TableIgnoresStack(s: Emission, depths: seq<nat>, args: seq<Operand>, stack: seq<Operand>)
    requires AddTable(s, depths, args).Some?
    ensures AddTable(s.(stack := stack), depths, args) == Some(AddTable(s, depths, args).value.(stack := stack))
    ensures AddTable(s, depths, args).value.targets == s.targets
  {
    if depths != [] {
      TableIgnoresStack(s, Front(depths), args, stack);
    }
  }

  lemma TableStart(s: Emission, depths: seq<nat>, args: seq<Operand>)
    ensures AddTable(s, depths[..0], args) == Some(s)
  {
  }

  lemma TableStep(s: Emission, depths: seq<nat>, args: seq<Operand>, i: nat, now: Emission)
    requires AddTable(s, depths, args).Some? && i < |depths| && AddTable(s, depths[..i], args) == Some(now)
    ensures now.targets == s.targets && depths[i] < |s.targets| && i < UINT32_MAX
    ensures var entry := s.targets[|s.targets| - depths[i] - 1];
            && |entry.phis| == |args| && entry.block < |now.blocks|
            && AddTable(s, depths[..i + 1], args) == Some(AddIncoming(now, entry.block, entry.phis, args))
  {
    hide AddTable, AddIncoming, AddAll;
    assert depths[..|depths|] == depths;
    TablePrefix(s, depths, args, i + 1, |depths|);
    TableIgnoresStack(s, depths[..i], args, s.stack);
    assert Front(depths[..i + 1]) == depths[..i];
    TableLast(s, depths[..i + 1], args, now);
  }

  lemma TableLast(s: Emission, depths: seq<nat>, args: seq<Operand>, now: Emission)
    requires AddTable(s, depths, args).Some? && depths != [] && AddTable(s, Front(depths), args) == Some(now)
    ensures Last(depths) < |now.targets| && |depths| - 1 < UINT32_MAX
    ensures var entry := now.targets[|now.targets| - Last(depths) - 1];
            && |entry.phis| == |args| && entry.block < |now.blocks|
            && AddTable(s, depths, args) == Some(AddIncoming(now, entry.block, entry.phis, args))
  {
    hide AddIncoming, AddAll;
  }

  lemma {:induction false} TablePrefix(s: Emission, depths: seq<nat>, args: seq<Operand>, i: nat, n: nat)
    requires i <= n <= |depths| && AddTable(s, depths[..n], args).Some?
    ensures AddTable(s, depths[..i], args).Some?
    decreases n
  {
    if i < n {
      assert Front(depths[..n]) == depths[..n - 1];
      TablePrefix(s, depths, args, i, n - 1);
    }
  }

  /** What one turn of the decode loop may rely on. */
  lemma TurnReady(fn: FunctionDef, n: nat)
    requires Accepted(fn) && n < |fn.code|
    ensures var s := Emitted(fn, n);
            && WellFormed(fn) && WellFormedOp(fn, fn.code[n]) && s.control != [] && PhisDistinct(s)
            && (if Last(s.control).reachable then ReachableStep(fn, s, fn.code[n])
                else UnreachableStep(s, fn.code[n])) == Some(Emitted(fn, n + 1))
  {
    hide Inv, Locked, IsRun, IsEmission, ReachableStep, UnreachableStep;
    RunStart(fn);
    EmittedStep(fn, n);
    EmittedOk(fn, n);
    InvDistinct(Emitted(fn, n));
    NeverEmptied(fn, n);
  }

  /** The decode loop over the whole body. No assertion of the emitter can fail on a body the
      validator accepts, and the result is the graph `Emit` specifies. */
  method EmitFunction(fn: FunctionDef) returns (g: Graph)
    requires V.Accepts(fn)
    ensures Emit(fn) == Some(g)
  {
    hide Inv, Locked, IsRun, IsEmission, ReachableStep, UnreachableStep, WellFormed, Emitter.Initial, V.Accepts, Emit;
    AcceptsIffRun(fn);
    RunStart(fn);
    EmittedOk(fn, 0);
    var context := new EmitFunctionContext(fn);
    context.EmitPrologue();
    var n := 0;
    while n < |fn.code| && context.control != []
      invariant n <= |fn.code| && context.Now() == Emitted(fn, n) && fresh(context) && context.fn == fn
    {
      TurnReady(fn, n);
      if Last(context.control).reachable {
        context.Visit(fn.code[n]);
      } else {
        context.SkipUnreachable(fn.code[n]);
      }
      n := n + 1;
    }
    assert n == |fn.code| by {
      if n < |fn.code| {
        NeverEmptied(fn, n);
      }
    }
    EmitSucceeds(fn);
    EmissionEnds(fn);
    context.AddInstr(Ret(context.stack));
    g := context.blocks;
  }
}
