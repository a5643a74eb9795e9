/** Runs of the validator over parts of the stream, and what opening and closing a construct do. */
module TypedRuns {
  import opened IR
  import opened Wrappers
  import opened V = Validator
  import opened Typing
  import opened TypedOperands

  ghost predicate AllWell(fn: FunctionDef, ops: seq<Op>) {
    forall i :: 0 <= i < |ops| ==> WellFormedOp(fn, ops[i])
  }

  /** The state after some operators. */
  ghost function RunOn(fn: FunctionDef, s: State, ops: seq<Op>): Option<State>
    requires WellFormed(fn) && AllWell(fn, ops)
    decreases |ops|
  {
    if ops == [] then Some(s)
    else
      var next :- Step(fn, s, ops[0]);
      RunOn(fn, next, ops[1..])
  }

  lemma WellSplit(fn: FunctionDef, a: seq<Op>, b: seq<Op>)
    requires AllWell(fn, a + b)
    ensures AllWell(fn, a) && AllWell(fn, b)
  {
    hide WellFormedOp;
    forall i | 0 <= i < |a| ensures WellFormedOp(fn, a[i]) {
      assert a[i] == (a + b)[i];
    }
    forall i | 0 <= i < |b| ensures WellFormedOp(fn, b[i]) {
      assert b[i] == (a + b)[|a| + i];
    }
  }

  lemma {:induction false} RunSplit(fn: FunctionDef, s: State, a: seq<Op>, b: seq<Op>)
    requires WellFormed(fn) && AllWell(fn, a + b) && AllWell(fn, a) && AllWell(fn, b)
    ensures RunOn(fn, s, a + b) == match RunOn(fn, s, a) case None => None case Some(m) => RunOn(fn, m, b)
    decreases |a|
  {
    hide Step, WellFormed, WellFormedOp;
    if a == [] {
      assert a + b == b;
    } else {
      assert (a + b)[0] == a[0] && (a + b)[1..] == a[1..] + b;
      var next := Step(fn, s, a[0]);
      if next.Some? {
        RunSplit(fn, next.value, a[1..], b);
      }
    }
  }

  lemma RunOne(fn: FunctionDef, s: State, op: Op)
    requires WellFormed(fn) && WellFormedOp(fn, op) && AllWell(fn, [op])
    ensures RunOn(fn, s, [op]) == Step(fn, s, op)
  {
    hide Step, WellFormed, WellFormedOp;
    var next := Step(fn, s, op);
    if next.Some? {
      assert [op][1..] == [];
      assert RunOn(fn, next.value, []) == next;
    }
  }

  /** The first operator of a stream. */
  lemma RunHead(fn: FunctionDef, s: State, op: Op, ops: seq<Op>)
    requires WellFormed(fn) && AllWell(fn, [op] + ops)
    ensures WellFormedOp(fn, op) && AllWell(fn, ops)
    ensures RunOn(fn, s, [op] + ops) == match Step(fn, s, op) case None => None case Some(r) => RunOn(fn, r, ops)
  {
    hide Step, WellFormed, WellFormedOp;
    WellSplit(fn, [op], ops);
    assert ([op] + ops)[0] == op && ([op] + ops)[1..] == ops;
  }

  /** A part of a stream, the operator behind it, and the rest. */
  lemma RunTail(fn: FunctionDef, s: State, part: seq<Op>, op: Op, ops: seq<Op>)
    requires WellFormed(fn) && AllWell(fn, part + [op] + ops)
    ensures AllWell(fn, part) && WellFormedOp(fn, op) && AllWell(fn, ops)
    ensures RunOn(fn, s, part + [op] + ops)
         == match RunOn(fn, s, part)
            case None => None
            case Some(m) => match Step(fn, m, op) case None => None case Some(r) => RunOn(fn, r, ops)
  {
    hide Step, WellFormed, WellFormedOp;
    assert part + [op] + ops == part + ([op] + ops);
    WellSplit(fn, part, [op] + ops);
    RunSplit(fn, s, part, [op] + ops);
    var m := RunOn(fn, s, part);
    RunHead(fn, if m.Some? then m.value else s, op, ops);
  }

  lemma {:induction false} AfterIsRun(fn: FunctionDef, n: nat)
    requires WellFormed(fn) && n <= |fn.code| && AllWell(fn, fn.code[..n])
    ensures After(fn, n) == match Initial(fn) case None => None case Some(s) => RunOn(fn, s, fn.code[..n])
  {
    hide Step, Initial, WellFormedOp;
    if n > 0 {
      var ops := fn.code[..n - 1];
      assert fn.code[..n] == ops + [fn.code[n - 1]];
      WellSplit(fn, ops, [fn.code[n - 1]]);
      AfterIsRun(fn, n - 1);
      if Initial(fn).Some? {
        RunSplit(fn, Initial(fn).value, ops, [fn.code[n - 1]]);
        if RunOn(fn, Initial(fn).value, ops).Some? {
          RunOne(fn, RunOn(fn, Initial(fn).value, ops).value, fn.code[n - 1]);
        }
      }
    }
  }

  // ----- staying in a context -----

  /** `m` has the contexts of `s`, but for whether the innermost is reachable, and the operands below it. */
  ghost predicate Kept(s: State, m: State) {
    && Based(s) && Based(m) && |m.control| == |s.control| && Front(m.control) == Front(s.control)
    && Last(m.control) == Last(s.control).(reachable := Last(m.control).reachable)
    && m.stack[..Last(s.control).outer] == s.stack[..Last(s.control).outer]
  }

  lemma KeptTransitive(a: State, b: State, c: State)
    requires Kept(a, b) && Kept(b, c)
    ensures Kept(a, c)
  {
  }

  lemma KeptOpen(s: State, m: State)
    requires Kept(s, m)
    ensures Based(s) && Based(m)
  {
  }

  lemma CutKept(s: State, n: nat, ts: seq<ValueType>)
    requires Based(s)
    ensures Kept(s, Cut(s, n)) && Kept(s, PushTuple(Cut(s, n), ts))
  {
    var base := Last(s.control).outer;
    assert Cut(s, n).stack[..base] == s.stack[..base];
    assert (Cut(s, n).stack + ts)[..base] == s.stack[..base];
  }

  lemma LeaveKept(s: State, m: State)
    requires Kept(s, m)
    ensures Kept(s, EnterUnreachable(m)) && Operands(EnterUnreachable(m)) == []
    ensures !Last(EnterUnreachable(m).control).reachable
  {
    var base := Last(s.control).outer;
    assert m.stack[..base][..base] == m.stack[..base];
  }

  /** The labels are those of the open contexts. */
  ghost predicate Agree(c: Context, fn: FunctionDef, s: State) {
    && fn.typeIndex < |fn.mod.types| && c == Context(fn.mod, fn.branchTables, LocalTypes(fn), Signature(fn).results, c.labels)
    && |c.labels| == |s.control| && forall k :: 0 <= k < |c.labels| ==> c.labels[k] == s.control[k].params
  }

  lemma AgreeKept(c: Context, fn: FunctionDef, s: State, m: State)
    requires Agree(c, fn, s) && Kept(s, m)
    ensures Agree(c, fn, m)
  {
    forall k | 0 <= k < |c.labels| ensures c.labels[k] == m.control[k].params {
      if k < |c.labels| - 1 {
        assert m.control[k] == Front(m.control)[k] && s.control[k] == Front(s.control)[k];
      } else {
        assert m.control[k] == Last(m.control) && s.control[k] == Last(s.control);
      }
    }
  }

  lemma LabelIs(c: Context, fn: FunctionDef, s: State, depth: nat)
    requires Agree(c, fn, s)
    ensures HasLabel(c, depth) <==> Target(s, depth).Some?
    ensures HasLabel(c, depth) ==> LabelAt(c, depth) == Target(s, depth).value.params
  {
  }

  // ----- opening and closing -----

  /** A construct has just been opened. */
  function Opened(s: State, kind: Kind, ft: FuncType): State
    requires Based(s)
  {
    PushTuple(PushControl(Cut(s, |ft.params|), kind, if kind == LoopBody then ft.params else ft.results, ft.results,
                          if kind == IfThen then ft.params else []),
              ft.params)
  }

  lemma OpenIs(mod: Module, s: State, bt: BlockType, kind: Kind)
    requires Based(s)
    ensures OpenOp(mod, s, bt, kind)
         == match ValidateBlockType(mod, bt)
            case None => None
            case Some(ft) => if Supplies(s, ft.params) then Some(Opened(s, kind, ft)) else None
  {
    hide Supplies;
    var ft := ValidateBlockType(mod, bt);
    if ft.Some? {
      PopTupleIs(s, ft.value.params);
    }
  }

  /** The other arm of a conditional has just been started. */
  function Switched(s: State, ft: FuncType): State
    requires Based(s)
  {
    var below := Cut(s, |ft.params|).stack;
    State(s.control + [V.Control(IfElse, |below|, ft.results, ft.results, true, ft.params)], below + ft.params)
  }

  /** At the start of a construct of some type, entered from `s`. */
  ghost predicate Entered(s: State, ft: FuncType, target: seq<ValueType>, e: State) {
    && Based(s) && Based(e) && |e.control| == |s.control| + 1 && Front(e.control) == s.control
    && Last(e.control).results == ft.results && Last(e.control).params == target && Last(e.control).reachable
    && e.stack[..Last(e.control).outer] == Cut(s, |ft.params|).stack && Operands(e) == ft.params
  }

  lemma OpenedEnters(s: State, kind: Kind, ft: FuncType)
    requires Based(s)
    ensures Entered(s, ft, if kind == LoopBody then ft.params else ft.results, Opened(s, kind, ft))
  {
    assert Opened(s, kind, ft).stack == Cut(s, |ft.params|).stack + ft.params;
  }

  lemma SwitchedEnters(s: State, ft: FuncType)
    requires Based(s)
    ensures Entered(s, ft, ft.results, Switched(s, ft))
  {
  }

  lemma EnteredAgrees(c: Context, fn: FunctionDef, s: State, ft: FuncType, target: seq<ValueType>, e: State)
    requires Entered(s, ft, target, e) && Agree(c, fn, s)
    ensures Fits(e, ft.params) && Agree(Inside(c, target), fn, e)
  {
    MatchThemselves(ft.params);
    assert ft.params[0..] == ft.params;
    assert forall k :: 0 <= k < |s.control| ==> e.control[k] == Front(e.control)[k];
  }

  /** The operands are the results and no more. */
  ghost predicate Gives(m: State, results: seq<ValueType>)
    requires Based(m)
  {
    Supplies(m, results) && |Operands(m)| <= |results|
  }

  lemma PopResultsIs(m: State)
    requires Based(m)
    ensures var top := Last(m.control);
            PopResults(m) == if Gives(m, top.results) then Some(m.(stack := m.stack[..top.outer])) else None
  {
    hide Supplies;
    var top := Last(m.control);
    PopTupleIs(m, top.results);
  }

  /** Closing a construct leaves its results in place of its parameters. */
  lemma CloseIs(s: State, ft: FuncType, target: seq<ValueType>, e: State, m: State)
    requires Entered(s, ft, target, e) && Kept(e, m)
    ensures EndOp(m)
         == if (Last(e.control).kind == IfThen ==> ft.results == Last(e.control).elseParams) && Gives(m, ft.results)
            then Some(PushTuple(Cut(s, |ft.params|), ft.results)) else None
  {
    hide Gives;
    PopResultsIs(m);
  }

  lemma SwitchIs(s: State, ft: FuncType, m: State)
    requires Based(s) && Kept(Opened(s, IfThen, ft), m)
    ensures ElseOp(m) == if Gives(m, ft.results) then Some(Switched(s, ft)) else None
  {
    hide Gives;
    PopResultsIs(m);
    OpenedEnters(s, IfThen, ft);
  }
}
