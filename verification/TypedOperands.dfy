/** How the validator's operand stack stands for the operand types of the typing relation. */
module TypedOperands {
  import opened IR
  import opened Wrappers
  import opened V = Validator
  import opened Typing

  lemma MatchesIffSubtype(sub: ValueType, super: ValueType)
    ensures Matches(sub, super) <==> IsSubtype(sub, super)
  {
  }

  lemma MatchesTransitive(a: ValueType, b: ValueType, c: ValueType)
    requires Matches(a, b) && Matches(b, c)
    ensures Matches(a, c)
  {
  }

  lemma EnabledIffValid(features: FeatureSpec, t: ValueType)
    ensures Enabled(features, t) <==> ValidValueType(features, t)
  {
  }

  lemma BlockTypedIff(mod: Module, bt: BlockType, ft: FuncType)
    ensures BlockTyped(mod, bt, ft) <==> ValidateBlockType(mod, bt) == Some(ft)
  {
    match bt
    case OneResult(t) => EnabledIffValid(mod.features, t);
    case _ =>
  }

  // ----- popping -----

  /** The base of the innermost context lies within the stack. */
  ghost predicate Based(s: State) {
    s.control != [] && Last(s.control).outer <= |s.stack|
  }

  /** The operands above the base. */
  function Operands(s: State): seq<ValueType>
    requires Based(s)
  {
    s.stack[Last(s.control).outer..]
  }

  /** The state with some operands less, or as many as there are. */
  function Cut(s: State, n: nat): (r: State)
    requires Based(s)
    ensures Based(r) && r.control == s.control
  {
    s.(stack := if n <= |Operands(s)| then s.stack[..|s.stack| - n] else s.stack[..Last(s.control).outer])
  }

  /** The topmost operands, as many as there are, match; if there are too few, the context is unreachable. */
  ghost predicate Supplies(s: State, ts: seq<ValueType>)
    requires Based(s)
  {
    var have := Operands(s);
    && (|have| < |ts| ==> !Last(s.control).reachable)
    && forall i :: 0 <= i < |ts| && |ts| - i <= |have| ==> Matches(have[|have| - (|ts| - i)], ts[i])
  }

  lemma PeekIff(s: State, depth: nat, t: ValueType)
    requires Based(s)
    ensures var have := Operands(s);
            Peek(s, depth, t).Some? <==>
              if depth < |have| then Matches(have[|have| - 1 - depth], t) else !Last(s.control).reachable
  {
    if depth < |Operands(s)| {
      MatchesIffSubtype(s.stack[|s.stack| - depth - 1], t);
    }
  }

  lemma PeekTupleIff(s: State, ts: seq<ValueType>)
    requires Based(s)
    ensures PeekTuple(s, ts) <==> Supplies(s, ts)
  {
    hide Peek, Matches;
    var have := Operands(s);
    forall i | 0 <= i < |ts| ensures Peek(s, |ts| - i - 1, ts[i]).Some? <==>
        if |ts| - i <= |have| then Matches(have[|have| - (|ts| - i)], ts[i]) else !Last(s.control).reachable
    {
      PeekIff(s, |ts| - i - 1, ts[i]);
    }
    if |have| < |ts| && PeekTuple(s, ts) {
      assert Peek(s, |ts| - 0 - 1, ts[0]).Some?;
    }
  }

  lemma PopOperandIs(s: State, t: ValueType)
    requires Based(s)
    ensures PopOperand(s, t) == if Supplies(s, [t]) then Some(Cut(s, 1)) else None
  {
    hide Matches;
    PeekIff(s, 0, t);
    var have := Operands(s);
    if Supplies(s, [t]) && |have| > 0 {
      assert Matches(have[|have| - (|[t]| - 0)], [t][0]);
    }
    assert s.stack[..|s.stack|] == s.stack;
  }

  lemma CutTwice(s: State, n: nat)
    requires Based(s)
    ensures Cut(Cut(s, 1), n) == Cut(s, n + 1)
  {
  }

  lemma SuppliesSplit(s: State, ts: seq<ValueType>)
    requires Based(s) && ts != []
    ensures Supplies(s, ts) <==> Supplies(s, [Last(ts)]) && Supplies(Cut(s, 1), Front(ts))
  {
    hide Supplies, Cut, Matches;
    if Supplies(s, ts) {
      SuppliesParts(s, ts);
    }
    if Supplies(s, [Last(ts)]) && Supplies(Cut(s, 1), Front(ts)) {
      SuppliesJoin(s, ts);
    }
  }

  lemma CutOperands(s: State)
    requires Based(s)
    ensures Operands(Cut(s, 1)) == if Operands(s) == [] then [] else Front(Operands(s))
  {
  }

  lemma SuppliesParts(s: State, ts: seq<ValueType>)
    requires Based(s) && ts != [] && Supplies(s, ts)
    ensures Supplies(s, [Last(ts)]) && Supplies(Cut(s, 1), Front(ts))
  {
    hide Matches, Cut, Operands;
    var have, fewer := Operands(s), Operands(Cut(s, 1));
    CutOperands(s);
    assert |have| > 0 ==> Matches(have[|have| - (|ts| - (|ts| - 1))], ts[|ts| - 1]);
    forall i | 0 <= i < |Front(ts)| && |Front(ts)| - i <= |fewer|
      ensures Matches(fewer[|fewer| - (|Front(ts)| - i)], Front(ts)[i])
    {
      assert Matches(have[|have| - (|ts| - i)], ts[i]);
    }
  }

  lemma SuppliesJoin(s: State, ts: seq<ValueType>)
    requires Based(s) && ts != [] && Supplies(s, [Last(ts)]) && Supplies(Cut(s, 1), Front(ts))
    ensures Supplies(s, ts)
  {
    hide Matches, Cut, Operands;
    var have, fewer := Operands(s), Operands(Cut(s, 1));
    CutOperands(s);
    forall i | 0 <= i < |ts| && |ts| - i <= |have| ensures Matches(have[|have| - (|ts| - i)], ts[i]) {
      if i < |ts| - 1 {
        assert Matches(fewer[|fewer| - (|Front(ts)| - i)], Front(ts)[i]);
      } else {
        assert Matches(have[|have| - (|[Last(ts)]| - 0)], [Last(ts)][0]);
      }
    }
  }

  /** Popping a tuple succeeds exactly if the operands supply it, and takes that many of them. */
  lemma {:induction false} PopTupleIs(s: State, ts: seq<ValueType>)
    requires Based(s)
    ensures PopTuple(s, ts) == if Supplies(s, ts) then Some(Cut(s, |ts|)) else None
    decreases |ts|
  {
    hide Supplies, Matches, PopOperand;
    if ts == [] {
      SuppliesNothing(s);
    } else {
      PopOperandIs(s, Last(ts));
      SuppliesSplit(s, ts);
      PopTupleIs(Cut(s, 1), Front(ts));
      CutTwice(s, |ts| - 1);
    }
  }

  lemma SuppliesNothing(s: State)
    requires Based(s)
    ensures Supplies(s, []) && Cut(s, 0) == s
  {
    assert s.stack[..|s.stack|] == s.stack;
  }

  // ----- operands that stand for declared ones -----

  /** The operands stand for the types: each matches its own; in an unreachable context there may be
      fewer of them. */
  ghost predicate Fits(s: State, types: seq<ValueType>) {
    && Based(s)
    && var have := Operands(s);
    && |have| <= |types| && (Last(s.control).reachable ==> |have| == |types|)
    && AllMatch(have, types[|types| - |have|..])
  }

  lemma FitsSupplies(s: State, types: seq<ValueType>, ts: seq<ValueType>)
    requires Fits(s, types) && Takes(ts, types)
    ensures Supplies(s, ts) && Fits(Cut(s, |ts|), types[..|types| - |ts|])
  {
    hide Matches;
    var have, top := Operands(s), types[|types| - |ts|..];
    forall i | 0 <= i < |ts| && |ts| - i <= |have| ensures Matches(have[|have| - (|ts| - i)], ts[i]) {
      var k := |have| - (|ts| - i);
      assert Matches(have[k], types[|types| - |have|..][k]) && Matches(top[i], ts[i]);
      MatchesTransitive(have[k], top[i], ts[i]);
    }
    var fewer, below := Operands(Cut(s, |ts|)), types[..|types| - |ts|];
    assert fewer == if |ts| <= |have| then have[..|have| - |ts|] else [];
    forall i | 0 <= i < |fewer| ensures Matches(fewer[i], below[|below| - |fewer|..][i]) {
      assert Matches(have[i], types[|types| - |have|..][i]);
    }
  }

  lemma FitsPush(s: State, types: seq<ValueType>, a: seq<ValueType>, b: seq<ValueType>)
    requires Fits(s, types) && AllMatch(a, b)
    ensures Fits(PushTuple(s, a), types + b)
  {
    hide Matches;
    var have := Operands(s);
    assert Operands(PushTuple(s, a)) == have + a;
    assert (types + b)[|types + b| - |have + a|..] == types[|types| - |have|..] + b;
  }

  lemma MatchThemselves(ts: seq<ValueType>)
    ensures AllMatch(ts, ts)
  {
  }

  /** Popping and pushing on operands that fit. */
  lemma FitsTurn(s: State, before: seq<ValueType>, params: seq<ValueType>, results: seq<ValueType>,
      after: seq<ValueType>)
    requires Fits(s, before) && Turns(params, results, before, after)
    ensures PopTuple(s, params) == Some(Cut(s, |params|))
    ensures Fits(PushTuple(Cut(s, |params|), results), after)
  {
    hide Supplies, Fits, AllMatch;
    FitsSupplies(s, before, params);
    assert Based(s) by { FitsBased(s, before); }
    PopTupleIs(s, params);
    MatchThemselves(results);
    FitsPush(Cut(s, |params|), before[..|before| - |params|], results, results);
  }

  lemma FitsBased(s: State, types: seq<ValueType>)
    requires Fits(s, types)
    ensures Based(s)
  {
  }
}
