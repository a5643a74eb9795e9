/** Translation of regular expressions to an NFA between two given states. The translation reuses
    the initial state of a `*`, so it accepts exactly `Star(Loop(e)) . Core(e)`, which is the
    expression's language unless a loop is added to a state that has other ways out. */
module RegExp {
  import opened NFA

  datatype Node =
    | Lit(chars: set<Char>)
    | ZeroOrMore(child: Node)
    | OneOrMore(child: Node)
    | Optional(child: Node)
    | Alt(first: Node, second: Node)
    | Seq(first: Node, second: Node)

  // ----- languages -----

  type Word = seq<Char>

  type Language = iset<Word>

  ghost function Concat(a: Language, b: Language): Language {
    iset w | exists k :: 0 <= k <= |w| && w[..k] in a && w[k..] in b
  }

  ghost predicate InStar(a: Language, w: Word)
    decreases |w|
  {
    w == [] || exists k :: 0 < k <= |w| && w[..k] in a && InStar(a, w[k..])
  }

  ghost function Star(a: Language): Language {
    iset w | InStar(a, w)
  }

  ghost function OneChar(chars: set<Char>): Language {
    iset w | |w| == 1 && w[0] in chars
  }

  /** The language of an expression. */
  ghost function Lang(e: Node): Language {
    match e
    case Lit(chars) => OneChar(chars)
    case ZeroOrMore(child) => Star(Lang(child))
    case OneOrMore(child) => Concat(Lang(child), Star(Lang(child)))
    case Optional(child) => Lang(child) + iset{[]}
    case Alt(first, second) => Lang(first) + Lang(second)
    case Seq(first, second) => Concat(Lang(first), Lang(second))
  }

  /** The words that lead from the initial state of the translation back to it. */
  ghost function Loop(e: Node): Language
    decreases e, 0
  {
    match e
    case Lit(_) => iset{}
    case ZeroOrMore(child) => Loop(child) + Core(child)
    case OneOrMore(child) => Loop(child)
    case Optional(child) => Loop(child)
    case Alt(first, second) => Loop(first) + Loop(second)
    case Seq(first, _) => Loop(first)
  }

  /** The words that lead from the initial state to the final one without such a loop. */
  ghost function Core(e: Node): Language
    decreases e, 0
  {
    match e
    case Lit(chars) => OneChar(chars)
    case ZeroOrMore(_) => iset{[]}
    case OneOrMore(child) => Concat(Core(child), Star(Loop(child) + Core(child)))
    case Optional(child) => Core(child) + iset{[]}
    case Alt(first, second) => Core(first) + Core(second)
    case Seq(first, second) => Concat(Core(first), Translated(second))
  }

  /** What the translation accepts. */
  ghost function Translated(e: Node): Language
    decreases e, 1
  {
    Concat(Star(Loop(e)), Core(e))
  }

  // ----- the translation -----

  function StatesNeeded(e: Node): nat {
    match e
    case Lit(_) => 0
    case ZeroOrMore(child) => StatesNeeded(child)
    case OneOrMore(child) => 1 + StatesNeeded(child) + StatesNeeded(child)
    case Optional(child) => StatesNeeded(child)
    case Alt(first, second) => StatesNeeded(first) + StatesNeeded(second)
    case Seq(first, second) => 1 + StatesNeeded(first) + StatesNeeded(second)
  }

  function Create(nfa: Automaton, e: Node, i: StateIndex, f: StateIndex): (r: Automaton)
    requires 0 <= i < |nfa|
    ensures |r| == |nfa| + StatesNeeded(e)
    decreases e
  {
    match e
    case Lit(chars) => WithEdge(nfa, i, chars, f)
    case ZeroOrMore(child) => WithEpsilonEdge(Create(nfa, child, i, i), i, f)
    case OneOrMore(child) =>
      var m := |nfa|;
      WithEpsilonEdge(Create(Create(WithState(nfa), child, i, m), child, m, m), m, f)
    case Optional(child) => WithEpsilonEdge(Create(nfa, child, i, f), i, f)
    case Alt(first, second) => Create(Create(nfa, first, i, f), second, i, f)
    case Seq(first, second) =>
      var m := |nfa|;
      Create(Create(WithState(nfa), first, i, m), second, m, f)
  }

  method CreateNFA(builder: Builder, node: Node, initialState: StateIndex, finalState: StateIndex)
    requires 0 <= initialState < |builder.nfaStates|
    requires |builder.nfaStates| + StatesNeeded(node) <= INT16_MAX
    modifies builder
    ensures builder.nfaStates == Create(old(builder.nfaStates), node, initialState, finalState)
    ensures old(Valid(builder.nfaStates)) && ValidTarget(old(builder.nfaStates), finalState) ==> Valid(builder.nfaStates)
    decreases node
  {
    match node {
      case Lit(chars) => builder.AddEdge(initialState, chars, finalState);
      case ZeroOrMore(child) =>
        CreateNFA(builder, child, initialState, initialState);
        builder.AddEpsilonEdge(initialState, finalState);
      case OneOrMore(child) =>
        var intermediateState := builder.AddState();
        CreateNFA(builder, child, initialState, intermediateState);
        CreateNFA(builder, child, intermediateState, intermediateState);
        builder.AddEpsilonEdge(intermediateState, finalState);
      case Optional(child) =>
        CreateNFA(builder, child, initialState, finalState);
        builder.AddEpsilonEdge(initialState, finalState);
      case Alt(first, second) =>
        CreateNFA(builder, first, initialState, finalState);
        CreateNFA(builder, second, initialState, finalState);
      case Seq(first, second) =>
        var intermediateState := builder.AddState();
        CreateNFA(builder, first, initialState, intermediateState);
        CreateNFA(builder, second, intermediateState, finalState);
    }
  }

  // ----- paths -----

  datatype Move = OnEpsilon(to: StateIndex) | OnChar(c: Char, to: StateIndex)

  predicate CanMove(nfa: Automaton, s: StateIndex, m: Move) {
    match m
    case OnEpsilon(t) => EpsilonEdge(nfa, s, t)
    case OnChar(c, t) => CharEdge(nfa, s, c, t)
  }

  predicate Walk(nfa: Automaton, s: StateIndex, moves: seq<Move>)
    decreases |moves|
  {
    moves == [] || (CanMove(nfa, s, moves[0]) && Walk(nfa, moves[0].to, moves[1..]))
  }

  function Read(m: Move): Word {
    if m.OnChar? then [m.c] else []
  }

  function Label(moves: seq<Move>): Word {
    if moves == [] then [] else Read(moves[0]) + Label(moves[1..])
  }

  function End(s: StateIndex, moves: seq<Move>): StateIndex
    decreases |moves|
  {
    if moves == [] then s else End(moves[0].to, moves[1..])
  }

  /** The word labels a walk from `s` to `t`. */
  ghost predicate Path(nfa: Automaton, s: StateIndex, w: Word, t: StateIndex) {
    exists moves :: Walk(nfa, s, moves) && Label(moves) == w && End(s, moves) == t
  }

  lemma {:induction false} WalkJoin(nfa: Automaton, s: StateIndex, m: seq<Move>, n: seq<Move>)
    requires Walk(nfa, s, m) && Walk(nfa, End(s, m), n)
    ensures Walk(nfa, s, m + n) && Label(m + n) == Label(m) + Label(n) && End(s, m + n) == End(End(s, m), n)
    decreases |m|
  {
    hide CanMove, Read;
    if m == [] {
      assert m + n == n && Label(m) + Label(n) == Label(n);
    } else {
      var rest := m[1..];
      WalkJoin(nfa, m[0].to, rest, n);
      assert (m + n)[0] == m[0] && (m + n)[1..] == rest + n;
      assert Label(m + n) == Read(m[0]) + (Label(rest) + Label(n)) == (Read(m[0]) + Label(rest)) + Label(n);
    }
  }

  lemma PathJoin(nfa: Automaton, s: StateIndex, u: Word, t: StateIndex, v: Word, r: StateIndex)
    requires Path(nfa, s, u, t) && Path(nfa, t, v, r)
    ensures Path(nfa, s, u + v, r)
  {
    var m :| Walk(nfa, s, m) && Label(m) == u && End(s, m) == t;
    var n :| Walk(nfa, t, n) && Label(n) == v && End(t, n) == r;
    WalkJoin(nfa, s, m, n);
  }

  lemma PathMove(nfa: Automaton, s: StateIndex, m: Move)
    requires CanMove(nfa, s, m)
    ensures Path(nfa, s, Read(m), m.to)
  {
    assert [m][1..] == [];
    assert Walk(nfa, s, [m]) && Label([m]) == Read(m) + [] && End(s, [m]) == m.to;
  }

  lemma PathEmpty(nfa: Automaton, s: StateIndex)
    ensures Path(nfa, s, [], s)
  {
    assert Walk(nfa, s, []) && Label([]) == [] && End(s, []) == s;
  }

  // ----- additions never lose a path -----

  ghost predicate Grows(nfa: Automaton, more: Automaton) {
    && |nfa| <= |more|
    && (forall s, c: Char, t :: CharEdge(nfa, s, c, t) ==> CharEdge(more, s, c, t))
    && forall s, t :: EpsilonEdge(nfa, s, t) ==> EpsilonEdge(more, s, t)
  }

  lemma EdgeGrows(nfa: Automaton, s: StateIndex, chars: set<Char>, t: StateIndex)
    requires 0 <= s < |nfa|
    ensures Grows(nfa, WithEdge(nfa, s, chars, t)) && Grows(nfa, WithEpsilonEdge(nfa, s, t))
    ensures Grows(nfa, WithState(nfa))
  {
  }

  lemma {:induction false} CreateGrows(nfa: Automaton, e: Node, i: StateIndex, f: StateIndex)
    requires 0 <= i < |nfa|
    ensures Grows(nfa, Create(nfa, e, i, f))
    decreases e
  {
    match e
    case Lit(chars) => EdgeGrows(nfa, i, chars, f);
    case ZeroOrMore(child) =>
      CreateGrows(nfa, child, i, i);
      EdgeGrows(Create(nfa, child, i, i), i, {}, f);
    case OneOrMore(child) =>
      var m := |nfa|;
      EdgeGrows(nfa, i, {}, f);
      CreateGrows(WithState(nfa), child, i, m);
      var a := Create(WithState(nfa), child, i, m);
      CreateGrows(a, child, m, m);
      EdgeGrows(Create(a, child, m, m), m, {}, f);
    case Optional(child) =>
      CreateGrows(nfa, child, i, f);
      EdgeGrows(Create(nfa, child, i, f), i, {}, f);
    case Alt(first, second) =>
      CreateGrows(nfa, first, i, f);
      CreateGrows(Create(nfa, first, i, f), second, i, f);
    case Seq(first, second) =>
      var m := |nfa|;
      EdgeGrows(nfa, i, {}, f);
      CreateGrows(WithState(nfa), first, i, m);
      CreateGrows(Create(WithState(nfa), first, i, m), second, m, f);
  }

  lemma {:induction false} WalkGrows(nfa: Automaton, more: Automaton, s: StateIndex, moves: seq<Move>)
    requires Grows(nfa, more) && Walk(nfa, s, moves)
    ensures Walk(more, s, moves)
    decreases |moves|
  {
    if moves != [] {
      WalkGrows(nfa, more, moves[0].to, moves[1..]);
    }
  }

  lemma PathGrows(nfa: Automaton, more: Automaton, s: StateIndex, w: Word, t: StateIndex)
    requires Grows(nfa, more) && Path(nfa, s, w, t)
    ensures Path(more, s, w, t)
  {
    var m :| Walk(nfa, s, m) && Label(m) == w && End(s, m) == t;
    WalkGrows(nfa, more, s, m);
  }

  // ----- every word of the translated language labels a path -----

  ghost predicate Labels(nfa: Automaton, s: StateIndex, a: Language, t: StateIndex) {
    forall w :: w in a ==> Path(nfa, s, w, t)
  }

  lemma LabelsGrow(nfa: Automaton, more: Automaton, s: StateIndex, a: Language, t: StateIndex)
    requires Grows(nfa, more) && Labels(nfa, s, a, t)
    ensures Labels(more, s, a, t)
  {
    forall w | w in a ensures Path(more, s, w, t) {
      PathGrows(nfa, more, s, w, t);
    }
  }

  lemma LabelsConcat(nfa: Automaton, s: StateIndex, a: Language, t: StateIndex, b: Language, r: StateIndex)
    requires Labels(nfa, s, a, t) && Labels(nfa, t, b, r)
    ensures Labels(nfa, s, Concat(a, b), r)
  {
    forall w | w in Concat(a, b) ensures Path(nfa, s, w, r) {
      var k :| 0 <= k <= |w| && w[..k] in a && w[k..] in b;
      PathJoin(nfa, s, w[..k], t, w[k..], r);
      assert w == w[..k] + w[k..];
    }
  }

  lemma LabelsStar(nfa: Automaton, s: StateIndex, a: Language)
    requires Labels(nfa, s, a, s)
    ensures Labels(nfa, s, Star(a), s)
  {
    forall w | w in Star(a) ensures Path(nfa, s, w, s) {
      StarPath(nfa, s, a, w);
    }
  }

  lemma {:induction false} StarPath(nfa: Automaton, s: StateIndex, a: Language, w: Word)
    requires Labels(nfa, s, a, s) && InStar(a, w)
    ensures Path(nfa, s, w, s)
    decreases |w|
  {
    if w == [] {
      PathEmpty(nfa, s);
    } else {
      var k :| 0 < k <= |w| && w[..k] in a && InStar(a, w[k..]);
      StarPath(nfa, s, a, w[k..]);
      PathJoin(nfa, s, w[..k], s, w[k..], s);
      assert w == w[..k] + w[k..];
    }
  }

  lemma EpsilonLabels(nfa: Automaton, s: StateIndex, t: StateIndex)
    requires 0 <= s < |nfa|
    ensures Path(WithEpsilonEdge(nfa, s, t), s, [], t)
  {
    PathMove(WithEpsilonEdge(nfa, s, t), s, OnEpsilon(t));
  }

  lemma LitLabels(nfa: Automaton, s: StateIndex, chars: set<Char>, t: StateIndex)
    requires 0 <= s < |nfa|
    ensures Labels(WithEdge(nfa, s, chars, t), s, OneChar(chars), t)
  {
    var more := WithEdge(nfa, s, chars, t);
    forall w | w in OneChar(chars) ensures Path(more, s, w, t) {
      PathMove(more, s, OnChar(w[0], t));
      assert w == [w[0]];
    }
  }

  /** The loop words lead back to the initial state, the core words to the final one. */
  lemma {:induction false} CreateLabels(nfa: Automaton, e: Node, i: StateIndex, f: StateIndex)
    requires 0 <= i < |nfa|
    ensures Labels(Create(nfa, e, i, f), i, Loop(e), i) && Labels(Create(nfa, e, i, f), i, Core(e), f)
    decreases e
  {
    hide Labels, Grows, Path, Concat, Star, WithEdge, WithEpsilonEdge;
    var r := Create(nfa, e, i, f);
    match e
    case Lit(chars) =>
      LitLabels(nfa, i, chars, f);
      NothingLabels(r, i);
    case ZeroOrMore(child) =>
      var a := Create(nfa, child, i, i);
      CreateLabels(nfa, child, i, i);
      EdgeGrows(a, i, {}, f);
      EpsilonLabels(a, i, f);
      JoinLabels(a, r, i, Loop(child), Core(child), i);
      EmptyLabels(r, i, f);
    case OneOrMore(child) =>
      RepeatLabels(nfa, child, i, f);
    case Optional(child) =>
      var a := Create(nfa, child, i, f);
      CreateLabels(nfa, child, i, f);
      EdgeGrows(a, i, {}, f);
      EpsilonLabels(a, i, f);
      LabelsGrow(a, r, i, Loop(child), i);
      LabelsGrow(a, r, i, Core(child), f);
      EmptyLabels(r, i, f);
      UnionLabels(r, i, Core(child), iset{[]}, f);
    case Alt(first, second) =>
      var a := Create(nfa, first, i, f);
      CreateLabels(nfa, first, i, f);
      CreateLabels(a, second, i, f);
      CreateGrows(a, second, i, f);
      LabelsGrow(a, r, i, Loop(first), i);
      LabelsGrow(a, r, i, Core(first), f);
      UnionLabels(r, i, Loop(first), Loop(second), i);
      UnionLabels(r, i, Core(first), Core(second), f);
    case Seq(first, second) =>
      var m := |nfa|;
      var a := Create(WithState(nfa), first, i, m);
      CreateLabels(WithState(nfa), first, i, m);
      CreateLabels(a, second, m, f);
      CreateGrows(a, second, m, f);
      LabelsGrow(a, r, i, Loop(first), i);
      LabelsGrow(a, r, i, Core(first), m);
      LabelsStar(r, m, Loop(second));
      LabelsConcat(r, m, Star(Loop(second)), m, Core(second), f);
      LabelsConcat(r, i, Core(first), m, Translated(second), f);
  }

  lemma {:induction false} RepeatLabels(nfa: Automaton, child: Node, i: StateIndex, f: StateIndex)
    requires 0 <= i < |nfa|
    ensures var e := OneOrMore(child);
            Labels(Create(nfa, e, i, f), i, Loop(e), i) && Labels(Create(nfa, e, i, f), i, Core(e), f)
    decreases OneOrMore(child), 0
  {
    hide Labels, Grows, Path, Concat, Star, WithEdge, WithEpsilonEdge;
    var r, m := Create(nfa, OneOrMore(child), i, f), |nfa|;
    var a := Create(WithState(nfa), child, i, m);
    var b := Create(a, child, m, m);
    var again := Loop(child) + Core(child);
    CreateLabels(WithState(nfa), child, i, m);
    CreateLabels(a, child, m, m);
    CreateGrows(a, child, m, m);
    EdgeGrows(b, m, {}, f);
    EpsilonLabels(b, m, f);
    LabelsGrow(a, b, i, Loop(child), i);
    LabelsGrow(a, b, i, Core(child), m);
    LabelsGrow(b, r, i, Loop(child), i);
    LabelsGrow(b, r, i, Core(child), m);
    JoinLabels(b, r, m, Loop(child), Core(child), m);
    LabelsStar(r, m, again);
    StarThenEpsilon(r, m, again, f);
    LabelsConcat(r, i, Core(child), m, Star(again), f);
  }

  lemma StarThenEpsilon(nfa: Automaton, m: StateIndex, a: Language, f: StateIndex)
    requires Labels(nfa, m, Star(a), m) && Path(nfa, m, [], f)
    ensures Labels(nfa, m, Star(a), f)
  {
    forall w | w in Star(a) ensures Path(nfa, m, w, f) {
      PathJoin(nfa, m, w, m, [], f);
      assert w + [] == w;
    }
  }

  lemma JoinLabels(nfa: Automaton, more: Automaton, s: StateIndex, a: Language, b: Language, t: StateIndex)
    requires Grows(nfa, more) && Labels(nfa, s, a, t) && Labels(nfa, s, b, t)
    ensures Labels(more, s, a + b, t)
  {
    LabelsGrow(nfa, more, s, a, t);
    LabelsGrow(nfa, more, s, b, t);
  }

  lemma UnionLabels(nfa: Automaton, s: StateIndex, a: Language, b: Language, t: StateIndex)
    requires Labels(nfa, s, a, t) && Labels(nfa, s, b, t)
    ensures Labels(nfa, s, a + b, t)
  {
  }

  lemma EmptyLabels(nfa: Automaton, s: StateIndex, t: StateIndex)
    requires Path(nfa, s, [], t)
    ensures Labels(nfa, s, iset{[]}, t)
  {
  }

  lemma NothingLabels(nfa: Automaton, s: StateIndex)
    ensures Labels(nfa, s, iset{}, s)
  {
  }

  // ----- every path label is in the translated language -----

  /** A meaning for every state: the words that may lead from it to acceptance. */
  type Meaning = StateIndex -> Language

  /** Every edge respects the meaning of its ends. */
  ghost predicate Explains(nfa: Automaton, meaning: Meaning) {
    && (forall s, c: Char, t, w: Word :: CharEdge(nfa, s, c, t) && w in meaning(t) ==> [c] + w in meaning(s))
    && forall s, t, w: Word :: EpsilonEdge(nfa, s, t) && w in meaning(t) ==> w in meaning(s)
  }

  /** A word of `a` before a word of `from` is a word of `into`. */
  ghost predicate Absorbs(a: Language, from: Language, into: Language) {
    forall u, v :: u in a && v in from ==> u + v in into
  }

  lemma {:induction false} WalkMeans(nfa: Automaton, meaning: Meaning, s: StateIndex, moves: seq<Move>)
    requires Explains(nfa, meaning) && Walk(nfa, s, moves) && [] in meaning(End(s, moves))
    ensures Label(moves) in meaning(s)
    decreases |moves|
  {
    if moves != [] {
      WalkMeans(nfa, meaning, moves[0].to, moves[1..]);
      assert EpsilonEdge(nfa, s, moves[0].to) ==> [] + Label(moves[1..]) == Label(moves[1..]);
    }
  }

  ghost predicate Agree(n: nat, a: Meaning, b: Meaning) {
    forall s :: s < n ==> a(s) == b(s)
  }

  lemma AbsorbsConcat(a: Language, b: Language, from: Language, into: Language)
    ensures Absorbs(Concat(a, b), from, into) <==> Absorbs(a, Concat(b, from), into)
  {
    if Absorbs(Concat(a, b), from, into) {
      forall u, v | u in a && v in Concat(b, from) ensures u + v in into {
        var k :| 0 <= k <= |v| && v[..k] in b && v[k..] in from;
        var ub := u + v[..k];
        assert ub[..|u|] == u && ub[|u|..] == v[..k];
        assert ub in Concat(a, b);
        assert u + v == ub + v[k..];
      }
    }
    if Absorbs(a, Concat(b, from), into) {
      forall u, v | u in Concat(a, b) && v in from ensures u + v in into {
        var k :| 0 <= k <= |u| && u[..k] in a && u[k..] in b;
        var bv := u[k..] + v;
        assert bv[..|u| - k] == u[k..] && bv[|u| - k..] == v;
        assert bv in Concat(b, from);
        assert u + v == u[..k] + bv;
      }
    }
  }

  /** `Star(a) . from` absorbs further words of `a`, and contains `from`. */
  lemma StarAbsorbs(a: Language, from: Language)
    ensures Absorbs(a, Concat(Star(a), from), Concat(Star(a), from))
    ensures from <= Concat(Star(a), from)
  {
    forall u, v | u in a && v in Concat(Star(a), from) ensures u + v in Concat(Star(a), from) {
      var k :| 0 <= k <= |v| && v[..k] in Star(a) && v[k..] in from;
      StarPrepend(a, u, v[..k]);
      var w := u + v;
      assert w[..|u| + k] == u + v[..k] && w[|u| + k..] == v[k..];
    }
    forall w | w in from ensures w in Concat(Star(a), from) {
      assert w[..0] == [] && w[0..] == w;
    }
  }

  lemma StarPrepend(a: Language, u: Word, v: Word)
    requires u in a && v in Star(a)
    ensures u + v in Star(a)
  {
    var w := u + v;
    if u == [] {
      assert w == v;
    } else {
      assert w[..|u|] == u && w[|u|..] == v;
    }
  }
}
