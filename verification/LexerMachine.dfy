/** The executable scanner: the DFA with its characters merged into classes that have the same
    transitions in every state, and the loop that feeds characters to it. */
module LexerMachine {
  import opened Wrappers
  import opened NFA
  import opened SubsetConstruction
  import opened DFAConversion

  /** The transitions of all states on one character. */
  function Column(dfa: DFA, c: Char): (r: seq<StateIndex>)
    ensures |r| == |dfa| && forall d :: 0 <= d < |dfa| ==> r[d] == dfa[d][c]
  {
    seq(|dfa|, d requires 0 <= d < |dfa| => dfa[d][c])
  }

  ghost function Columns(dfa: DFA, chars: seq<Char>): set<seq<StateIndex>> {
    set i | 0 <= i < |chars| :: Column(dfa, chars[i])
  }

  // ----- the order of columns -----

  /** The memory image of a 16-bit index, low byte first, read as one number. */
  function Image(x: StateIndex): int {
    x % 256 * 256 + x / 256 % 256
  }

  /** The order in which the columns are sorted: by the bytes of their memory image. */
  predicate Less(a: seq<StateIndex>, b: seq<StateIndex>)
    requires |a| == |b|
  {
    if a == [] then false
    else if a[0] == b[0] then Less(a[1..], b[1..])
    else Image(a[0]) < Image(b[0])
  }

  predicate Narrow(a: seq<StateIndex>) {
    forall i :: 0 <= i < |a| ==> -0x8000 <= a[i] <= INT16_MAX
  }

  lemma ImageInjective(x: StateIndex, y: StateIndex)
    requires -0x8000 <= x <= INT16_MAX && -0x8000 <= y <= INT16_MAX && Image(x) == Image(y)
    ensures x == y
  {
    assert x % 256 == y % 256 && x / 256 % 256 == y / 256 % 256;
    assert -128 <= x / 256 <= 127 && -128 <= y / 256 <= 127;
    assert x == x / 256 * 256 + x % 256 && y == y / 256 * 256 + y % 256;
  }

  lemma {:induction false} LessTotal(a: seq<StateIndex>, b: seq<StateIndex>)
    requires |a| == |b| && Narrow(a) && Narrow(b) && !Less(a, b) && !Less(b, a)
    ensures a == b
  {
    if a != [] {
      if a[0] == b[0] {
        LessTotal(a[1..], b[1..]);
        assert a == [a[0]] + a[1..] && b == [b[0]] + b[1..];
      } else {
        ImageInjective(a[0], b[0]);
      }
    }
  }

  lemma {:induction false} LessTransitive(a: seq<StateIndex>, b: seq<StateIndex>, c: seq<StateIndex>)
    requires |a| == |b| == |c| && Narrow(a) && Narrow(b) && Narrow(c) && !Less(b, a) && !Less(c, b)
    ensures !Less(c, a)
  {
    if a != [] {
      if a[0] == b[0] == c[0] {
        LessTransitive(a[1..], b[1..], c[1..]);
      } else if a[0] == c[0] {
        ImageInjective(a[0], b[0]);
      }
    }
  }

  ghost predicate Sorted(dfa: DFA, order: seq<Char>) {
    forall i, j :: 0 <= i < j < |order| ==> !Less(Column(dfa, order[j]), Column(dfa, order[i]))
  }

  ghost predicate Fits16(dfa: DFA) {
    ValidDFA(dfa) && |dfa| <= INT16_MAX
  }

  lemma ColumnNarrow(dfa: DFA, c: Char)
    requires Fits16(dfa)
    ensures Narrow(Column(dfa, c))
  {
  }

  /** The characters, sorted by their columns. */
  method SortByColumn(dfa: DFA) returns (order: seq<Char>)
    requires Fits16(dfa)
    ensures |order| == 256 && Sorted(dfa, order) && forall c: Char :: c in order
  {
    order := [];
    for c := 0 to 256
      invariant |order| == c && Sorted(dfa, order) && forall b: Char :: b < c ==> b in order
    {
      var k := |order|;
      while k > 0 && Less(Column(dfa, c), Column(dfa, order[k - 1]))
        invariant 0 <= k <= |order|
        invariant forall j :: k <= j < |order| ==> Less(Column(dfa, c), Column(dfa, order[j]))
      {
        k := k - 1;
      }
      InsertSorted(dfa, order, k, c);
      ghost var before := order;
      order := order[..k] + [c] + order[k..];
      assert forall b :: b in before ==> b in order by {
        assert before == before[..k] + before[k..];
      }
    }
  }

  lemma LessAsymmetric(a: seq<StateIndex>, b: seq<StateIndex>)
    requires |a| == |b| && Less(a, b)
    ensures !Less(b, a)
  {
  }

  lemma InsertSorted(dfa: DFA, order: seq<Char>, k: nat, c: Char)
    requires Fits16(dfa) && Sorted(dfa, order) && k <= |order|
    requires forall j :: k <= j < |order| ==> Less(Column(dfa, c), Column(dfa, order[j]))
    requires k > 0 ==> !Less(Column(dfa, c), Column(dfa, order[k - 1]))
    ensures Sorted(dfa, order[..k] + [c] + order[k..])
  {
    var r := order[..k] + [c] + order[k..];
    forall i, j | 0 <= i < j < |r| ensures !Less(Column(dfa, r[j]), Column(dfa, r[i])) {
      if j == k && i < k - 1 {
        ColumnNarrow(dfa, order[i]);
        ColumnNarrow(dfa, order[k - 1]);
        ColumnNarrow(dfa, c);
        LessTransitive(Column(dfa, order[i]), Column(dfa, order[k - 1]), Column(dfa, c));
      } else if i == k {
        LessAsymmetric(Column(dfa, c), Column(dfa, order[j - 1]));
      }
    }
  }

  // ----- character classes -----

  /** Neighbours with different columns: the later column has not occurred before. */
  lemma NewColumn(dfa: DFA, order: seq<Char>, i: nat)
    requires Fits16(dfa) && Sorted(dfa, order) && 0 < i < |order|
    requires Column(dfa, order[i]) != Column(dfa, order[i - 1])
    ensures Column(dfa, order[i]) !in Columns(dfa, order[..i])
  {
    var column := Column(dfa, order[i]);
    forall j | 0 <= j < i ensures Column(dfa, order[..i][j]) != column {
      if j < i - 1 && Column(dfa, order[j]) == column {
        ColumnNarrow(dfa, order[i]);
        ColumnNarrow(dfa, order[i - 1]);
        LessTotal(Column(dfa, order[i - 1]), column);
      }
    }
  }

  lemma ColumnsGrow(dfa: DFA, order: seq<Char>, i: nat)
    requires i < |order|
    ensures Columns(dfa, order[..i + 1]) == Columns(dfa, order[..i]) + {Column(dfa, order[i])}
    ensures i > 0 ==> Column(dfa, order[i - 1]) in Columns(dfa, order[..i])
  {
    var now, before := order[..i + 1], order[..i];
    forall j | 0 <= j < |now| ensures Column(dfa, now[j]) in Columns(dfa, before) + {Column(dfa, order[i])} {
      if j < i {
        assert Column(dfa, before[j]) in Columns(dfa, before);
      }
    }
    forall j | 0 <= j < |before| ensures Column(dfa, before[j]) in Columns(dfa, now) {
      assert now[j] == before[j];
    }
    assert Column(dfa, now[i]) in Columns(dfa, now);
    assert i > 0 ==> Column(dfa, before[i - 1]) in Columns(dfa, before);
  }

  /** The class of each character: a character and the representative of its class have the same
      column. */
  ghost predicate Classes(dfa: DFA, done: seq<Char>, classOf: seq<nat>, representatives: seq<Char>) {
    && |classOf| == 256
    && forall c: Char :: c in done ==>
         classOf[c] < |representatives| && Column(dfa, c) == Column(dfa, representatives[classOf[c]])
  }

  /** The next character joins the class of its neighbour, or starts a new one. */
  lemma ClassStep(dfa: DFA, order: seq<Char>, i: nat, classOf: seq<nat>, representatives: seq<Char>, more: seq<Char>)
    requires 0 < i < |order| && Classes(dfa, order[..i], classOf, representatives)
    requires classOf[order[i - 1]] == |representatives| - 1
    requires more == if Column(dfa, order[i]) != Column(dfa, order[i - 1]) then representatives + [order[i]] else representatives
    ensures Classes(dfa, order[..i + 1], classOf[order[i] := |more| - 1], more)
  {
    hide Column;
    assert order[i - 1] in order[..i];
    assert order[..i + 1] == order[..i] + [order[i]];
  }

  method FindClasses(dfa: DFA, order: seq<Char>) returns (classOf: seq<nat>, representatives: seq<Char>)
    requires Fits16(dfa) && Sorted(dfa, order) && |order| > 0
    ensures Classes(dfa, order, classOf, representatives)
    ensures |representatives| == |Columns(dfa, order)|
  {
    hide Column, Columns, Sorted, Fits16;
    classOf := seq(256, _ => 0);
    representatives := [order[0]];
    FirstColumn(dfa, order);
    for i := 1 to |order|
      invariant Classes(dfa, order[..i], classOf, representatives)
      invariant |representatives| == |Columns(dfa, order[..i])|
      invariant classOf[order[i - 1]] == |representatives| - 1
    {
      ColumnsGrow(dfa, order, i);
      var more := representatives;
      if Column(dfa, order[i]) != Column(dfa, order[i - 1]) {
        NewColumn(dfa, order, i);
        more := more + [order[i]];
      } else {
        assert Columns(dfa, order[..i]) + {Column(dfa, order[i])} == Columns(dfa, order[..i]);
      }
      ClassStep(dfa, order, i, classOf, representatives, more);
      representatives := more;
      classOf := classOf[order[i] := |representatives| - 1];
    }
    assert order[..|order|] == order;
  }

  lemma FirstColumn(dfa: DFA, order: seq<Char>)
    requires |order| > 0
    ensures order[..1] == [order[0]] && Columns(dfa, order[..1]) == {Column(dfa, order[0])}
  {
    ColumnsGrow(dfa, order, 0);
  }

  class Machine {
    const charToOffset: seq<nat>
    const nextState: seq<StateIndex>
    const numClasses: nat
    const numStates: nat

    /** The compressed table gives every transition of the DFA, without reading outside it. */
    ghost predicate Compresses(dfa: DFA) {
      && |charToOffset| == 256 && numStates == |dfa|
      && forall d, c: Char :: 0 <= d < |dfa| ==>
           d + charToOffset[c] < |nextState| && nextState[d + charToOffset[c]] == dfa[d][c]
    }

    constructor (dfa: DFA)
      requires Fits16(dfa)
      ensures Compresses(dfa)
      ensures numClasses == |Columns(dfa, AllChars())|
    {
      var order := SortByColumn(dfa);
      var classOf, representatives := FindClasses(dfa, order);
      var table := FillTable(dfa, representatives);
      SameColumns(dfa, order);
      numClasses, numStates, nextState := |representatives|, |dfa|, table;
      charToOffset := Offsets(|dfa|, classOf);
      new;
      forall d, c: Char | 0 <= d < |dfa|
        ensures d + charToOffset[c] < |nextState| && nextState[d + charToOffset[c]] == dfa[d][c]
      {
        LookUp(dfa, order, classOf, representatives, table, c, d);
      }
    }
  }

  // ----- feeding characters -----

  /** After a transition that read the character before `pos`: either the scan goes on in
      `state`, or it has stopped. */
  ghost predicate OnTrack(dfa: DFA, state: StateIndex, input: seq<Char>, pos: nat, goal: Stop)
    requires ValidDFA(dfa)
  {
    && pos <= |input| && state < |dfa|
    && if state >= 0 then Run(dfa, state, input, pos) == Some(goal)
       else pos > 0 && goal == StopAt(state, pos - 1)
  }

  lemma Advance(m: Machine, dfa: DFA, state: nat, input: seq<Char>, pos: nat, goal: Stop)
    requires ValidDFA(dfa) && m.Compresses(dfa) && OnTrack(dfa, state, input, pos, goal)
    ensures pos < |input| && state + m.charToOffset[input[pos]] < |m.nextState|
    ensures OnTrack(dfa, m.nextState[state + m.charToOffset[input[pos]]], input, pos + 1, goal)
  {
    assert m.nextState[state + m.charToOffset[input[pos]]] == dfa[state][input[pos]];
  }

  /** Feeds characters until a terminal state, four at a time. The caller guarantees that the
      scan stops within the input. */
  method Feed(m: Machine, input: seq<Char>, ghost dfa: DFA) returns (terminal: StateIndex, consumed: nat)
    requires ValidDFA(dfa) && m.Compresses(dfa) && Run(dfa, 0, input, 0).Some?
    ensures Run(dfa, 0, input, 0) == Some(Stop(terminal, consumed))
  {
    hide Run;
    ghost var goal := Run(dfa, 0, input, 0).value;
    var state, next := 0, 0;
    StartOnTrack(dfa, input, goal);
    while state >= 0
      invariant next <= |input| && OnTrack(dfa, state, input, next, goal)
      decreases |input| - next
    {
      Advance(m, dfa, state, input, next, goal);
      state := m.nextState[state + m.charToOffset[input[next]]];
      if state < 0 {
        next := next + 1;
        break;
      }
      Advance(m, dfa, state, input, next + 1, goal);
      state := m.nextState[state + m.charToOffset[input[next + 1]]];
      if state < 0 {
        next := next + 2;
        break;
      }
      Advance(m, dfa, state, input, next + 2, goal);
      state := m.nextState[state + m.charToOffset[input[next + 2]]];
      if state < 0 {
        next := next + 3;
        break;
      }
      Advance(m, dfa, state, input, next + 3, goal);
      state := m.nextState[state + m.charToOffset[input[next + 3]]];
      next := next + 4;
    }
    if IsFlagged(state) {
      next := next - 1;
      state := state - DOESNT_CONSUME;
    }
    return state, next;
  }

  lemma StartOnTrack(dfa: DFA, input: seq<Char>, goal: Stop)
    requires ValidDFA(dfa) && Run(dfa, 0, input, 0) == Some(goal)
    ensures OnTrack(dfa, 0, input, 0, goal)
  {
  }

  /** From an automaton to the result of a scan: whatever the tables look like, the scanner stops
      where the simulation of state sets stops. There is no DFA if the conversion gives up, and no
      result if the DFA is too large for 16-bit state indices. The source relies on the null character
      behind the input to stop the scan. */
  method Scan(nfa: Automaton, input: seq<Char>) returns (r: Option<Stop>, dfa: Option<DFA>)
    requires Valid(nfa)
    requires (forall states :: Explored(nfa, states) ==> Supported(nfa, states)) ==> Simulate(nfa, iset{0}, input, 0).Some?
    ensures dfa.Some? <==> forall states :: Explored(nfa, states) ==> Supported(nfa, states)
    ensures dfa.Some? ==> ValidDFA(dfa.value)
    ensures r == if dfa.Some? && |dfa.value| <= INT16_MAX then Simulate(nfa, iset{0}, input, 0) else None
  {
    hide Simulate, Run, Explored, Supported, Valid, ValidDFA;
    dfa := ConvertToDFA(nfa);
    if dfa.None? || |dfa.value| > INT16_MAX {
      return None, dfa;
    }
    var machine := new Machine(dfa.value);
    var terminal, consumed := Feed(machine, input, dfa.value);
    r := Some(Stop(terminal, consumed));
  }

  function Offsets(numStates: nat, classOf: seq<nat>): (r: seq<nat>)
    ensures |r| == |classOf| && forall c :: 0 <= c < |r| ==> r[c] == numStates * classOf[c]
  {
    seq(|classOf|, c requires 0 <= c < |classOf| => numStates * classOf[c])
  }

  lemma LookUp(dfa: DFA, order: seq<Char>, classOf: seq<nat>, representatives: seq<Char>, table: seq<StateIndex>,
      c: Char, d: nat)
    requires Classes(dfa, order, classOf, representatives) && c in order && d < |dfa|
    requires forall k: nat, d: nat :: TableEntry(dfa, representatives, table, k, d)
    ensures d + |dfa| * classOf[c] < |table| && table[d + |dfa| * classOf[c]] == dfa[d][c]
  {
    assert TableEntry(dfa, representatives, table, classOf[c], d);
    assert Column(dfa, c)[d] == Column(dfa, representatives[classOf[c]])[d];
  }

  ghost predicate TableEntry(dfa: DFA, representatives: seq<Char>, table: seq<StateIndex>, k: nat, d: nat) {
    k < |representatives| && d < |dfa| ==>
      d + |dfa| * k < |table| && table[d + |dfa| * k] == dfa[d][representatives[k]]
  }

  method FillTable(dfa: DFA, representatives: seq<Char>) returns (table: seq<StateIndex>)
    ensures |table| == |dfa| * |representatives|
    ensures forall k: nat, d: nat :: TableEntry(dfa, representatives, table, k, d)
  {
    table := [];
    for k := 0 to |representatives|
      invariant |table| == |dfa| * k
      invariant forall j: nat, d: nat :: j < k ==> TableEntry(dfa, representatives, table, j, d)
    {
      ghost var before := table;
      for d := 0 to |dfa|
        invariant table == before + Column(dfa, representatives[k])[..d]
      {
        table := table + [dfa[d][representatives[k]]];
      }
      assert table == before + Column(dfa, representatives[k]);
      forall j: nat, d: nat | j < k + 1 ensures TableEntry(dfa, representatives, table, j, d) {
        if j < k {
          assert TableEntry(dfa, representatives, before, j, d);
        }
      }
      assert |dfa| * (k + 1) == |dfa| * k + |dfa|;
    }
  }

  function AllChars(): (r: seq<Char>)
    ensures |r| == 256 && forall c :: 0 <= c < 256 ==> r[c] == c
  {
    seq(256, c requires 0 <= c < 256 => c)
  }

  lemma SameColumns(dfa: DFA, order: seq<Char>)
    requires forall c: Char :: c in order
    ensures Columns(dfa, order) == Columns(dfa, AllChars())
  {
    hide Column;
    forall i | 0 <= i < |order| ensures Column(dfa, order[i]) in Columns(dfa, AllChars()) {
      assert AllChars()[order[i]] == order[i];
    }
    forall c | 0 <= c < 256 ensures Column(dfa, AllChars()[c]) in Columns(dfa, order) {
      var x: Char := c;
      assert x in order;
      var i :| 0 <= i < |order| && order[i] == c;
    }
  }
}
