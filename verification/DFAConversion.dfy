/** The worklist of the subset construction: DFA states stand for lists of NFA states, and new
    lists are processed until no list is pending. */
module DFAConversion {
  import opened Wrappers
  import opened NFA
  import opened SubsetConstruction

  /** The DFA so far, with the list of NFA states each DFA state stands for. */
  datatype Work = Work(dfa: DFA, lists: seq<seq<StateIndex>>, index: map<seq<StateIndex>, nat>, pending: seq<nat>)

  // ----- which state sets a scan can meet -----

  /** The state set after scanning a word, if the scan does not stop before its end. */
  ghost function Scanned(nfa: Automaton, w: seq<Char>): Option<iset<StateIndex>> {
    if w == [] then Some(iset{0})
    else
      var states :- Scanned(nfa, w[..|w| - 1]);
      var next := Successors(nfa, states, w[|w| - 1]);
      if next == iset{} || exists t :: OnlyTerminal(next, t) then None else Some(next)
  }

  ghost predicate Explored(nfa: Automaton, states: iset<StateIndex>) {
    exists w :: Scanned(nfa, w) == Some(states)
  }

  lemma ExploreNext(nfa: Automaton, states: iset<StateIndex>, c: Char)
    requires Explored(nfa, states) && Successors(nfa, states, c) != iset{}
    requires !exists t :: OnlyTerminal(Successors(nfa, states, c), t)
    ensures Explored(nfa, Successors(nfa, states, c))
  {
    hide Successors;
    var w :| Scanned(nfa, w) == Some(states);
    assert (w + [c])[..|w|] == w;
    assert Scanned(nfa, w + [c]) == Some(Successors(nfa, states, c));
  }

  // ----- invariants of the worklist -----

  /** A transition agrees with the targets of the state set: a terminal when the only target is
      one, otherwise a DFA state that stands for them. */
  ghost predicate Leads(nfa: Automaton, lists: seq<seq<StateIndex>>, states: iset<StateIndex>, c: Char,
      next: StateIndex) {
    if next < 0 then Targets(nfa, states, c) == iset{next}
    else next < |lists| && Elements(lists[next]) == Targets(nfa, states, c)
         && !exists t :: OnlyTerminal(Targets(nfa, states, c), t)
  }

  ghost predicate Processed(nfa: Automaton, lists: seq<seq<StateIndex>>, states: iset<StateIndex>, row: DFAState) {
    Supported(nfa, states) && forall c: Char :: Leads(nfa, lists, states, c, row[c])
  }

  ghost predicate Indexed(lists: seq<seq<StateIndex>>, index: map<seq<StateIndex>, nat>) {
    && (forall d :: 0 <= d < |lists| ==> lists[d] in index && index[lists[d]] == d)
    && forall l :: l in index ==> index[l] < |lists| && lists[index[l]] == l
  }

  ghost predicate ListOk(nfa: Automaton, list: seq<StateIndex>) {
    StateList(nfa, list) && Explored(nfa, Elements(list))
  }

  /** Every DFA state that is neither pending nor the current one has its final transitions. */
  ghost predicate Sound(nfa: Automaton, w: Work, current: Option<nat>) {
    && |w.dfa| == |w.lists| > 0 && w.lists[0] == [0]
    && Indexed(w.lists, w.index)
    && (forall d :: 0 <= d < |w.lists| ==> ListOk(nfa, w.lists[d]))
    && (forall i :: 0 <= i < |w.pending| ==> w.pending[i] < |w.lists|)
    && forall d: nat :: d < |w.lists| && d !in w.pending && current != Some(d) ==> Processed(nfa, w.lists, Elements(w.lists[d]), w.dfa[d])
  }

  lemma LeadsKept(nfa: Automaton, lists: seq<seq<StateIndex>>, more: seq<seq<StateIndex>>, states: iset<StateIndex>,
      row: DFAState)
    requires lists <= more && Processed(nfa, lists, states, row)
    ensures Processed(nfa, more, states, row)
  {
    hide Targets, Supported;
    forall c: Char ensures Leads(nfa, more, states, c, row[c]) {
      assert Leads(nfa, lists, states, c, row[c]);
    }
  }

  const UNSET: DFAState := seq(256, _ => Flagged(UNMATCHED))

  /** `after` has the lists and states of `before`, and possibly new pending ones. */
  ghost predicate Extends(before: Work, after: Work) {
    && before.lists <= after.lists
    && |after.dfa| == |after.lists|
    && (forall d :: 0 <= d < |before.dfa| && d < |after.dfa| ==> after.dfa[d] == before.dfa[d])
    && before.pending <= after.pending
    && (forall d: nat :: |before.lists| <= d < |after.lists| ==> d in after.pending)
    && (|after.lists| == |before.lists| ==> after.pending == before.pending)
  }

  lemma ExtendsSelf(w: Work)
    requires |w.dfa| == |w.lists|
    ensures Extends(w, w)
  {
  }

  lemma ExtendsLists(a: Work, b: Work)
    requires Extends(a, b)
    ensures a.lists <= b.lists
  {
  }

  lemma ExtendsTransitive(a: Work, b: Work, c: Work)
    requires Extends(a, b) && Extends(b, c) && |a.dfa| == |a.lists|
    ensures Extends(a, c)
  {
    assert forall d :: d in b.pending ==> d in c.pending;
  }

  /** Finds or creates the DFA state that stands for a list of targets. */
  method TargetState(nfa: Automaton, w: Work, list: seq<StateIndex>, ghost current: Option<nat>) returns (r: Work,
      target: StateIndex)
    requires Sound(nfa, w, current) && (ListOk(nfa, list) || (|list| == 1 && list[0] < 0))
    ensures Sound(nfa, r, current) && Extends(w, r)
    ensures if |list| == 1 && list[0] < 0 then target == list[0] && r == w
            else 0 <= target < |r.lists| && r.lists[target] == list
  {
    hide ListOk, Processed;
    if |list| == 1 && list[0] < 0 {
      return w, list[0];
    }
    if list in w.index {
      return w, w.index[list];
    }
    target := |w.dfa|;
    r := Work(w.dfa + [UNSET], w.lists + [list], w.index[list := |w.dfa|], w.pending + [|w.dfa|]);
    forall d: nat | d < |r.lists| && d !in r.pending && current != Some(d)
      ensures Processed(nfa, r.lists, Elements(r.lists[d]), r.dfa[d])
    {
      assert r.pending[|w.pending|] == |w.dfa|;
      assert forall p :: p in w.pending ==> p in r.pending;
      LeadsKept(nfa, w.lists, r.lists, Elements(w.lists[d]), w.dfa[d]);
    }
  }

  // ----- processing one DFA state -----

  ghost predicate FromRow(row: Row, numbers: set<nat>) {
    exists c: Char :: row[c] == numbers
  }

  method UniqueSets(row: Row) returns (unique: seq<set<nat>>)
    ensures forall c: Char :: row[c] in unique
    ensures forall i :: 0 <= i < |unique| ==> FromRow(row, unique[i])
  {
    unique := [];
    for c := 0 to 256
      invariant forall d: Char :: d < c ==> row[d] in unique
      invariant forall i :: 0 <= i < |unique| ==> FromRow(row, unique[i])
    {
      assert FromRow(row, row[c]);
      unique := AddUnique(unique, row[c]);
    }
  }

  /** The target found for a compact set. */
  ghost predicate Stands(order: seq<StateIndex>, lists: seq<seq<StateIndex>>, numbers: set<nat>, target: StateIndex) {
    var list := Members(order, numbers, |order|);
    if |list| == 1 && list[0] < 0 then target == list[0]
    else 0 <= target < |lists| && lists[target] == list
  }

  lemma SuccessorsValid(nfa: Automaton, states: iset<StateIndex>, c: Char, t: StateIndex)
    requires Valid(nfa) && t in Successors(nfa, states, c)
    ensures ValidTarget(nfa, t)
  {
    var s :| s in Closure(nfa, states) && CharEdge(nfa, s, c, t);
    assert ValidState(nfa, nfa[s]);
  }

  lemma OwnValid(nfa: Automaton, states: seq<StateIndex>)
    requires Valid(nfa) && StateList(nfa, states)
    ensures UNMATCHED <= OwnTerminal(nfa, Elements(states)) < 0
  {
    var closed := iset t | ValidTarget(nfa, t);
    forall s, t | s in closed && EpsilonEdge(nfa, s, t) ensures t in closed {
      assert ValidState(nfa, nfa[s]);
    }
    forall t | t in Elements(states) ensures t in closed {
      var i :| 0 <= i < |states| && states[i] == t;
    }
    ClosureLeast(nfa, Elements(states), closed);
  }

  lemma SingleElement(list: seq<StateIndex>, t: StateIndex)
    requires NoDuplicates(list) && Elements(list) == iset{t}
    ensures list == [t]
  {
    assert t in Elements(list);
    var i :| 0 <= i < |list| && list[i] == t;
    forall j | 0 <= j < |list| ensures list[j] in {t} {
      assert list[j] in Elements(list);
    }
    ListFits(list, {t});
  }

  /** The members of a compact set are a single terminal, or a list worth a DFA state. */
  lemma TargetsListed(nfa: Automaton, states: seq<StateIndex>, c: Char, list: seq<StateIndex>)
    requires Valid(nfa) && ListOk(nfa, states) && NoDuplicates(list)
    requires Elements(list) == Targets(nfa, Elements(states), c)
    ensures ListOk(nfa, list) || (|list| == 1 && list[0] < 0)
    ensures |list| == 1 && list[0] < 0 <==> exists t :: OnlyTerminal(Targets(nfa, Elements(states), c), t)
  {
    hide Successors, OwnTerminal, StateList;
    var next := Successors(nfa, Elements(states), c);
    OwnValid(nfa, states);
    assert next == iset{} ==> OnlyTerminal(Elements(list), Flagged(OwnTerminal(nfa, Elements(states))));
    if t :| OnlyTerminal(Elements(list), t) {
      SingleElement(list, t);
    } else {
      ExploreNext(nfa, Elements(states), c);
      ListedValid(nfa, Elements(states), c, list);
    }
    if |list| == 1 && list[0] < 0 {
      assert OnlyTerminal(Elements(list), list[0]);
    }
  }

  lemma ListedValid(nfa: Automaton, states: iset<StateIndex>, c: Char, list: seq<StateIndex>)
    requires Valid(nfa) && NoDuplicates(list) && Elements(list) == Successors(nfa, states, c)
    ensures StateList(nfa, list)
  {
    forall i | 0 <= i < |list| ensures ValidTarget(nfa, list[i]) {
      assert list[i] in Elements(list);
      SuccessorsValid(nfa, states, c, list[i]);
    }
  }

  lemma StandsLeads(nfa: Automaton, states: seq<StateIndex>, order: seq<StateIndex>, lists: seq<seq<StateIndex>>,
                    row: Row, c: Char, target: StateIndex)
    requires Valid(nfa) && ListOk(nfa, states) && NoDuplicates(order)
    requires RowTargets(nfa, Elements(states), order, row) && Stands(order, lists, row[c], target)
    ensures Leads(nfa, lists, Elements(states), c, target)
  {
    hide Targets;
    var list := Members(order, row[c], |order|);
    MembersDistinct(order, row[c], |order|);
    TargetsListed(nfa, states, c, list);
    if |list| == 1 && list[0] < 0 {
      assert Elements(list) == iset{list[0]};
    }
  }

  lemma StandsKept(order: seq<StateIndex>, lists: seq<seq<StateIndex>>, more: seq<seq<StateIndex>>, numbers: set<nat>,
      target: StateIndex)
    requires lists <= more && Stands(order, lists, numbers, target)
    ensures Stands(order, more, numbers, target)
  {
  }

  /** Finds the targets of all compact sets of a row, creating DFA states as needed. */
  method TargetStates(nfa: Automaton, w: Work, d: nat, order: seq<StateIndex>, row: Row, unique: seq<set<nat>>)
    returns (r: Work, targets: map<set<nat>, StateIndex>)
    requires Valid(nfa) && Sound(nfa, w, Some(d)) && d < |w.lists|
    requires NoDuplicates(order) && RowTargets(nfa, Elements(w.lists[d]), order, row)
    requires forall i :: 0 <= i < |unique| ==> FromRow(row, unique[i])
    ensures Sound(nfa, r, Some(d)) && Extends(w, r)
    ensures forall u :: u in unique ==> u in targets && Stands(order, r.lists, u, targets[u])
  {
    hide Processed, ListOk, RowTargets, Stands, Indexed, Extends;
    r, targets := w, map[];
    ExtendsSelf(w);
    for i := 0 to |unique|
      invariant Sound(nfa, r, Some(d)) && Extends(w, r)
      invariant forall j :: 0 <= j < i ==> unique[j] in targets && Stands(order, r.lists, unique[j], targets[unique[j]])
    {
      var list := Members(order, unique[i], |order|);
      ghost var c: Char :| row[c] == unique[i];
      assert ListOk(nfa, w.lists[d]);
      ListWorth(nfa, w.lists[d], order, row, c, list);
      ghost var before := r;
      var target;
      r, target := TargetState(nfa, r, list, Some(d));
      ExtendsTransitive(w, before, r);
      forall j | 0 <= j < i ensures Stands(order, r.lists, unique[j], targets[unique[j]]) {
        ExtendsLists(before, r);
        StandsKept(order, before.lists, r.lists, unique[j], targets[unique[j]]);
      }
      StandsNew(order, r.lists, unique[i], target);
      targets := targets[unique[i] := target];
    }
  }

  lemma ListWorth(nfa: Automaton, states: seq<StateIndex>, order: seq<StateIndex>, row: Row, c: Char,
      list: seq<StateIndex>)
    requires Valid(nfa) && ListOk(nfa, states) && NoDuplicates(order)
    requires RowTargets(nfa, Elements(states), order, row) && list == Members(order, row[c], |order|)
    ensures ListOk(nfa, list) || (|list| == 1 && list[0] < 0)
  {
    hide Targets;
    MembersDistinct(order, row[c], |order|);
    TargetsListed(nfa, states, c, list);
  }

  lemma StandsNew(order: seq<StateIndex>, lists: seq<seq<StateIndex>>, numbers: set<nat>, target: StateIndex)
    requires var list := Members(order, numbers, |order|);
             if |list| == 1 && list[0] < 0 then target == list[0] else 0 <= target < |lists| && lists[target] == list
    ensures Stands(order, lists, numbers, target)
  {
  }

  /** Computes the transitions of one DFA state. */
  method Expand(nfa: Automaton, w: Work, d: nat) returns (ok: bool, r: Work)
    requires Valid(nfa) && Sound(nfa, w, Some(d)) && d < |w.lists|
    ensures ok <==> Supported(nfa, Elements(w.lists[d]))
    ensures ok ==> Sound(nfa, r, None) && w.lists <= r.lists && (|r.lists| == |w.lists| ==> r.pending == w.pending)
  {
    hide Processed, RowTargets, Stands, Indexed, Supported;
    r := w;
    assert ListOk(nfa, w.lists[d]);
    var order, row;
    ok, order, row := Following(nfa, w.lists[d]);
    if !ok {
      return;
    }
    var unique := UniqueSets(row);
    var targets;
    r, targets := TargetStates(nfa, w, d, order, row, unique);
    var transitions: DFAState := UNSET;
    for c := 0 to 256
      invariant |transitions| == 256 && forall b: Char :: b < c ==> transitions[b] == targets[row[b]]
    {
      transitions := transitions[c := targets[row[c]]];
    }
    RowProcessed(nfa, w.lists[d], order, r.lists, row, targets, transitions);
    r := r.(dfa := r.dfa[d := transitions]);
  }

  lemma RowProcessed(nfa: Automaton, states: seq<StateIndex>, order: seq<StateIndex>, lists: seq<seq<StateIndex>>,
                     row: Row, targets: map<set<nat>, StateIndex>, transitions: DFAState)
    requires Valid(nfa) && ListOk(nfa, states) && Supported(nfa, Elements(states)) && NoDuplicates(order)
    requires RowTargets(nfa, Elements(states), order, row)
    requires forall c: Char :: row[c] in targets && Stands(order, lists, row[c], targets[row[c]]) && transitions[c] == targets[row[c]]
    ensures Processed(nfa, lists, Elements(states), transitions)
  {
    hide Leads, ListOk, RowTargets, Stands, Supported;
    forall c: Char ensures Leads(nfa, lists, Elements(states), c, transitions[c]) {
      StandsLeads(nfa, states, order, lists, row, c, targets[row[c]]);
    }
  }

  // ----- termination: there are finitely many lists -----

  /** All lists of at most `n` elements. */
  ghost function ListsUpTo(universe: set<StateIndex>, n: nat): set<seq<StateIndex>> {
    if n == 0 then {[]}
    else ListsUpTo(universe, n - 1)
         + set l, t | l in ListsUpTo(universe, n - 1) && t in universe :: l + [t]
  }

  lemma {:induction false} InListsUpTo(universe: set<StateIndex>, n: nat, l: seq<StateIndex>)
    requires |l| <= n && forall i :: 0 <= i < |l| ==> l[i] in universe
    ensures l in ListsUpTo(universe, n)
  {
    if n > 0 {
      if |l| < n {
        InListsUpTo(universe, n - 1, l);
      } else {
        InListsUpTo(universe, n - 1, l[..n - 1]);
        var front, last := l[..n - 1], l[n - 1];
        assert front in ListsUpTo(universe, n - 1) && last in universe;
        assert l == front + [last];
      }
    }
  }

  ghost function AllLists(nfa: Automaton): set<seq<StateIndex>> {
    ListsUpTo(Universe(nfa), |Universe(nfa)|)
  }

  lemma ListsBounded(nfa: Automaton, w: Work, current: Option<nat>)
    requires Sound(nfa, w, current)
    ensures |w.lists| <= |AllLists(nfa)|
  {
    forall d | 0 <= d < |w.lists| ensures w.lists[d] in AllLists(nfa) {
      assert ListOk(nfa, w.lists[d]);
      StateListFits(nfa, w.lists[d]);
      InListsUpTo(Universe(nfa), |Universe(nfa)|, w.lists[d]);
    }
    assert NoDuplicates(w.lists);
    ListFits(w.lists, AllLists(nfa));
  }

  // ----- a finished DFA -----

  ghost predicate Finished(nfa: Automaton, w: Work) {
    Valid(nfa) && Sound(nfa, w, None) && w.pending == []
  }

  lemma FinishedState(nfa: Automaton, w: Work, d: nat)
    requires Finished(nfa, w) && d < |w.lists|
    ensures Valid(nfa) && ListOk(nfa, w.lists[d]) && Processed(nfa, w.lists, Elements(w.lists[d]), w.dfa[d])
  {
  }

  lemma FinishedValid(nfa: Automaton, w: Work)
    requires Finished(nfa, w)
    ensures ValidDFA(w.dfa)
  {
    hide Sound, Processed, ListOk;
    assert |w.dfa| == |w.lists| > 0 by { FinishedSize(nfa, w); }
    forall d, c | 0 <= d < |w.dfa| && 0 <= c < 256 ensures UNMATCHED <= w.dfa[d][c] < |w.dfa| {
      FinishedState(nfa, w, d);
      LeadsInRange(nfa, w.lists, w.lists[d], w.dfa[d], c);
    }
  }

  lemma FinishedSize(nfa: Automaton, w: Work)
    requires Finished(nfa, w)
    ensures |w.dfa| == |w.lists| > 0 && w.lists[0] == [0]
  {
  }

  lemma LeadsInRange(nfa: Automaton, lists: seq<seq<StateIndex>>, states: seq<StateIndex>, row: DFAState, c: Char)
    requires Valid(nfa) && ListOk(nfa, states) && Processed(nfa, lists, Elements(states), row)
    ensures UNMATCHED <= row[c] < |lists|
    ensures row[c] < 0 ==> if Successors(nfa, Elements(states), c) == iset{}
                           then row[c] == Flagged(OwnTerminal(nfa, Elements(states))) && IsFlagged(row[c])
                           else OnlyTerminal(Successors(nfa, Elements(states), c), row[c])
    ensures UNMATCHED <= OwnTerminal(nfa, Elements(states)) < 0
    ensures row[c] >= 0 ==> && Successors(nfa, Elements(states), c) == Elements(lists[row[c]]) != iset{}
                            && !exists t :: OnlyTerminal(Successors(nfa, Elements(states), c), t)
  {
    hide Successors, OwnTerminal, Supported;
    var next, own := Successors(nfa, Elements(states), c), OwnTerminal(nfa, Elements(states));
    OwnValid(nfa, states);
    assert Leads(nfa, lists, Elements(states), c, row[c]);
    assert next == iset{} ==> OnlyTerminal(Targets(nfa, Elements(states), c), Flagged(own));
    if row[c] < 0 && next != iset{} {
      assert row[c] in next;
      SuccessorsValid(nfa, Elements(states), c, row[c]);
    }
    if row[c] < 0 {
      assert row[c] in Targets(nfa, Elements(states), c);
    }
  }

  /** A finished DFA scans every input as the simulation of state sets does. */
  lemma {:induction false} RunSimulates(nfa: Automaton, w: Work, d: nat, input: seq<Char>, pos: nat)
    requires Finished(nfa, w) && ValidDFA(w.dfa) && d < |w.dfa| == |w.lists| && pos <= |input|
    ensures Run(w.dfa, d, input, pos) == Simulate(nfa, Elements(w.lists[d]), input, pos)
    decreases |input| - pos
  {
    hide Sound, Processed, ListOk, Successors, OwnTerminal, ValidDFA, Finished;
    if pos < |input| {
      var c := input[pos];
      FinishedState(nfa, w, d);
      LeadsInRange(nfa, w.lists, w.lists[d], w.dfa[d], c);
      var next := w.dfa[d][c];
      if next >= 0 {
        RunSimulates(nfa, w, next, input, pos + 1);
      }
    }
  }

  /** Every set a scan can meet stands behind some DFA state. */
  lemma {:induction false} EverySetListed(nfa: Automaton, w: Work, word: seq<Char>) returns (d: nat)
    requires Finished(nfa, w) && Scanned(nfa, word).Some?
    ensures d < |w.lists| && Elements(w.lists[d]) == Scanned(nfa, word).value
    decreases |word|
  {
    hide Sound, Processed, ListOk, Successors, Finished;
    FinishedSize(nfa, w);
    if word == [] {
      d := 0;
      assert Elements([0]) == iset{0};
    } else {
      var before := EverySetListed(nfa, w, word[..|word| - 1]);
      var c := word[|word| - 1];
      FinishedState(nfa, w, before);
      LeadsInRange(nfa, w.lists, w.lists[before], w.dfa[before], c);
      d := w.dfa[before][c];
    }
  }

  lemma AllSupported(nfa: Automaton, w: Work, states: iset<StateIndex>)
    requires Finished(nfa, w) && Explored(nfa, states)
    ensures Supported(nfa, states)
  {
    hide Sound, ListOk, Successors, Supported;
    var word :| Scanned(nfa, word) == Some(states);
    var d := EverySetListed(nfa, w, word);
    FinishedState(nfa, w, d);
  }

  lemma FinishedExact(nfa: Automaton, w: Work)
    requires Finished(nfa, w)
    ensures ValidDFA(w.dfa)
    ensures forall states :: Explored(nfa, states) ==> Supported(nfa, states)
    ensures forall input: seq<Char> :: Run(w.dfa, 0, input, 0) == Simulate(nfa, iset{0}, input, 0)
  {
    hide Sound, Supported, Valid, ValidDFA, Explored;
    FinishedValid(nfa, w);
    FinishedSize(nfa, w);
    forall states | Explored(nfa, states) ensures Supported(nfa, states) {
      AllSupported(nfa, w, states);
    }
    forall input: seq<Char> ensures Run(w.dfa, 0, input, 0) == Simulate(nfa, iset{0}, input, 0) {
      RunSimulates(nfa, w, 0, input, 0);
      assert Elements([0]) == iset{0};
    }
  }

  /** The whole conversion. It gives up exactly when a scan can meet a set with two terminals or
      too many following states; otherwise the DFA stops on every input where the simulation of
      state sets stops, at the same terminal. */
  method ConvertToDFA(nfa: Automaton) returns (r: Option<DFA>)
    requires Valid(nfa)
    ensures r.Some? <==> forall states :: Explored(nfa, states) ==> Supported(nfa, states)
    ensures r.Some? ==> ValidDFA(r.value)
    ensures r.Some? ==> forall input: seq<Char> :: Run(r.value, 0, input, 0) == Simulate(nfa, iset{0}, input, 0)
  {
    hide Processed, Supported, Valid, ValidDFA, Scanned;
    var w := Work([UNSET], [[0]], map[[0] := 0], [0]);
    StartSound(nfa, w);
    while |w.pending| > 0
      invariant Sound(nfa, w, None)
      decreases |AllLists(nfa)| - |w.lists|, |w.pending|
    {
      var d := w.pending[|w.pending| - 1];
      var popped := w.(pending := w.pending[..|w.pending| - 1]);
      PopSound(nfa, w);
      ghost var before := w;
      var ok;
      ok, w := Expand(nfa, popped, d);
      if !ok {
        assert ListOk(nfa, popped.lists[d]);
        return None;
      }
      ListsBounded(nfa, w, None);
    }
    FinishedExact(nfa, w);
    r := Some(w.dfa);
  }

  lemma StartSound(nfa: Automaton, w: Work)
    requires Valid(nfa) && w == Work([UNSET], [[0]], map[[0] := 0], [0])
    ensures Sound(nfa, w, None)
  {
    assert Elements([0]) == iset{0};
    assert Scanned(nfa, []) == Some(iset{0});
  }

  lemma PopSound(nfa: Automaton, w: Work)
    requires Sound(nfa, w, None) && w.pending != []
    ensures Sound(nfa, w.(pending := w.pending[..|w.pending| - 1]), Some(w.pending[|w.pending| - 1]))
  {
    hide Processed, ListOk;
  }
}
