/** Properties of graphs under construction: what later emission keeps, and the agreement of
    PHI entries with the edges of the graph. */
module GraphFacts {
  import opened IR
  import opened Wrappers
  import opened Cfg
  import opened Emitter

  // ----- adding incoming values -----

  ghost predicate Distinct(s: seq<nat>) {
    forall i, j :: 0 <= i < j < |s| ==> s[i] != s[j]
  }

  /** The registers of the block's PHIs are exactly those listed. */
  ghost predicate PhisAre(bb: BasicBlock, phis: seq<nat>) {
    && Distinct(phis)
    && (forall r :: r in bb.phis ==> r in phis)
    && forall i :: 0 <= i < |phis| ==> phis[i] in bb.phis
  }

  /** `after` is `before` with one entry per listed PHI appended. */
  ghost predicate Fed(before: BasicBlock, phis: seq<nat>, vs: seq<Operand>, from: nat, after: BasicBlock)
    requires |phis| == |vs|
  {
    && after.code == before.code
    && after.phis.Keys == before.phis.Keys
    && (forall r :: r in before.phis && r !in phis ==> after.phis[r] == before.phis[r])
    && forall i :: 0 <= i < |phis| && phis[i] in before.phis ==>
         after.phis[phis[i]] == before.phis[phis[i]].(incoming := before.phis[phis[i]].incoming + [Incoming(vs[i], from)])
  }

  lemma {:induction false} AddAllFeeds(bb: BasicBlock, phis: seq<nat>, vs: seq<Operand>, from: nat)
    requires |phis| == |vs| && Distinct(phis)
    ensures Fed(bb, phis, vs, from, AddAll(bb, phis, vs, from))
  {
    if phis != [] {
      var n := |phis| - 1;
      var mid := AddAll(bb, Front(phis), Front(vs), from);
      AddAllFeeds(bb, Front(phis), Front(vs), from);
      var after := AddAll(bb, phis, vs, from);
      assert phis[n] !in Front(phis);
      assert phis == Front(phis) + [phis[n]];
      assert phis[n] in bb.phis ==> mid.phis[phis[n]] == bb.phis[phis[n]];
      forall i | 0 <= i < |phis| && phis[i] in bb.phis
        ensures after.phis[phis[i]] == bb.phis[phis[i]].(incoming := bb.phis[phis[i]].incoming + [Incoming(vs[i], from)])
      {
        if i < n {
          assert Front(phis)[i] == phis[i] && Front(vs)[i] == vs[i];
          assert phis[i] != phis[n];
        }
      }
    }
  }

  lemma {:induction false} AddAllCode(bb: BasicBlock, phis: seq<nat>, vs: seq<Operand>, from: nat)
    requires |phis| == |vs|
    ensures AddAll(bb, phis, vs, from).code == bb.code
  {
    if phis != [] {
      AddAllCode(bb, Front(phis), Front(vs), from);
    }
  }

  // ----- what later emission keeps -----

  /** Code only grows; a PHI disappears only while it has no entry; entries are only appended. */
  ghost predicate BlockExtends(x: BasicBlock, y: BasicBlock) {
    && x.code <= y.code
    && (forall r :: r in y.phis ==> r in x.phis)
    && (forall r :: r in x.phis && x.phis[r].incoming != [] ==> r in y.phis)
    && forall r :: r in x.phis && r in y.phis ==> x.phis[r].incoming <= y.phis[r].incoming
  }

  ghost predicate Extends(g: Graph, h: Graph) {
    |g| <= |h| && forall b :: 0 <= b < |g| ==> BlockExtends(g[b], h[b])
  }

  lemma BlockExtendsTransitive(x: BasicBlock, y: BasicBlock, z: BasicBlock)
    requires BlockExtends(x, y) && BlockExtends(y, z)
    ensures BlockExtends(x, z)
  {
    forall r | r in x.phis && x.phis[r].incoming != [] ensures r in z.phis {
      assert r in y.phis && x.phis[r].incoming <= y.phis[r].incoming;
    }
    forall r | r in x.phis && r in z.phis ensures x.phis[r].incoming <= z.phis[r].incoming {
      assert r in y.phis;
    }
  }

  lemma ExtendsTransitive(g: Graph, h: Graph, k: Graph)
    requires Extends(g, h) && Extends(h, k)
    ensures Extends(g, k)
  {
    forall b | 0 <= b < |g| ensures BlockExtends(g[b], k[b]) {
      BlockExtendsTransitive(g[b], h[b], k[b]);
    }
  }

  lemma FedExtends(x: BasicBlock, phis: seq<nat>, vs: seq<Operand>, from: nat, y: BasicBlock)
    requires |phis| == |vs| && Fed(x, phis, vs, from, y)
    ensures BlockExtends(x, y)
  {
    forall r | r in x.phis && r in y.phis ensures x.phis[r].incoming <= y.phis[r].incoming {
      if r in phis {
        var i :| 0 <= i < |phis| && phis[i] == r;
      }
    }
  }

  // ----- edges -----

  function Successors(i: Instr): seq<nat> {
    match i
    case Jump(t) => [t]
    case CondJump(_, t, f) => [t, f]
    case Switch(_, d, cases) => [d] + cases
    case _ => []
  }

  /** The targets of the block's terminator, with repetitions. */
  function Targets(bb: BasicBlock): seq<nat> {
    if bb.code == [] then [] else Successors(Last(bb.code))
  }

  function Sources(incoming: seq<Incoming>): (r: seq<nat>)
    ensures |r| == |incoming| && forall i :: 0 <= i < |r| ==> r[i] == incoming[i].from
  {
    seq(|incoming|, i requires 0 <= i < |incoming| => incoming[i].from)
  }

  /** How many entries the PHI has for predecessor `p`. */
  function EntriesFrom(phi: Phi, p: nat): nat {
    multiset(Sources(phi.incoming))[p]
  }

  /** How many edges lead from block `q` to block `b`. */
  function EdgeCount(g: Graph, q: nat, b: nat): nat {
    if q < |g| then multiset(Targets(g[q]))[b] else 0
  }

  /** The same, where block `p` is taken to have the targets `ts`. */
  function EdgeCountWith(g: Graph, p: nat, ts: seq<nat>, q: nat, b: nat): nat {
    if q == p then multiset(ts)[b] else EdgeCount(g, q, b)
  }

  /** Every PHI has as many entries from a block as there are edges from it. */
  ghost predicate EdgesAgree(g: Graph) {
    forall b, r, q: nat :: 0 <= b < |g| && r in g[b].phis ==>
      EntriesFrom(g[b].phis[r], q) == EdgeCount(g, q, b)
  }

  ghost predicate EdgesWith(g: Graph, p: nat, ts: seq<nat>) {
    forall b, r, q: nat :: 0 <= b < |g| && r in g[b].phis ==>
      EntriesFrom(g[b].phis[r], q) == EdgeCountWith(g, p, ts, q, b)
  }

  lemma EntryAdded(phi: Phi, v: Operand, from: nat, q: nat)
    ensures EntriesFrom(phi.(incoming := phi.incoming + [Incoming(v, from)]), q)
            == EntriesFrom(phi, q) + if q == from then 1 else 0
  {
    assert Sources(phi.incoming + [Incoming(v, from)]) == Sources(phi.incoming) + [from];
  }

  lemma TargetAdded(ts: seq<nat>, t: nat, b: nat)
    ensures multiset(ts + [t])[b] == multiset(ts)[b] + if b == t then 1 else 0
  {
  }

  /** An edge and the entries for it, added together, keep the agreement. */
  lemma FeedKeepsEdges(g: Graph, p: nat, ts: seq<nat>, t: nat, phis: seq<nat>, vs: seq<Operand>)
    requires EdgesWith(g, p, ts) && t < |g| && |phis| == |vs| && PhisAre(g[t], phis)
    ensures EdgesWith(g[t := AddAll(g[t], phis, vs, p)], p, ts + [t])
  {
    var h := g[t := AddAll(g[t], phis, vs, p)];
    AddAllFeeds(g[t], phis, vs, p);
    forall b, r, q: nat | 0 <= b < |h| && r in h[b].phis
      ensures EntriesFrom(h[b].phis[r], q) == EdgeCountWith(h, p, ts + [t], q, b)
    {
      assert EntriesFrom(g[b].phis[r], q) == EdgeCountWith(g, p, ts, q, b);
      TargetAdded(ts, t, b);
      if b == t {
        var i :| 0 <= i < |phis| && phis[i] == r;
        EntryAdded(g[b].phis[r], vs[i], p, q);
      }
    }
  }

  /** An edge to a block without PHIs needs no entries. */
  lemma BareEdge(g: Graph, p: nat, ts: seq<nat>, t: nat)
    requires EdgesWith(g, p, ts) && t < |g| && g[t].phis == map[]
    ensures EdgesWith(g, p, ts + [t])
  {
    forall b, r, q: nat | 0 <= b < |g| && r in g[b].phis
      ensures EntriesFrom(g[b].phis[r], q) == EdgeCountWith(g, p, ts + [t], q, b)
    {
      assert EntriesFrom(g[b].phis[r], q) == EdgeCountWith(g, p, ts, q, b);
      TargetAdded(ts, t, b);
    }
  }

  /** The terminator that realises the collected targets closes the block. */
  lemma CloseEdges(g: Graph, p: nat, ts: seq<nat>, i: Instr)
    requires p < |g| && EdgesWith(g, p, ts) && multiset(Successors(i)) == multiset(ts)
    ensures EdgesAgree(g[p := g[p].(code := g[p].code + [i])])
  {
    var h := g[p := g[p].(code := g[p].code + [i])];
    forall b, r, q: nat | 0 <= b < |h| && r in h[b].phis
      ensures EntriesFrom(h[b].phis[r], q) == EdgeCount(h, q, b)
    {
      assert EntriesFrom(g[b].phis[r], q) == EdgeCountWith(g, p, ts, q, b);
    }
  }

  /** A block without edges is open for collecting targets. */
  lemma OpenEdges(g: Graph, p: nat)
    requires p < |g| && EdgesAgree(g) && Targets(g[p]) == []
    ensures EdgesWith(g, p, [])
  {
    forall b, r, q: nat | 0 <= b < |g| && r in g[b].phis
      ensures EntriesFrom(g[b].phis[r], q) == EdgeCountWith(g, p, [], q, b)
    {
      assert EntriesFrom(g[b].phis[r], q) == EdgeCount(g, q, b);
    }
  }

  /** Appending an instruction without targets to a block without edges. */
  lemma StraightEdges(g: Graph, p: nat, i: Instr)
    requires p < |g| && EdgesAgree(g) && Targets(g[p]) == [] && Successors(i) == []
    ensures EdgesAgree(g[p := g[p].(code := g[p].code + [i])])
  {
    OpenEdges(g, p);
    CloseEdges(g, p, [], i);
  }

  /** New blocks whose PHIs are empty keep the agreement if no edge leads past the graph. */
  lemma GrowEdges(g: Graph, h: Graph)
    requires EdgesAgree(g) && |g| <= |h| && h[..|g|] == g && TargetsInRange(g)
    requires forall b :: |g| <= b < |h| ==> h[b].code == [] && NoEntries(h[b])
    ensures EdgesAgree(h)
  {
    forall b, r, q: nat | 0 <= b < |h| && r in h[b].phis
      ensures EntriesFrom(h[b].phis[r], q) == EdgeCount(h, q, b)
    {
      if b < |g| {
        assert h[b] == h[..|g|][b] == g[b];
        assert EntriesFrom(g[b].phis[r], q) == EdgeCount(g, q, b);
        assert q < |g| ==> h[q] == h[..|g|][q] == g[q];
      } else {
        assert Sources(h[b].phis[r].incoming) == [];
        if q < |g| {
          assert h[q] == h[..|g|][q] == g[q];
          assert b !in Targets(g[q]);
        }
      }
    }
  }

  ghost predicate NoEntries(bb: BasicBlock) {
    forall r :: r in bb.phis ==> bb.phis[r].incoming == []
  }

  ghost predicate TargetsInRange(g: Graph) {
    forall b :: 0 <= b < |g| ==> forall t :: t in Targets(g[b]) ==> t < |g|
  }

  /** Erasing PHIs without entries keeps the agreement. */
  lemma EraseKeepsEdges(g: Graph, b: nat, phis: seq<nat>)
    requires b < |g| && EdgesAgree(g)
    ensures EdgesAgree(g[b := EraseEmpty(g[b], phis)])
  {
    var h := g[b := EraseEmpty(g[b], phis)];
    forall c, r, q: nat | 0 <= c < |h| && r in h[c].phis
      ensures EntriesFrom(h[c].phis[r], q) == EdgeCount(h, q, c)
    {
      assert EntriesFrom(g[c].phis[r], q) == EdgeCount(g, q, c);
    }
  }

  // ----- looking up entries -----

  lemma {:induction false} NoEntryNoValue(incoming: seq<Incoming>, from: nat)
    requires multiset(Sources(incoming))[from] == 0
    ensures LookUp(incoming, from).None?
  {
    if incoming != [] {
      assert Sources(incoming)[0] == incoming[0].from;
      assert Sources(incoming) == [incoming[0].from] + Sources(incoming[1..]);
      NoEntryNoValue(incoming[1..], from);
    }
  }

  lemma {:induction false} LookUpAppend(a: seq<Incoming>, b: seq<Incoming>, from: nat)
    ensures LookUp(a + b, from) == if LookUp(a, from).Some? then LookUp(a, from) else LookUp(b, from)
  {
    if a == [] {
      assert a + b == b;
    } else {
      assert (a + b)[1..] == a[1..] + b;
      LookUpAppend(a[1..], b, from);
    }
  }

  /** A found entry is still the one found after more entries are appended. */
  lemma LookUpKept(a: seq<Incoming>, b: seq<Incoming>, from: nat)
    requires a <= b && LookUp(a, from).Some?
    ensures LookUp(b, from) == LookUp(a, from)
  {
    assert b == a + b[|a|..];
    LookUpAppend(a, b[|a|..], from);
  }

  // ----- entries for one predecessor -----

  /** All entries for predecessor `p` carry the value `v`. */
  ghost predicate EntriesCarry(phi: Phi, p: nat, v: Operand) {
    forall i :: 0 <= i < |phi.incoming| && phi.incoming[i].from == p ==> phi.incoming[i].val == v
  }

  ghost predicate CoherentPhi(phi: Phi) {
    forall i, j :: 0 <= i < j < |phi.incoming| && phi.incoming[i].from == phi.incoming[j].from ==>
      phi.incoming[i].val == phi.incoming[j].val
  }

  ghost predicate Coherent(g: Graph) {
    forall b, r :: 0 <= b < |g| && r in g[b].phis ==> CoherentPhi(g[b].phis[r])
  }

  /** Entries for `p` in the given PHIs carry the given values. */
  ghost predicate BlockCarries(bb: BasicBlock, p: nat, phis: seq<nat>, vs: seq<Operand>)
    requires |phis| == |vs|
  {
    forall i :: 0 <= i < |phis| && phis[i] in bb.phis ==> EntriesCarry(bb.phis[phis[i]], p, vs[i])
  }

  lemma NoEntryCarries(phi: Phi, p: nat, v: Operand)
    requires EntriesFrom(phi, p) == 0
    ensures EntriesCarry(phi, p, v)
  {
    forall i | 0 <= i < |phi.incoming| ensures phi.incoming[i].from != p {
      assert Sources(phi.incoming)[i] in multiset(Sources(phi.incoming));
    }
  }

  lemma {:induction false} CarryLookUp(incoming: seq<Incoming>, p: nat, v: Operand)
    requires forall i :: 0 <= i < |incoming| && incoming[i].from == p ==> incoming[i].val == v
    requires multiset(Sources(incoming))[p] > 0
    ensures LookUp(incoming, p) == Some(v)
  {
    assert incoming == [] ==> Sources(incoming) == [];
    if incoming[0].from != p {
      assert Sources(incoming) == [incoming[0].from] + Sources(incoming[1..]);
      CarryLookUp(incoming[1..], p, v);
    }
  }

  lemma FedCarries(x: BasicBlock, phis: seq<nat>, vs: seq<Operand>, p: nat, y: BasicBlock)
    requires |phis| == |vs| && Fed(x, phis, vs, p, y) && BlockCarries(x, p, phis, vs)
    requires forall r :: r in x.phis ==> CoherentPhi(x.phis[r])
    ensures BlockCarries(y, p, phis, vs)
    ensures forall r :: r in y.phis ==> CoherentPhi(y.phis[r])
  {
    forall r | r in y.phis ensures CoherentPhi(y.phis[r]) {
      if r in phis {
        var i :| 0 <= i < |phis| && phis[i] == r;
        assert EntriesCarry(x.phis[r], p, vs[i]);
        assert CoherentPhi(x.phis[r]);
      } else {
        assert CoherentPhi(x.phis[r]);
      }
    }
    forall i | 0 <= i < |phis| && phis[i] in y.phis ensures EntriesCarry(y.phis[phis[i]], p, vs[i]) {
      assert EntriesCarry(x.phis[phis[i]], p, vs[i]);
    }
  }

  // ----- closing a block -----

  predicate Straight(code: seq<Instr>) {
    forall i :: 0 <= i < |code| ==> !code[i].IsTerminator()
  }

  /** Exactly one terminator, at the end. */
  predicate Closed(code: seq<Instr>) {
    code != [] && Last(code).IsTerminator() && Straight(Front(code))
  }

  /** No PHI appears or disappears, and only block `p` gets code. */
  ghost predicate Mild(g: Graph, h: Graph, p: nat) {
    && |g| == |h|
    && forall b :: 0 <= b < |g| ==> h[b].phis.Keys == g[b].phis.Keys && (b != p ==> h[b].code == g[b].code)
  }

  /** `h` is the consistent graph `g` with block `p` closed. */
  ghost predicate Sealed(g: Graph, p: nat, h: Graph) {
    && Mild(g, h, p) && p < |h| && Closed(h[p].code)
    && Consistent(h) && Extends(g, h)
  }

  /** PHI entries agree with the edges, and repeated entries for one predecessor agree. */
  ghost predicate Consistent(g: Graph) {
    EdgesAgree(g) && TargetsInRange(g) && Coherent(g)
  }

  lemma StraightTargets(bb: BasicBlock)
    requires Straight(bb.code)
    ensures Targets(bb) == []
  {
    if bb.code != [] {
      assert !bb.code[|bb.code| - 1].IsTerminator();
    }
  }

  lemma MildSelf(g: Graph, p: nat)
    ensures Mild(g, g, p) && Extends(g, g)
  {
  }

  /** One more target fed: an intermediate graph on the way to a sealed one. */
  lemma FeedStep(g: Graph, h: Graph, p: nat, ts: seq<nat>, t: nat, phis: seq<nat>, vs: seq<Operand>)
    requires Mild(g, h, p) && Extends(g, h) && EdgesWith(h, p, ts) && Coherent(h)
    requires t < |g| && |phis| == |vs| && PhisAre(g[t], phis) && BlockCarries(h[t], p, phis, vs)
    ensures var k := h[t := AddAll(h[t], phis, vs, p)];
            && Mild(g, k, p) && Extends(g, k) && EdgesWith(k, p, ts + [t])
            && Coherent(k) && BlockCarries(k[t], p, phis, vs)
            && forall b :: 0 <= b < |g| ==> k[b].code == h[b].code
  {
    hide EdgesWith, BlockExtends, CoherentPhi, BlockCarries;
    var k := h[t := AddAll(h[t], phis, vs, p)];
    assert PhisAre(h[t], phis) by { assert h[t].phis.Keys == g[t].phis.Keys; }
    FeedKeepsEdges(h, p, ts, t, phis, vs);
    AddAllFeeds(h[t], phis, vs, p);
    FedExtends(h[t], phis, vs, p, k[t]);
    FedCarries(h[t], phis, vs, p, k[t]);
    assert Extends(h, k) by {
      forall b | 0 <= b < |h| ensures BlockExtends(h[b], k[b]) {
        if b != t { BlockExtendsSelf(h[b]); }
      }
    }
    ExtendsTransitive(g, h, k);
  }

  lemma BlockExtendsSelf(bb: BasicBlock)
    ensures BlockExtends(bb, bb)
  {
  }

  /** Closing block `p` with a terminator for exactly the targets fed. */
  lemma SealStep(g: Graph, h: Graph, p: nat, ts: seq<nat>, i: Instr)
    requires Mild(g, h, p) && Extends(g, h) && EdgesWith(h, p, ts) && TargetsInRange(g) && Coherent(h)
    requires p < |g| && Straight(g[p].code) && h[p].code == g[p].code
    requires i.IsTerminator() && multiset(Successors(i)) == multiset(ts)
    requires forall t :: t in ts ==> t < |g|
    ensures Sealed(g, p, h[p := h[p].(code := h[p].code + [i])])
  {
    hide EdgesWith, EdgesAgree, CoherentPhi;
    var k := h[p := h[p].(code := h[p].code + [i])];
    CloseEdges(h, p, ts, i);
    assert Front(k[p].code) == h[p].code;
    assert BlockExtends(h[p], k[p]);
    assert Extends(h, k) by {
      forall b | 0 <= b < |h| ensures BlockExtends(h[b], k[b]) {
        if b != p { BlockExtendsSelf(h[b]); }
      }
    }
    ExtendsTransitive(g, h, k);
    assert TargetsInRange(k) by {
      forall b | 0 <= b < |k| ensures forall t :: t in Targets(k[b]) ==> t < |k| {
        if b == p {
          forall t | t in Successors(i) ensures t < |g| {
            assert t in multiset(Successors(i));
            assert t in ts;
          }
        } else {
          assert k[b].code == g[b].code;
          assert Targets(k[b]) == Targets(g[b]);
        }
      }
    }
  }

  /** A block without edges has no entries anywhere. */
  lemma OpenCarries(g: Graph, p: nat, t: nat, phis: seq<nat>, vs: seq<Operand>)
    requires EdgesAgree(g) && p < |g| && Targets(g[p]) == [] && t < |g| && |phis| == |vs|
    ensures BlockCarries(g[t], p, phis, vs)
  {
    forall i | 0 <= i < |phis| && phis[i] in g[t].phis ensures EntriesCarry(g[t].phis[phis[i]], p, vs[i]) {
      assert EntriesFrom(g[t].phis[phis[i]], p) == EdgeCount(g, p, t);
      NoEntryCarries(g[t].phis[phis[i]], p, vs[i]);
    }
  }

  /** On a real edge the PHIs read the values they were fed. */
  lemma CarriedValues(g: Graph, p: nat, t: nat, phis: seq<nat>, vs: seq<Operand>)
    requires EdgesAgree(g) && p < |g| && t < |g| && t in Targets(g[p])
    requires |phis| == |vs| && BlockCarries(g[t], p, phis, vs)
    ensures forall i :: 0 <= i < |phis| && phis[i] in g[t].phis ==>
              LookUp(g[t].phis[phis[i]].incoming, p) == Some(vs[i])
  {
    forall i | 0 <= i < |phis| && phis[i] in g[t].phis
      ensures LookUp(g[t].phis[phis[i]].incoming, p) == Some(vs[i])
    {
      var phi := g[t].phis[phis[i]];
      assert EntriesFrom(phi, p) == EdgeCount(g, p, t);
      assert t in multiset(Targets(g[p]));
      assert EntriesCarry(phi, p, vs[i]);
      CarryLookUp(phi.incoming, p, vs[i]);
    }
  }

  /** An unconditional branch. */
  lemma JumpSeals(g: Graph, p: nat, t: nat, phis: seq<nat>, vs: seq<Operand>)
    requires Consistent(g) && p < |g| && Straight(g[p].code)
    requires t < |g| && |phis| == |vs| && PhisAre(g[t], phis)
    ensures var h := g[t := AddAll(g[t], phis, vs, p)];
            && Sealed(g, p, h[p := h[p].(code := h[p].code + [Jump(t)])])
            && BlockCarries(h[t], p, phis, vs)
  {
    hide EdgesWith, EdgesAgree, Sealed, Extends, BlockCarries;
    StraightTargets(g[p]);
    OpenEdges(g, p);
    MildSelf(g, p);
    OpenCarries(g, p, t, phis, vs);
    FeedStep(g, g, p, [], t, phis, vs);
    SealStep(g, g[t := AddAll(g[t], phis, vs, p)], p, [] + [t], Jump(t));
  }

  /** A conditional branch to a fed target or to a block without PHIs. */
  lemma CondJumpSeals(g: Graph, p: nat, c: Operand, t: nat, phis: seq<nat>, vs: seq<Operand>, f: nat)
    requires Consistent(g) && p < |g| && Straight(g[p].code)
    requires t < |g| && |phis| == |vs| && PhisAre(g[t], phis)
    requires f < |g| && g[f].phis == map[]
    ensures var h := g[t := AddAll(g[t], phis, vs, p)];
            && Sealed(g, p, h[p := h[p].(code := h[p].code + [CondJump(c, t, f)])])
            && BlockCarries(h[t], p, phis, vs)
  {
    hide EdgesWith, EdgesAgree, Sealed, Extends, BlockCarries;
    StraightTargets(g[p]);
    OpenEdges(g, p);
    MildSelf(g, p);
    OpenCarries(g, p, t, phis, vs);
    FeedStep(g, g, p, [], t, phis, vs);
    var h := g[t := AddAll(g[t], phis, vs, p)];
    assert h[f].phis == map[] by { assert h[f].phis.Keys == g[f].phis.Keys; }
    BareEdge(h, p, [] + [t], f);
    assert [] + [t] + [f] == [t, f];
    SealStep(g, h, p, [t, f], CondJump(c, t, f));
  }

  /** A terminator without targets. */
  lemma StopSeals(g: Graph, p: nat, i: Instr)
    requires Consistent(g) && p < |g| && Straight(g[p].code) && i.IsTerminator() && Successors(i) == []
    ensures Sealed(g, p, g[p := g[p].(code := g[p].code + [i])])
  {
    hide EdgesWith, EdgesAgree, Sealed, Extends;
    StraightTargets(g[p]);
    OpenEdges(g, p);
    MildSelf(g, p);
    SealStep(g, g, p, [], i);
  }

  /** A straight instruction keeps a consistent graph consistent. */
  lemma StraightKeeps(g: Graph, p: nat, i: Instr)
    requires Consistent(g) && p < |g| && Straight(g[p].code) && !i.IsTerminator()
    ensures var h := g[p := g[p].(code := g[p].code + [i])];
            Mild(g, h, p) && Straight(h[p].code) && Consistent(h) && Extends(g, h)
  {
    var h := g[p := g[p].(code := g[p].code + [i])];
    StraightTargets(g[p]);
    StraightTargets(h[p]);
    StraightEdges(g, p, i);
    assert forall b :: 0 <= b < |g| ==> Targets(h[b]) == Targets(g[b]);
  }

  /** New empty blocks keep a consistent graph consistent. */
  lemma GrowKeeps(g: Graph, h: Graph)
    requires Consistent(g) && |g| <= |h| && h[..|g|] == g
    requires forall b :: |g| <= b < |h| ==> h[b].code == [] && NoEntries(h[b])
    ensures Consistent(h) && Extends(g, h)
  {
    GrowEdges(g, h);
    forall b | 0 <= b < |h| ensures (b < |g| ==> h[b] == g[b]) && forall t :: t in Targets(h[b]) ==> t < |h| {
      if b < |g| {
        assert h[b] == h[..|g|][b] == g[b];
      }
    }
  }
}