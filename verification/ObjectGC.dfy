/** The mark-and-sweep collector of a compartment: what its scan reaches is exactly what is
    reachable from the rooted objects through the fields that hold references, and everything else is
    deleted. */
module ObjectGC {
  import opened Wrappers

  type Id = nat

  /** A reference held in a table, global or module instance. A function is owned by a module
      instance, or by none if it is a host function. */
  datatype Reference =
    | Null
    | Function(instance: Option<nat>)
    | Object(id: Id)

  datatype Contents =
    | Table(elements: seq<Reference>)
    | Global(holdsReference: bool, mutableIndex: Option<nat>, initialValue: Reference)
    | Instance(functions: seq<Reference>, functionRoots: seq<nat>, tables: seq<Id>, memories: seq<Id>,
               globals: seq<Id>, exceptionTypes: seq<Id>)
    | Context(mutableGlobals: seq<Reference>)
    | Memory
    | ExceptionType
    | CompartmentItself

  /** A compartment: its objects, how often each is rooted, and which object each module instance
      id stands for. `order` is the order in which the collector meets the objects. */
  datatype Compartment = Compartment(self: Id, objects: map<Id, Contents>, roots: map<Id, nat>, instances: map<nat, Id>,
                                     initialMutableGlobals: seq<Reference>, contexts: seq<Id>, order: seq<Id>)

  ghost predicate Valid(c: Compartment) {
    && c.self in c.objects && c.objects[c.self] == CompartmentItself
    && (forall o :: o in c.objects ==> o in c.roots)
    && (forall o :: o in c.objects && c.objects[o] == CompartmentItself ==> o == c.self)
    && (forall o :: o in c.order <==> o in c.objects)
    && (forall i, j :: 0 <= i < j < |c.order| ==> c.order[i] != c.order[j])
    && (forall i :: 0 <= i < |c.contexts| ==> c.contexts[i] in c.objects && c.objects[c.contexts[i]].Context?)
    && forall o :: o in c.objects ==> ValidContents(c, c.objects[o])
  }

  ghost predicate ValidContents(c: Compartment, x: Contents) {
    && (x.Global? && x.mutableIndex.Some? ==>
          && x.mutableIndex.value < |c.initialMutableGlobals|
          && forall i :: 0 <= i < |c.contexts| && c.contexts[i] in c.objects && c.objects[c.contexts[i]].Context? ==>
               x.mutableIndex.value < |c.objects[c.contexts[i]].mutableGlobals|)
    && (x.Table? ==> forall i :: 0 <= i < |x.elements| ==> InstanceKnown(c, x.elements[i]))
    && (x.Instance? ==> forall i :: 0 <= i < |x.functions| ==> InstanceKnown(c, x.functions[i]))
    && (x.Global? && x.holdsReference ==> InstanceKnown(c, x.initialValue))
    && (x.Global? && x.holdsReference && x.mutableIndex.Some? ==>
          && InstanceKnown(c, c.initialMutableGlobals[x.mutableIndex.value])
          && forall i :: 0 <= i < |c.contexts| && HasGlobal(c, c.contexts[i], x.mutableIndex.value) ==>
               InstanceKnown(c, c.objects[c.contexts[i]].mutableGlobals[x.mutableIndex.value]))
  }

  /** The module instance of a function exists. */
  ghost predicate InstanceKnown(c: Compartment, r: Reference) {
    r.Function? && r.instance.Some? ==> r.instance.value in c.instances
  }

  predicate HasGlobal(c: Compartment, context: Id, index: nat) {
    context in c.objects && c.objects[context].Context? && index < |c.objects[context].mutableGlobals|
  }

  // ----- what an object refers to, field by field -----

  /** The reference is the object, or a function of the module instance. */
  ghost predicate Names(c: Compartment, r: Reference, p: Id) {
    || r == Object(p)
    || (r.Function? && r.instance.Some? && r.instance.value in c.instances && c.instances[r.instance.value] == p)
  }

  /** Some field of the object refers to `p`. A mutable global that holds references has a value in every
      context besides its initial ones. */
  ghost predicate Refers(c: Compartment, x: Contents, p: Id) {
    match x
    case Table(elements) => exists i :: 0 <= i < |elements| && Names(c, elements[i], p)
    case Instance(functions, _, tables, memories, globals, exceptionTypes) =>
      || (exists i :: 0 <= i < |functions| && Names(c, functions[i], p))
      || p in tables || p in memories || p in globals || p in exceptionTypes
    case Global(holdsReference, mutableIndex, initialValue) =>
      && holdsReference
      && (|| Names(c, initialValue, p)
          || (mutableIndex.Some? && mutableIndex.value < |c.initialMutableGlobals|
              && Names(c, c.initialMutableGlobals[mutableIndex.value], p))
          || (mutableIndex.Some?
              && exists i :: 0 <= i < |c.contexts| && HasGlobal(c, c.contexts[i], mutableIndex.value)
                             && Names(c, c.objects[c.contexts[i]].mutableGlobals[mutableIndex.value], p)))
    case _ => false
  }

  // ----- what the collector scans -----

  function AsObjects(ids: seq<Id>): (r: seq<Reference>)
    ensures |r| == |ids| && forall i :: 0 <= i < |ids| ==> r[i] == Object(ids[i])
  {
    seq(|ids|, i requires 0 <= i < |ids| => Object(ids[i]))
  }

  /** The values of a mutable global in all contexts. */
  function ContextValues(c: Compartment, contexts: seq<Id>, index: nat): seq<Reference> {
    if contexts == [] then []
    else
      var rest := ContextValues(c, contexts[..|contexts| - 1], index);
      var last := contexts[|contexts| - 1];
      if last in c.objects && c.objects[last].Context? && index < |c.objects[last].mutableGlobals|
      then rest + [c.objects[last].mutableGlobals[index]]
      else rest
  }

  /** The references that scanning an object visits, after its compartment. */
  function Scanned(c: Compartment, x: Contents): seq<Reference> {
    match x
    case Table(elements) => elements
    case Global(true, Some(index), initial) =>
      (if index < |c.initialMutableGlobals| then [c.initialMutableGlobals[index]] else [])
      + ContextValues(c, c.contexts, index) + [initial]
    case Global(true, None, initial) => [initial]
    case Global(false, _, _) => []
    case Instance(functions, _, tables, memories, globals, exceptionTypes) =>
      functions + AsObjects(tables) + AsObjects(memories) + AsObjects(globals) + AsObjects(exceptionTypes)
    case _ => []
  }

  /** The object a reference keeps alive. A function keeps its module instance alive. */
  function Resolve(c: Compartment, r: Reference): Option<Id> {
    match r
    case Null => None
    case Function(None) => None
    case Function(Some(i)) => if i in c.instances then Some(c.instances[i]) else None
    case Object(id) => Some(id)
  }

  // ----- reachability -----

  /** `o` refers to `p`, an object of the compartment. Every object refers to its compartment. */
  ghost predicate Leads(c: Compartment, o: Id, p: Id) {
    o in c.objects && p in c.objects && (p == c.self || Refers(c, c.objects[o], p))
  }

  /** Rooted itself, or a module instance with a rooted function. */
  predicate IsRoot(c: Compartment, o: Id) {
    && o in c.objects && o in c.roots
    && (c.roots[o] > 0
        || (c.objects[o].Instance? && exists i :: 0 <= i < |c.objects[o].functionRoots| && c.objects[o].functionRoots[i] > 0))
  }

  ghost predicate IsPath(c: Compartment, path: seq<Id>) {
    |path| > 0 && IsRoot(c, path[0]) && forall i :: 0 <= i < |path| - 1 ==> Leads(c, path[i], path[i + 1])
  }

  ghost predicate Reachable(c: Compartment, o: Id) {
    exists path :: IsPath(c, path) && path[|path| - 1] == o
  }

  lemma RootReachable(c: Compartment, o: Id)
    requires IsRoot(c, o)
    ensures Reachable(c, o)
  {
    assert IsPath(c, [o]);
  }

  lemma StepReachable(c: Compartment, o: Id, p: Id)
    requires Reachable(c, o) && Leads(c, o, p)
    ensures Reachable(c, p)
  {
    var path :| IsPath(c, path) && path[|path| - 1] == o;
    assert IsPath(c, path + [p]);
  }

  lemma {:induction false} PathStays(c: Compartment, path: seq<Id>, marked: set<Id>, i: nat)
    requires IsPath(c, path) && i < |path|
    requires forall o :: IsRoot(c, o) ==> o in marked
    requires forall o, p :: o in marked && Leads(c, o, p) ==> p in marked
    ensures path[i] in marked
  {
    if i > 0 {
      PathStays(c, path, marked, i - 1);
      assert Leads(c, path[i - 1], path[i - 1 + 1]);
    }
  }

  // ----- the collector -----

  /** Every object is either unreferenced, or pending or scanned, once. */
  ghost predicate Marking(all: set<Id>, unreferenced: set<Id>, seen: seq<Id>) {
    && (forall o :: o in all <==> o in unreferenced || o in seen)
    && (forall o :: o in seen ==> o !in unreferenced)
    && forall i, j :: 0 <= i < j < |seen| ==> seen[i] != seen[j]
  }

  lemma MarkOne(all: set<Id>, unreferenced: set<Id>, seen: seq<Id>, o: Id)
    requires Marking(all, unreferenced, seen) && o in unreferenced
    ensures Marking(all, unreferenced - {o}, seen + [o])
  {
  }

  /** The objects a list of references keeps alive. */
  ghost function Kept(c: Compartment, rs: seq<Reference>): set<Id> {
    set r | r in rs && Resolve(c, r).Some? :: Resolve(c, r).value
  }

  lemma KeptGrows(c: Compartment, rs: seq<Reference>, r: Reference)
    ensures Kept(c, rs + [r]) == Kept(c, rs) + (if Resolve(c, r).Some? then {Resolve(c, r).value} else {})
  {
    forall o ensures o in Kept(c, rs + [r]) <==> o in Kept(c, rs) + (if Resolve(c, r).Some? then {Resolve(c, r).value} else {}) {
      if o in Kept(c, rs + [r]) {
        var x :| x in rs + [r] && Resolve(c, x) == Some(o);
      }
      if o in Kept(c, rs) {
        var x :| x in rs && Resolve(c, x) == Some(o);
        assert x in rs + [r];
      }
      if Resolve(c, r) == Some(o) {
        assert r in rs + [r];
      }
    }
  }

  lemma KeptJoins(c: Compartment, rs: seq<Reference>, ss: seq<Reference>)
    ensures Kept(c, rs + ss) == Kept(c, rs) + Kept(c, ss)
  {
    forall o ensures o in Kept(c, rs + ss) <==> o in Kept(c, rs) + Kept(c, ss) {
      if o in Kept(c, rs + ss) {
        var x :| x in rs + ss && Resolve(c, x) == Some(o);
      }
      if o in Kept(c, rs) {
        var x :| x in rs && Resolve(c, x) == Some(o);
        assert x in rs + ss;
      }
      if o in Kept(c, ss) {
        var x :| x in ss && Resolve(c, x) == Some(o);
        assert x in rs + ss;
      }
    }
  }

  ghost predicate InstancesKnown(c: Compartment, rs: seq<Reference>) {
    forall r :: r in rs && r.Function? && r.instance.Some? ==> r.instance.value in c.instances
  }

  class GCState {
    const compartment: Compartment
    var unreferenced: set<Id>
    var pending: seq<Id>

    constructor (compartment: Compartment)
      ensures this.compartment == compartment && unreferenced == {} && pending == []
    {
      this.compartment := compartment;
      unreferenced, pending := {}, [];
    }

    /** Moves an object, if it is still unreferenced, to the pending ones. */
    method VisitObject(o: Id, ghost all: set<Id>, ghost scanned: seq<Id>)
      requires Marking(all, unreferenced, scanned + pending)
      modifies this
      ensures Marking(all, unreferenced, scanned + pending) && unreferenced == old(unreferenced) - {o}
    {
      if o in unreferenced {
        MarkOne(all, unreferenced, scanned + pending, o);
        assert scanned + pending + [o] == scanned + (pending + [o]);
        unreferenced := unreferenced - {o};
        pending := pending + [o];
      }
    }

    method VisitReference(r: Reference, ghost all: set<Id>, ghost scanned: seq<Id>)
      requires Marking(all, unreferenced, scanned + pending) && InstancesKnown(compartment, [r])
      modifies this
      ensures Marking(all, unreferenced, scanned + pending) && unreferenced == old(unreferenced) - Kept(compartment, [r])
    {
      KeptGrows(compartment, [], r);
      assert [] + [r] == [r] && r in [r];
      match r {
        case Null =>
        case Function(None) =>
        case Function(Some(i)) => VisitObject(compartment.instances[i], all, scanned);
        case Object(id) => VisitObject(id, all, scanned);
      }
    }

    method VisitReferenceArray(rs: seq<Reference>, ghost all: set<Id>, ghost scanned: seq<Id>)
      requires Marking(all, unreferenced, scanned + pending) && InstancesKnown(compartment, rs)
      modifies this
      ensures Marking(all, unreferenced, scanned + pending) && unreferenced == old(unreferenced) - Kept(compartment, rs)
    {
      hide Marking, Kept;
      assert Kept(compartment, rs[..0]) == {} by { KeptNothing(compartment, rs[..0]); }
      for i := 0 to |rs|
        invariant Marking(all, unreferenced, scanned + pending)
        invariant unreferenced == old(unreferenced) - Kept(compartment, rs[..i])
      {
        VisitReference(rs[i], all, scanned);
        KeptJoins(compartment, rs[..i], [rs[i]]);
        assert rs[..i + 1] == rs[..i] + [rs[i]];
      }
      assert rs[..|rs|] == rs;
    }

    method InitGCObject(o: Id, forceRoot: bool, ghost all: set<Id>)
      requires o in compartment.roots && Marking(all, unreferenced, pending) && o !in all
      modifies this
      ensures Marking(all + {o}, unreferenced, pending)
      ensures unreferenced == old(unreferenced) + (if forceRoot || compartment.roots[o] > 0 then {} else {o})
    {
      if forceRoot || compartment.roots[o] > 0 {
        pending := pending + [o];
      } else {
        unreferenced := unreferenced + {o};
      }
    }

    /** Visits everything an object refers to, its compartment first. */
    method ScanObject(o: Id, ghost all: set<Id>, ghost scanned: seq<Id>)
      requires Valid(compartment) && o in compartment.objects && Marking(all, unreferenced, scanned + pending)
      modifies this
      ensures Marking(all, unreferenced, scanned + pending)
      ensures unreferenced == old(unreferenced) - {compartment.self} - Kept(compartment, Scanned(compartment, compartment.objects[o]))
    {
      hide Marking, Kept;
      var x := compartment.objects[o];
      assert ValidContents(compartment, x);
      VisitObject(compartment.self, all, scanned);
      KeptNothing(compartment, []);
      match x {
        case Table(elements) => VisitReferenceArray(elements, all, scanned);
        case Global(true, Some(index), initial) =>
          ghost var values := ContextValues(compartment, compartment.contexts, index);
          ghost var first := [compartment.initialMutableGlobals[index]];
          VisitReference(compartment.initialMutableGlobals[index], all, scanned);
          ContextsKnown(compartment, compartment.contexts, index);
          VisitContexts(index, all, scanned);
          VisitReference(initial, all, scanned);
          KeptJoins(compartment, first + values, [initial]);
          KeptJoins(compartment, first, values);
        case Global(true, None, initial) => VisitReference(initial, all, scanned);
        case Global(false, _, _) =>
        case Instance(functions, _, tables, memories, globals, exceptionTypes) =>
          VisitReferenceArray(functions, all, scanned);
          VisitReferenceArray(AsObjects(tables), all, scanned);
          VisitReferenceArray(AsObjects(memories), all, scanned);
          VisitReferenceArray(AsObjects(globals), all, scanned);
          VisitReferenceArray(AsObjects(exceptionTypes), all, scanned);
          KeptJoins(compartment, functions, AsObjects(tables));
          KeptJoins(compartment, functions + AsObjects(tables), AsObjects(memories));
          KeptJoins(compartment, functions + AsObjects(tables) + AsObjects(memories), AsObjects(globals));
          KeptJoins(compartment, functions + AsObjects(tables) + AsObjects(memories) + AsObjects(globals), AsObjects(exceptionTypes));
        case _ =>
      }
    }

    /** Visits the values of a mutable global in all contexts. */
    method VisitContexts(index: nat, ghost all: set<Id>, ghost scanned: seq<Id>)
      requires Marking(all, unreferenced, scanned + pending)
      requires forall i :: 0 <= i < |compartment.contexts| ==> HasGlobal(compartment, compartment.contexts[i], index)
      requires InstancesKnown(compartment, ContextValues(compartment, compartment.contexts, index))
      modifies this
      ensures Marking(all, unreferenced, scanned + pending)
      ensures unreferenced == old(unreferenced) - Kept(compartment, ContextValues(compartment, compartment.contexts, index))
    {
      hide Marking, Kept;
      var contexts := compartment.contexts;
      KeptNothing(compartment, ContextValues(compartment, contexts[..0], index));
      assert contexts[..|contexts|] == contexts;
      for i := 0 to |contexts|
        invariant Marking(all, unreferenced, scanned + pending)
        invariant unreferenced == old(unreferenced) - Kept(compartment, ContextValues(compartment, contexts[..i], index))
      {
        var value := compartment.objects[contexts[i]].mutableGlobals[index];
        ContextValue(compartment, contexts, index, i);
        VisitReference(value, all, scanned);
        KeptJoins(compartment, ContextValues(compartment, contexts[..i], index), [value]);
      }
    }
  }

  lemma {:induction false} ContextsKnown(c: Compartment, contexts: seq<Id>, index: nat)
    requires forall i :: 0 <= i < |contexts| && HasGlobal(c, contexts[i], index) ==>
               InstanceKnown(c, c.objects[contexts[i]].mutableGlobals[index])
    ensures InstancesKnown(c, ContextValues(c, contexts, index))
  {
    if contexts != [] {
      ContextsKnown(c, contexts[..|contexts| - 1], index);
      assert HasGlobal(c, contexts[|contexts| - 1], index) ==>
               InstanceKnown(c, c.objects[contexts[|contexts| - 1]].mutableGlobals[index]);
    }
  }

  lemma KeptNothing(c: Compartment, rs: seq<Reference>)
    requires rs == []
    ensures Kept(c, rs) == {}
  {
  }

  lemma ContextValue(c: Compartment, contexts: seq<Id>, index: nat, i: nat)
    requires i < |contexts| && HasGlobal(c, contexts[i], index)
    requires forall j :: 0 <= j < |contexts| ==> HasGlobal(c, contexts[j], index)
    ensures ContextValues(c, contexts[..i + 1], index)
         == ContextValues(c, contexts[..i], index) + [c.objects[contexts[i]].mutableGlobals[index]]
    ensures c.objects[contexts[i]].mutableGlobals[index] in ContextValues(c, contexts, index)
  {
    assert contexts[..i + 1][..i] == contexts[..i];
    AllContextValues(c, contexts, index, |contexts|, i);
    assert contexts[..|contexts|] == contexts;
  }

  lemma {:induction false} AllContextValues(c: Compartment, contexts: seq<Id>, index: nat, n: nat, i: nat)
    requires i < n <= |contexts| && HasGlobal(c, contexts[i], index)
    requires forall j :: 0 <= j < |contexts| ==> HasGlobal(c, contexts[j], index)
    ensures c.objects[contexts[i]].mutableGlobals[index] in ContextValues(c, contexts[..n], index)
  {
    assert contexts[..n][..n - 1] == contexts[..n - 1];
    if i < n - 1 {
      AllContextValues(c, contexts, index, n - 1, i);
    }
  }

  method HasRootFunction(c: Compartment, o: Id) returns (r: bool)
    requires o in c.objects
    ensures r <==> c.objects[o].Instance? && exists i :: 0 <= i < |c.objects[o].functionRoots| && c.objects[o].functionRoots[i] > 0
  {
    if !c.objects[o].Instance? {
      return false;
    }
    var roots := c.objects[o].functionRoots;
    for i := 0 to |roots|
      invariant forall j :: 0 <= j < i ==> roots[j] == 0
    {
      if roots[i] > 0 {
        return true;
      }
    }
    return false;
  }

  /** Splits the objects into the rooted, pending ones and the unreferenced ones. */
  method InitMarking(c: Compartment) returns (state: GCState)
    requires Valid(c)
    ensures fresh(state) && state.compartment == c
    ensures Marking(c.objects.Keys, state.unreferenced, state.pending)
    ensures forall o :: o in state.pending <==> IsRoot(c, o)
  {
    state := new GCState(c);
    ghost var all: set<Id> := {};
    for i := 0 to |c.order|
      invariant fresh(state) && state.compartment == c
      invariant Marking(all, state.unreferenced, state.pending)
      invariant forall o :: o in all <==> o in c.order[..i]
      invariant forall o :: o in all ==> (o in state.pending <==> IsRoot(c, o))
    {
      var o := c.order[i];
      assert o in c.order;
      var forceRoot := HasRootFunction(c, o);
      ghost var before := state.unreferenced;
      assert o !in all;
      state.InitGCObject(o, forceRoot, all);
      assert IsRoot(c, o) <==> o !in state.unreferenced;
      all := all + {o};
    }
    assert c.order[..|c.order|] == c.order;
    assert all == c.objects.Keys;
  }

  /** What the marking loop keeps: whatever has been scanned or is pending is reachable, the roots
      are among it, and what a scanned object leads to is among it. */
  ghost predicate Sound(c: Compartment, unreferenced: set<Id>, scanned: seq<Id>, pending: seq<Id>) {
    && Marking(c.objects.Keys, unreferenced, scanned + pending)
    && (forall o :: o in scanned + pending ==> Reachable(c, o))
    && (forall o :: IsRoot(c, o) ==> o !in unreferenced)
    && forall o, p :: o in scanned && Leads(c, o, p) ==> p !in unreferenced
  }

  lemma NamesIsResolve(c: Compartment, r: Reference, p: Id)
    ensures Names(c, r, p) <==> Resolve(c, r) == Some(p)
  {
  }

  lemma KeptIff(c: Compartment, rs: seq<Reference>, p: Id)
    ensures p in Kept(c, rs) <==> exists i :: 0 <= i < |rs| && Names(c, rs[i], p)
  {
    if p in Kept(c, rs) {
      var r :| r in rs && Resolve(c, r) == Some(p);
      var i :| 0 <= i < |rs| && rs[i] == r;
      NamesIsResolve(c, rs[i], p);
    }
    if i :| 0 <= i < |rs| && Names(c, rs[i], p) {
      NamesIsResolve(c, rs[i], p);
      assert rs[i] in rs;
    }
  }

  lemma ObjectsKept(c: Compartment, ids: seq<Id>, p: Id)
    ensures p in Kept(c, AsObjects(ids)) <==> p in ids
  {
    hide Kept;
    KeptIff(c, AsObjects(ids), p);
    if p in ids {
      var i :| 0 <= i < |ids| && ids[i] == p;
      assert Names(c, AsObjects(ids)[i], p);
    }
  }

  lemma {:induction false} ContextsKept(c: Compartment, contexts: seq<Id>, index: nat, p: Id)
    ensures p in Kept(c, ContextValues(c, contexts, index)) <==>
              exists i :: 0 <= i < |contexts| && HasGlobal(c, contexts[i], index)
                          && Names(c, c.objects[contexts[i]].mutableGlobals[index], p)
  {
    hide Kept, Names;
    if contexts == [] {
      KeptNothing(c, ContextValues(c, contexts, index));
    } else {
      var front, last := contexts[..|contexts| - 1], contexts[|contexts| - 1];
      ContextsKept(c, front, index, p);
      assert forall i :: 0 <= i < |front| ==> front[i] == contexts[i];
      if HasGlobal(c, last, index) {
        KeptJoins(c, ContextValues(c, front, index), [c.objects[last].mutableGlobals[index]]);
        OneKept(c, c.objects[last].mutableGlobals[index], p);
      }
    }
  }

  lemma OneKept(c: Compartment, r: Reference, p: Id)
    ensures p in Kept(c, [r]) <==> Names(c, r, p)
  {
    hide Kept, Names;
    KeptIff(c, [r], p);
    assert [r][0] == r;
  }

  lemma GlobalKept(c: Compartment, x: Contents, p: Id)
    requires x.Global?
    ensures p in Kept(c, Scanned(c, x)) <==> Refers(c, x, p)
  {
    hide Kept, Names;
    KeptNothing(c, []);
    OneKept(c, x.initialValue, p);
    if x.holdsReference && x.mutableIndex.Some? {
      var index := x.mutableIndex.value;
      var values := ContextValues(c, c.contexts, index);
      ContextsKept(c, c.contexts, index, p);
      var first := if index < |c.initialMutableGlobals| then [c.initialMutableGlobals[index]] else [];
      if index < |c.initialMutableGlobals| {
        OneKept(c, c.initialMutableGlobals[index], p);
      }
      KeptJoins(c, first + values, [x.initialValue]);
      KeptJoins(c, first, values);
    }
  }

  lemma InstanceKept(c: Compartment, x: Contents, p: Id)
    requires x.Instance?
    ensures p in Kept(c, Scanned(c, x)) <==> Refers(c, x, p)
  {
    hide Kept, Names;
    var a, b, d, e := AsObjects(x.tables), AsObjects(x.memories), AsObjects(x.globals), AsObjects(x.exceptionTypes);
    KeptJoins(c, x.functions + a + b + d, e);
    KeptJoins(c, x.functions + a + b, d);
    KeptJoins(c, x.functions + a, b);
    KeptJoins(c, x.functions, a);
    KeptIff(c, x.functions, p);
    ObjectsKept(c, x.tables, p);
    ObjectsKept(c, x.memories, p);
    ObjectsKept(c, x.globals, p);
    ObjectsKept(c, x.exceptionTypes, p);
  }

  /** What scanning an object keeps is exactly what its fields refer to. */
  lemma ScannedExact(c: Compartment, x: Contents, p: Id)
    ensures p in Kept(c, Scanned(c, x)) <==> Refers(c, x, p)
  {
    hide Kept, Names;
    match x
    case Table(elements) => KeptIff(c, elements, p);
    case Global(_, _, _) => GlobalKept(c, x, p);
    case Instance(_, _, _, _, _, _) => InstanceKept(c, x, p);
    case _ => KeptNothing(c, []);
  }

  lemma LeadsKept(c: Compartment, o: Id, p: Id)
    requires o in c.objects
    ensures Leads(c, o, p) <==> p in c.objects && (p == c.self || p in Kept(c, Scanned(c, c.objects[o])))
  {
    hide Kept, Scanned, Refers;
    ScannedExact(c, c.objects[o], p);
  }

  /** Scanning one pending object keeps the invariant. */
  lemma ScanKeeps(c: Compartment, before: set<Id>, scanned: seq<Id>, rest: seq<Id>, o: Id, after: set<Id>,
      pending: seq<Id>)
    requires Valid(c) && Sound(c, before, scanned, rest + [o])
    requires Marking(c.objects.Keys, after, scanned + [o] + pending)
    requires o in c.objects && after == before - {c.self} - Kept(c, Scanned(c, c.objects[o]))
    ensures Sound(c, after, scanned + [o], pending)
  {
    hide Valid, Reachable, Leads, Kept, IsRoot;
    forall p ensures Leads(c, o, p) <==> p in c.objects && (p == c.self || p in Kept(c, Scanned(c, c.objects[o]))) {
      LeadsKept(c, o, p);
    }
    assert o in scanned + (rest + [o]);
    forall p | p in scanned + [o] + pending ensures Reachable(c, p) {
      if p in before {
        assert Leads(c, o, p);
        StepReachable(c, o, p);
      } else {
        assert p in scanned + (rest + [o]);
      }
    }
  }

  lemma Inside(c: Compartment, o: Id, p: Id)
    ensures IsRoot(c, o) ==> o in c.objects
    ensures Leads(c, o, p) ==> p in c.objects
  {
  }

  /** When nothing is pending, the scanned objects are exactly the reachable ones. */
  lemma MarkingExact(c: Compartment, unreferenced: set<Id>, scanned: seq<Id>, o: Id)
    requires Valid(c) && Sound(c, unreferenced, scanned, [])
    ensures o in scanned <==> Reachable(c, o)
    ensures o in unreferenced <==> o in c.objects && !Reachable(c, o)
  {
    hide Valid, Leads, IsRoot, Reachable;
    assert scanned + [] == scanned;
    if Reachable(c, o) {
      var marked := set p | p in scanned;
      forall p | IsRoot(c, p) ensures p in marked {
        Inside(c, p, p);
      }
      forall q, p | q in marked && Leads(c, q, p) ensures p in marked {
        Inside(c, q, p);
      }
      ReachableStays(c, o, marked);
    }
  }

  lemma ReachableStays(c: Compartment, o: Id, marked: set<Id>)
    requires Reachable(c, o)
    requires forall p :: IsRoot(c, p) ==> p in marked
    requires forall q, p :: q in marked && Leads(c, q, p) ==> p in marked
    ensures o in marked
  {
    hide IsRoot, Leads;
    var path :| IsPath(c, path) && path[|path| - 1] == o;
    PathStays(c, path, marked, |path| - 1);
  }

  /** The collection. The deleted objects are exactly the unreachable ones, each reachable object
      is scanned once and no other is, and the compartment goes only if nothing survives. */
  method CollectGarbage(c: Compartment) returns (deleted: set<Id>, compartmentDeleted: bool, ghost scanned: seq<Id>)
    requires Valid(c)
    ensures forall o :: o in deleted <==> o in c.objects && o != c.self && !Reachable(c, o)
    ensures compartmentDeleted <==> forall o :: o in c.objects ==> !Reachable(c, o)
    ensures forall o :: o in scanned <==> Reachable(c, o)
    ensures forall i, j :: 0 <= i < j < |scanned| ==> scanned[i] != scanned[j]
    ensures forall o :: IsRoot(c, o) ==> o !in deleted
    ensures forall o, p :: o in c.objects && o !in deleted && (o == c.self ==> !compartmentDeleted) ==>
              Refers(c, c.objects[o], p) ==> p !in deleted
  {
    hide Valid, Sound, IsRoot, Leads, Reachable, Marking;
    var state := InitMarking(c);
    scanned := [];
    StartSound(c, state.unreferenced, state.pending);
    while |state.pending| > 0
      invariant state.compartment == c && fresh(state)
      invariant Sound(c, state.unreferenced, scanned, state.pending)
      decreases |c.objects.Keys| - |scanned|
    {
      ghost var before, was := state.unreferenced, state.pending;
      var o := state.pending[|state.pending| - 1];
      state.pending := state.pending[..|state.pending| - 1];
      assert was == state.pending + [o];
      ghost var rest := state.pending;
      PopSound(c, before, scanned, rest, o);
      state.ScanObject(o, c.objects.Keys, scanned + [o]);
      ScanKeeps(c, before, scanned, rest, o, state.unreferenced, state.pending);
      scanned := scanned + [o];
      ScannedBounded(c, state.unreferenced, scanned, state.pending);
    }
    forall o ensures (o in scanned <==> Reachable(c, o)) && (o in state.unreferenced <==> o in c.objects && !Reachable(c, o)) {
      MarkingExact(c, state.unreferenced, scanned, o);
    }
    SelfLast(c, scanned);
    ScannedBounded(c, state.unreferenced, scanned, state.pending);
    compartmentDeleted := c.self in state.unreferenced;
    deleted := state.unreferenced - {c.self};
    forall o | IsRoot(c, o) ensures o !in deleted {
      RootReachable(c, o);
    }
    forall o, p | o in c.objects && o !in deleted && (o == c.self ==> !compartmentDeleted) && Refers(c, c.objects[o], p)
      ensures p !in deleted
    {
      if p in c.objects {
        NothingDangles(c, o, p);
      }
    }
  }

  /** What a reachable object refers to is reachable. */
  lemma NothingDangles(c: Compartment, o: Id, p: Id)
    requires Reachable(c, o) && o in c.objects && p in c.objects && Refers(c, c.objects[o], p)
    ensures Reachable(c, p)
  {
    hide Refers, IsPath;
    StepReachable(c, o, p);
  }

  lemma StartSound(c: Compartment, unreferenced: set<Id>, pending: seq<Id>)
    requires Marking(c.objects.Keys, unreferenced, pending) && forall o :: o in pending <==> IsRoot(c, o)
    ensures Sound(c, unreferenced, [], pending)
  {
    assert [] + pending == pending;
    forall o | o in pending ensures Reachable(c, o) {
      RootReachable(c, o);
    }
  }

  lemma PopSound(c: Compartment, unreferenced: set<Id>, scanned: seq<Id>, rest: seq<Id>, o: Id)
    requires Sound(c, unreferenced, scanned, rest + [o])
    ensures o in c.objects && Marking(c.objects.Keys, unreferenced, scanned + [o] + rest)
  {
    var was, now := scanned + (rest + [o]), scanned + [o] + rest;
    assert was[|was| - 1] == o;
    forall x ensures x in was <==> x in now {
    }
    forall i, j | 0 <= i < j < |now| ensures now[i] != now[j] {
      var n := |scanned|;
      var i', j' := if i < n then i else if i == n then |was| - 1 else i - 1, if j < n then j else if j == n then |was| - 1 else j - 1;
      assert was[i'] == now[i] && was[j'] == now[j] && i' != j';
    }
  }

  lemma {:induction false} SizeBound(seen: seq<Id>, all: set<Id>)
    requires (forall o :: o in seen ==> o in all) && forall i, j :: 0 <= i < j < |seen| ==> seen[i] != seen[j]
    ensures |seen| <= |all|
  {
    if seen != [] {
      var last := seen[|seen| - 1];
      assert last in seen;
      SizeBound(seen[..|seen| - 1], all - {last});
    }
  }

  lemma ScannedBounded(c: Compartment, unreferenced: set<Id>, scanned: seq<Id>, pending: seq<Id>)
    requires Sound(c, unreferenced, scanned, pending)
    ensures |scanned| <= |c.objects.Keys|
    ensures forall i, j :: 0 <= i < j < |scanned| ==> scanned[i] != scanned[j]
  {
    var seen := scanned + pending;
    forall i, j | 0 <= i < j < |scanned| ensures scanned[i] != scanned[j] {
      assert seen[i] == scanned[i] && seen[j] == scanned[j];
    }
    SizeBound(scanned, c.objects.Keys);
  }

  /** Every object leads to the compartment, so it survives if anything does. */
  lemma SelfLast(c: Compartment, scanned: seq<Id>)
    requires Valid(c) && forall o :: o in scanned <==> Reachable(c, o)
    ensures c.self in c.objects && (Reachable(c, c.self) <==> exists o :: o in c.objects && Reachable(c, o))
  {
    if o :| o in c.objects && Reachable(c, o) {
      assert Leads(c, o, c.self);
      StepReachable(c, o, c.self);
    }
  }
}
