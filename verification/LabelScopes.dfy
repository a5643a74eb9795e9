/** Resolution of branch target names in the text parser. A map from names to construct indices is
    updated on entry to a construct and repaired on exit, also when a parse error unwinds to a closing
    parenthesis and parsing goes on there; a name resolves as section 6.5.1 of the WebAssembly Core
    Specification 1.0 says: to the depth of the innermost enclosing construct with that label. */
module LabelScopes {
  import opened Wrappers

  type Name = string

  /** The text of a function body, as far as labels matter.
      `Operator` is an operator with the names of its branch targets: none, one, or a table of them.
      `Construct` is a flat block, loop, if or try up to its `end`, its clauses one after another.
      `Parenthesized` is a parenthesized piece of text, at whose closing parenthesis parsing goes on
      after an error. A folded construct is a Parenthesized Construct, a folded operator a
      Parenthesized operator followed by its operands, and a folded `if` holds its condition before
      the Construct and its clauses as Parenthesized pieces inside it.
      `Error` is text that throws a parse error. */
  datatype Instr =
    | Operator(targets: seq<Name>)
    | Construct(tag: Option<Name>, body: seq<Instr>)
    | Parenthesized(body: seq<Instr>)
    | Error

  // ----- the reference: a stack of labels, the innermost last -----

  /** The depth of the innermost construct with the label, counted from the innermost one. */
  function DepthOf(labels: seq<Option<Name>>, name: Name): Option<nat> {
    if labels == [] then None
    else if labels[|labels| - 1] == Some(name) then Some(0)
    else
      var outer :- DepthOf(labels[..|labels| - 1], name);
      Some(outer + 1)
  }

  function DepthsOf(labels: seq<Option<Name>>, names: seq<Name>): (r: seq<Option<nat>>)
    ensures |r| == |names| && forall i :: 0 <= i < |names| ==> r[i] == DepthOf(labels, names[i])
  {
    seq(|names|, i requires 0 <= i < |names| => DepthOf(labels, names[i]))
  }

  /** What the branch targets of a sequence resolve to, and whether an error leaves the sequence. An
      error ends the sequence it is in, and so on outwards up to a closing parenthesis. */
  function Expected(instrs: seq<Instr>, labels: seq<Option<Name>>): (seq<Option<nat>>, bool)
    decreases instrs
  {
    ExpectedUpTo(instrs, |instrs|, labels)
  }

  function ExpectedOf(instr: Instr, labels: seq<Option<Name>>): (seq<Option<nat>>, bool)
    decreases instr
  {
    match instr
    case Operator(targets) => (DepthsOf(labels, targets), false)
    case Error => ([], true)
    case Construct(tag, body) => ExpectedUpTo(body, |body|, labels + [tag])
    case Parenthesized(body) => (ExpectedUpTo(body, |body|, labels).0, false)
  }

  function ExpectedUpTo(instrs: seq<Instr>, n: nat, labels: seq<Option<Name>>): (seq<Option<nat>>, bool)
    requires n <= |instrs|
    decreases instrs, n
  {
    if n == 0 then ([], false)
    else
      var (before, failed) := ExpectedUpTo(instrs, n - 1, labels);
      if failed then (before, true)
      else
        var (here, failedHere) := ExpectedOf(instrs[n - 1], labels);
        (before + here, failedHere)
  }

  // ----- the parser's state -----

  /** The map and the depth represent the labels: a name is mapped to the index, from 1, of the
      innermost construct with that label. */
  ghost predicate Represents(targets: map<Name, nat>, depth: nat, labels: seq<Option<Name>>) {
    && depth == |labels|
    && forall name: Name :: match DepthOf(labels, name)
                            case None => name !in targets
                            case Some(d) => name in targets && d < depth && targets[name] == depth - d
  }

  class FunctionState {
    var targets: map<Name, nat>
    var depth: nat

    constructor ()
      ensures Represents(targets, depth, [])
    {
      targets, depth := map[], 0;
    }

    /** Enters a construct; returns what its label was bound to before. */
    method Enter(tag: Option<Name>, ghost labels: seq<Option<Name>>) returns (previous: Option<nat>)
      requires Represents(targets, depth, labels)
      modifies this
      ensures Represents(targets, depth, labels + [tag]) && depth == old(depth) + 1
      ensures Left(targets, tag, previous) == old(targets)
    {
      depth := depth + 1;
      previous := None;
      if tag.Some? {
        if tag.value in targets {
          previous := Some(targets[tag.value]);
        }
        targets := targets[tag.value := depth];
      }
      EnterRepresents(old(targets), old(depth), labels, tag);
    }

    /** Leaves a construct: the label is bound as before. */
    method Leave(tag: Option<Name>, previous: Option<nat>, ghost labels: seq<Option<Name>>)
      requires Represents(targets, depth, labels + [tag])
      modifies this
      ensures depth == old(depth) - 1 && targets == Left(old(targets), tag, previous)
    {
      assert (labels + [tag])[|labels|] == tag;
      if tag.Some? {
        assert DepthOf(labels + [tag], tag.value) == Some(0);
        assert tag.value in targets && targets[tag.value] == depth;
      }
      depth := depth - 1;
      targets := Left(targets, tag, previous);
    }

    /** The depth a branch to the name is encoded with; None for an unknown name. */
    method Resolve(name: Name, ghost labels: seq<Option<Name>>) returns (r: Option<nat>)
      requires Represents(targets, depth, labels)
      ensures r == DepthOf(labels, name)
    {
      assert match DepthOf(labels, name)
             case None => name !in targets
             case Some(d) => name in targets && d < depth && targets[name] == depth - d;
      if name !in targets {
        return None;
      }
      return Some(depth - targets[name]);
    }
  }

  function Left(targets: map<Name, nat>, tag: Option<Name>, previous: Option<nat>): map<Name, nat> {
    if tag.None? then targets
    else if previous.None? then targets - {tag.value}
    else targets[tag.value := previous.value]
  }

  lemma EnterRepresents(targets: map<Name, nat>, depth: nat, labels: seq<Option<Name>>, tag: Option<Name>)
    requires Represents(targets, depth, labels)
    ensures Represents(if tag.Some? then targets[tag.value := depth + 1] else targets, depth + 1, labels + [tag])
  {
    var more := labels + [tag];
    assert more[..|labels|] == labels && more[|labels|] == tag;
    forall name: Name
      ensures DepthOf(more, name) == if tag == Some(name) then Some(0)
                                     else if DepthOf(labels, name).None? then None
                                     else Some(DepthOf(labels, name).value + 1)
    {
    }
  }

  /** Parses a sequence. Every branch target that is parsed, also behind a closing parenthesis where
      parsing recovered from an error, resolves as the reference says; and the state afterwards is
      exactly the state before, whether or not an error was thrown. */
  method ParseSequence(state: FunctionState, instrs: seq<Instr>, ghost labels: seq<Option<Name>>)
    returns (resolved: seq<Option<nat>>, failed: bool)
    requires Represents(state.targets, state.depth, labels)
    modifies state
    ensures state.targets == old(state.targets) && state.depth == old(state.depth)
    ensures (resolved, failed) == Expected(instrs, labels)
    decreases instrs
  {
    resolved, failed := [], false;
    for i := 0 to |instrs|
      invariant state.targets == old(state.targets) && state.depth == old(state.depth) && !failed
      invariant (resolved, failed) == ExpectedUpTo(instrs, i, labels)
    {
      var here, failedHere := ParseInstr(state, instrs[i], labels);
      resolved := resolved + here;
      if failedHere {
        ErrorStops(instrs, i + 1, |instrs|, labels);
        return resolved, true;
      }
    }
  }

  method ParseInstr(state: FunctionState, instr: Instr, ghost labels: seq<Option<Name>>)
    returns (resolved: seq<Option<nat>>, failed: bool)
    requires Represents(state.targets, state.depth, labels)
    modifies state
    ensures state.targets == old(state.targets) && state.depth == old(state.depth)
    ensures (resolved, failed) == ExpectedOf(instr, labels)
    decreases instr
  {
    resolved, failed := [], false;
    match instr {
      case Operator(targets) =>
        for i := 0 to |targets|
          invariant resolved == DepthsOf(labels, targets)[..i]
          invariant state.targets == old(state.targets) && state.depth == old(state.depth)
        {
          var depth := state.Resolve(targets[i], labels);
          resolved := resolved + [depth];
        }
        assert resolved == DepthsOf(labels, targets);
      case Error => failed := true;
      case Construct(tag, body) =>
        var previous := state.Enter(tag, labels);
        resolved, failed := ParseSequence(state, body, labels + [tag]);
        state.Leave(tag, previous, labels);
      case Parenthesized(body) =>
        var caught;
        resolved, caught := ParseSequence(state, body, labels);
    }
  }

  /** In a sequence, nothing after an error is resolved. */
  lemma {:induction false} ErrorStops(instrs: seq<Instr>, i: nat, n: nat, labels: seq<Option<Name>>)
    requires i <= n <= |instrs| && ExpectedUpTo(instrs, i, labels).1
    ensures ExpectedUpTo(instrs, n, labels) == ExpectedUpTo(instrs, i, labels)
    decreases n
  {
    if i < n {
      ErrorStops(instrs, i, n - 1, labels);
    }
  }

  // ----- recovery -----

  lemma {:induction false} UpToPrefix(a: seq<Instr>, b: seq<Instr>, n: nat, labels: seq<Option<Name>>)
    requires n <= |a|
    ensures ExpectedUpTo(a + b, n, labels) == ExpectedUpTo(a, n, labels)
    decreases n
  {
    if n > 0 {
      UpToPrefix(a, b, n - 1, labels);
    }
  }

  lemma {:induction false} UpToSuffix(a: seq<Instr>, b: seq<Instr>, n: nat, labels: seq<Option<Name>>)
    requires n <= |b| && !Expected(a, labels).1
    ensures ExpectedUpTo(a + b, |a| + n, labels)
         == (Expected(a, labels).0 + ExpectedUpTo(b, n, labels).0, ExpectedUpTo(b, n, labels).1)
    decreases n
  {
    var front := Expected(a, labels).0;
    if n == 0 {
      UpToPrefix(a, b, |a|, labels);
      assert front + [] == front;
    } else {
      UpToSuffix(a, b, n - 1, labels);
      var (before, failed) := ExpectedUpTo(b, n - 1, labels);
      assert (a + b)[|a| + n - 1] == b[n - 1];
      if !failed {
        var here := ExpectedOf(b[n - 1], labels).0;
        assert (front + before) + here == front + (before + here);
      }
    }
  }

  /** After any text that is parenthesized, however many errors it holds, every branch target that
      follows in the sequence resolves as if that text were not there: to the innermost enclosing
      construct with its label. */
  lemma RecoveryGoesOn(before: seq<Instr>, broken: seq<Instr>, after: seq<Instr>, labels: seq<Option<Name>>)
    requires !Expected(before, labels).1
    ensures Expected(before + [Parenthesized(broken)] + after, labels)
         == (Expected(before, labels).0 + Expected(broken, labels).0 + Expected(after, labels).0, Expected(after, labels).1)
  {
    var piece := [Parenthesized(broken)];
    assert ExpectedUpTo(piece, 1, labels) == ([] + Expected(broken, labels).0, false) by {
      assert ExpectedUpTo(piece, 0, labels) == ([], false);
    }
    assert [] + Expected(broken, labels).0 == Expected(broken, labels).0;
    UpToSuffix(before, piece, 1, labels);
    UpToSuffix(before + piece, after, |after|, labels);
  }

  /** The depth names the innermost construct with that label: it has the label, and no construct
      inside it does. */
  lemma {:induction false} DepthIsInnermost(labels: seq<Option<Name>>, name: Name)
    ensures match DepthOf(labels, name)
            case None => Some(name) !in labels
            case Some(d) => && d < |labels| && labels[|labels| - 1 - d] == Some(name)
                            && forall j :: |labels| - 1 - d < j < |labels| ==> labels[j] != Some(name)
  {
    if labels != [] && labels[|labels| - 1] != Some(name) {
      DepthIsInnermost(labels[..|labels| - 1], name);
    }
  }
}
