/** The structured reference semantics of a function body (section 4.4.5 of the WebAssembly
    Core Specification 1.0): an operand stack of values and a stack of labels. The machine
    checks every operand it touches and becomes Stuck when one is missing or ill-typed. */
module StackMachine {
  import opened IR
  import opened Wrappers

  datatype Value = Value(ty: ValueType, bits: int)

  /** The state that operators outside the control core may read and change. */
  type World = seq<int>

  datatype Outcome = Results(values: seq<Value>, world: World) | Traps(trapWorld: World)

  /** The meaning of the plain operators: operator, arguments and world to an outcome. */
  type Primitives = (nat, seq<Value>, World) -> Outcome

  predicate HasType(v: Value, t: ValueType) {
    IsProper(v.ty) && IsSubtype(v.ty, t)
  }

  predicate HaveTypes(vs: seq<Value>, ts: seq<ValueType>) {
    |vs| == |ts| && forall i :: 0 <= i < |vs| ==> HasType(vs[i], ts[i])
  }

  function Zero(t: ValueType): Value {
    Value(if IsReference(t) then Nullref else t, 0)
  }

  function Zeros(ts: seq<ValueType>): seq<Value> {
    seq(|ts|, i requires 0 <= i < |ts| => Zero(ts[i]))
  }

  /** Plain operators of the body respect their signatures. */
  ghost predicate Respects(prim: Primitives, fn: FunctionDef) {
    forall pc, args, w ::
      0 <= pc < |fn.code| && fn.code[pc].Plain? && HaveTypes(args, fn.code[pc].sig.params) ==>
        var r := prim(fn.code[pc].id, args, w);
        r.Results? ==> HaveTypes(r.values, fn.code[pc].sig.results)
  }

  /** An entered construct: where it was opened, its type and the stack height below it. */
  datatype Label = Label(opener: nat, ty: FuncType, height: nat)

  datatype Config =
    | Run(pc: nat, stack: seq<Value>, locals: seq<Value>, labels: seq<Label>, world: World)
    | Done(results: seq<Value>, doneWorld: World)
    | Trapped(trapWorld: World)
    | Stuck

  /** The stack height below the innermost label. */
  function Base(c: Config): nat
    requires c.Run?
  {
    if c.labels == [] then 0 else Last(c.labels).height
  }

  /** The operands of the given types lie on top of the stack, above the innermost label. */
  predicate CanPop(c: Config, ts: seq<ValueType>)
    requires c.Run?
  {
    |c.stack| >= Base(c) + |ts| && HaveTypes(Top(c.stack, |ts|), ts)
  }

  function BranchTypes(fn: FunctionDef, l: Label): seq<ValueType> {
    if l.opener < |fn.code| && fn.code[l.opener].Loop? then l.ty.params else l.ty.results
  }

  /** Leaves the function with its results on top of the stack. */
  function Finish(fn: FunctionDef, c: Config): Config
    requires WellFormed(fn) && c.Run?
  {
    var results := Signature(fn).results;
    if CanPop(c, results) then Done(Top(c.stack, |results|), c.world) else Stuck
  }

  /** Branches to the label at the given depth; the depth past the last label is the function. */
  function BranchTo(fn: FunctionDef, c: Config, depth: nat): Config
    requires WellFormed(fn) && c.Run?
  {
    if depth > |c.labels| then Stuck
    else if depth == |c.labels| then Finish(fn, c)
    else
      var k := |c.labels| - 1 - depth;
      var l := c.labels[k];
      var ts := BranchTypes(fn, l);
      if !CanPop(c, ts) || l.height > |c.stack| || l.opener >= |fn.code| then Stuck
      else
        var stack := c.stack[..l.height] + Top(c.stack, |ts|);
        if fn.code[l.opener].Loop? then
          c.(pc := l.opener + 1, stack := stack, labels := c.labels[..k + 1])
        else
          c.(pc := FindEnd(fn.code, l.opener + 1, 0) + 1, stack := stack, labels := c.labels[..k])
  }

  /** Enters a construct of the given type at `pc`, continuing at `next`. */
  function Enter(c: Config, t: FuncType, next: nat): Config
    requires c.Run?
  {
    if CanPop(c, t.params) then
      c.(pc := next, labels := c.labels + [Label(c.pc, t, |c.stack| - |t.params|)])
    else Stuck
  }

  /** A false `if` with no `else`: its operands pass through as its results. */
  function SkipIf(fn: FunctionDef, c: Config, t: FuncType): Config
    requires c.Run?
  {
    if CanPop(c, t.params) && |t.results| == |t.params| && CanPop(c, t.results) then
      c.(pc := FindEnd(fn.code, c.pc + 1, 0) + 1)
    else Stuck
  }

  /** Leaves the innermost construct with exactly its results above its base. */
  function Leave(c: Config, next: nat): Config
    requires c.Run?
  {
    if c.labels == [] then Stuck
    else
      var l := Last(c.labels);
      if |c.stack| == l.height + |l.ty.results| && CanPop(c, l.ty.results) then
        c.(pc := next, labels := Front(c.labels))
      else Stuck
  }

  function PopTop(c: Config): Config
    requires c.Run? && c.stack != []
  {
    c.(stack := Front(c.stack))
  }

  /** Replaces the top `n` operands by `vs` and moves to the next operator. */
  function Replace(c: Config, n: nat, vs: seq<Value>): (r: Config)
    requires c.Run? && n <= |c.stack|
    ensures r.Run?
  {
    c.(pc := c.pc + 1, stack := Below(c.stack, n) + vs)
  }

  function SelectStep(c: Config, ty: ValueType): Config
    requires c.Run?
  {
    if ty.AnyType? then
      if !CanPop(c, [AnyType, AnyType, I32]) then Stuck
      else
        var args := Top(c.stack, 3);
        if !IsNumeric(args[0].ty) || args[0].ty != args[1].ty then Stuck
        else Replace(c, 3, [if args[2].bits != 0 then args[0] else args[1]])
    else if !CanPop(c, [ty, ty, I32]) then Stuck
    else
      var args := Top(c.stack, 3);
      Replace(c, 3, [if args[2].bits != 0 then args[0] else args[1]])
  }

  function PlainStep(prim: Primitives, c: Config, id: nat, sig: FuncType): Config
    requires c.Run?
  {
    if !CanPop(c, sig.params) then Stuck
    else
      match prim(id, Top(c.stack, |sig.params|), c.world)
      case Results(values, world) => Replace(c, |sig.params|, values).(world := world)
      case Traps(world) => Trapped(world)
  }

  /** One step of a running configuration; the others stay as they are. */
  function Step(fn: FunctionDef, prim: Primitives, c: Config): Config
    requires WellFormed(fn)
  {
    if !c.Run? then c
    else if c.pc >= |fn.code| then Stuck
    else
      match fn.code[c.pc]
      case Block(bt) =>
        (match ResolveBlockType(fn.mod, bt)
         case None => Stuck
         case Some(t) => Enter(c, t, c.pc + 1))
      case Loop(bt) =>
        (match ResolveBlockType(fn.mod, bt)
         case None => Stuck
         case Some(t) => Enter(c, t, c.pc + 1))
      case If(bt) =>
        (match ResolveBlockType(fn.mod, bt)
         case None => Stuck
         case Some(t) =>
           if !CanPop(c, [I32]) then Stuck
           else if Last(c.stack).bits != 0 then Enter(PopTop(c), t, c.pc + 1)
           else
             match FindElse(fn.code, c.pc + 1, 0)
             case Some(e) => Enter(PopTop(c), t, e + 1)
             case None => SkipIf(fn, PopTop(c), t))
      case Else =>
        if c.labels == [] then Stuck
        else Leave(c, FindEnd(fn.code, Last(c.labels).opener + 1, 0) + 1)
      case End =>
        if c.labels != [] then Leave(c, c.pc + 1)
        else if |c.stack| == |Signature(fn).results| then Finish(fn, c)
        else Stuck
      case Br(depth) => BranchTo(fn, c, depth)
      case BrIf(depth) =>
        if !CanPop(c, [I32]) then Stuck
        else if Last(c.stack).bits != 0 then BranchTo(fn, PopTop(c), depth)
        else PopTop(c).(pc := c.pc + 1)
      case BrTable(table, default) =>
        if !CanPop(c, [I32]) then Stuck
        else
          var i, depths := Last(c.stack).bits, fn.branchTables[table];
          BranchTo(fn, PopTop(c), if 0 <= i < |depths| then depths[i] else default)
      case Return => Finish(fn, c)
      case Unreachable => Trapped(c.world)
      case Drop => if CanPop(c, [AnyType]) then Replace(c, 1, []) else Stuck
      case Select(ty) => SelectStep(c, ty)
      case LocalGet(i) => if i < |c.locals| then Replace(c, 0, [c.locals[i]]) else Stuck
      case LocalSet(i) =>
        if i < |c.locals| && i < |LocalTypes(fn)| && CanPop(c, [LocalTypes(fn)[i]]) then
          Replace(c, 1, []).(locals := c.locals[i := Last(c.stack)])
        else Stuck
      case LocalTee(i) =>
        if i < |c.locals| && i < |LocalTypes(fn)| && CanPop(c, [LocalTypes(fn)[i]]) then
          Replace(c, 0, []).(locals := c.locals[i := Last(c.stack)])
        else Stuck
      case Plain(id, sig, _) => PlainStep(prim, c, id, sig)
  }

  function Start(fn: FunctionDef, args: seq<Value>, world: World): Config {
    Run(0, [], args + Zeros(fn.localTypes), [], world)
  }

  /** The configuration after `n` steps. */
  function Steps(fn: FunctionDef, prim: Primitives, c: Config, n: nat): Config
    requires WellFormed(fn)
  {
    if n == 0 then c else Step(fn, prim, Steps(fn, prim, c, n - 1))
  }
}
