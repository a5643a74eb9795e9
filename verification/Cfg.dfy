/** The control flow graph the emitter produces: basic blocks with PHI nodes, and the machine
    that runs it. Locals are memory slots, as the emitter allocates them. */
module Cfg {
  import opened IR
  import opened Wrappers
  import M = StackMachine

  datatype Operand = Reg(r: nat) | ZeroOf(ty: ValueType) | Param(i: nat)

  /** A PHI operand: the value to take when control arrives from block `from`. */
  datatype Incoming = Incoming(val: Operand, from: nat)

  datatype Phi = Phi(ty: ValueType, incoming: seq<Incoming>)

  /** `Compute` defines `count` consecutive registers from `first`. */
  datatype Instr =
    | Compute(first: nat, count: nat, id: nat, args: seq<Operand>)
    | Choose(dst: nat, cond: Operand, ifTrue: Operand, ifFalse: Operand)
    | Load(dst: nat, local: nat)
    | Store(local: nat, val: Operand)
    | TrapCall
    | Jump(target: nat)
    | CondJump(cond: Operand, ifTrueBlock: nat, ifFalseBlock: nat)
    | Switch(index: Operand, default: nat, cases: seq<nat>)
    | NoReturn
    | Ret(vals: seq<Operand>)
  {
    predicate IsTerminator() { Jump? || CondJump? || Switch? || NoReturn? || Ret? }
  }

  datatype BasicBlock = BasicBlock(phis: map<nat, Phi>, code: seq<Instr>)

  type Graph = seq<BasicBlock>

  datatype State =
    | At(block: nat, index: nat, env: map<nat, M.Value>, locals: map<nat, M.Value>, world: M.World)
    | Returned(results: seq<M.Value>, finalWorld: M.World)
    | Trap(trapWorld: M.World)
    | Undefined

  function Eval(env: map<nat, M.Value>, args: seq<M.Value>, v: Operand): Option<M.Value> {
    match v
    case Reg(r) => if r in env then Some(env[r]) else None
    case ZeroOf(ty) => Some(M.Zero(ty))
    case Param(i) => if i < |args| then Some(args[i]) else None
  }

  predicate AllDefined(env: map<nat, M.Value>, args: seq<M.Value>, vs: seq<Operand>) {
    forall i :: 0 <= i < |vs| ==> Eval(env, args, vs[i]).Some?
  }

  function EvalAll(env: map<nat, M.Value>, args: seq<M.Value>, vs: seq<Operand>): (r: seq<M.Value>)
    requires AllDefined(env, args, vs)
    ensures |r| == |vs| && forall i :: 0 <= i < |vs| ==> Some(r[i]) == Eval(env, args, vs[i])
  {
    seq(|vs|, i requires 0 <= i < |vs| && AllDefined(env, args, vs) => Eval(env, args, vs[i]).value)
  }

  /** The first entry for the given predecessor. */
  function LookUp(incoming: seq<Incoming>, from: nat): Option<Operand> {
    if incoming == [] then None
    else if incoming[0].from == from then Some(incoming[0].val)
    else LookUp(incoming[1..], from)
  }

  /** The value a PHI takes on the edge from `from`. */
  function PhiValue(phi: Phi, env: map<nat, M.Value>, args: seq<M.Value>, from: nat): Option<M.Value> {
    var v :- LookUp(phi.incoming, from);
    Eval(env, args, v)
  }

  /** Follows an edge: all PHIs of the target read their operands at once. */
  function Edge(g: Graph, args: seq<M.Value>, m: State, to: nat): State
    requires m.At?
  {
    if to >= |g| then Undefined
    else
      var phis := g[to].phis;
      if forall r :: r in phis ==> PhiValue(phis[r], m.env, args, m.block).Some? then
        m.(block := to, index := 0,
           env := m.env + map r | r in phis :: PhiValue(phis[r], m.env, args, m.block).value)
      else Undefined
  }

  /** Defines consecutive registers from `first` on. */
  function Define(env: map<nat, M.Value>, first: nat, vs: seq<M.Value>): (r: map<nat, M.Value>)
    ensures forall k :: k in r <==> k in env || first <= k < first + |vs|
    ensures forall k :: k in r ==> r[k] == if first <= k < first + |vs| then vs[k - first] else env[k]
  {
    if vs == [] then env else Define(env, first, Front(vs))[first + |vs| - 1 := Last(vs)]
  }

  function Execute(g: Graph, prim: M.Primitives, args: seq<M.Value>, m: State, i: Instr): State
    requires m.At?
  {
    match i
    case Compute(first, count, id, vs) =>
      if !AllDefined(m.env, args, vs) then Undefined
      else
        (match prim(id, EvalAll(m.env, args, vs), m.world)
         case Results(values, w) =>
           if |values| == count then
             m.(index := m.index + 1, env := Define(m.env, first, values), world := w)
           else Undefined
         case Traps(w) => Trap(w))
    case Choose(dst, c, t, f) =>
      if !AllDefined(m.env, args, [c, t, f]) then Undefined
      else
        var vs := EvalAll(m.env, args, [c, t, f]);
        m.(index := m.index + 1, env := Define(m.env, dst, [if vs[0].bits != 0 then vs[1] else vs[2]]))
    case Load(dst, local) =>
      if local in m.locals then m.(index := m.index + 1, env := Define(m.env, dst, [m.locals[local]]))
      else Undefined
    case Store(local, v) =>
      if Eval(m.env, args, v).Some? then
        m.(index := m.index + 1, locals := m.locals[local := Eval(m.env, args, v).value])
      else Undefined
    case TrapCall => Trap(m.world)
    case Jump(to) => Edge(g, args, m, to)
    case CondJump(c, t, f) =>
      if Eval(m.env, args, c).Some? then
        Edge(g, args, m, if Eval(m.env, args, c).value.bits != 0 then t else f)
      else Undefined
    case Switch(i, default, cases) =>
      if Eval(m.env, args, i).Some? then
        var k := Eval(m.env, args, i).value.bits;
        Edge(g, args, m, if 0 <= k < |cases| then cases[k] else default)
      else Undefined
    case NoReturn => Undefined
    case Ret(vs) =>
      if AllDefined(m.env, args, vs) then Returned(EvalAll(m.env, args, vs), m.world) else Undefined
  }

  function Step(g: Graph, prim: M.Primitives, args: seq<M.Value>, m: State): State {
    if !m.At? then m
    else if m.block >= |g| || m.index >= |g[m.block].code| then Undefined
    else Execute(g, prim, args, m, g[m.block].code[m.index])
  }

  function Start(world: M.World): State {
    At(0, 0, map[], map[], world)
  }

  function Steps(g: Graph, prim: M.Primitives, args: seq<M.Value>, m: State, n: nat): State {
    if n == 0 then m else Step(g, prim, args, Steps(g, prim, args, m, n - 1))
  }
}
