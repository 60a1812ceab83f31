/** Vectorisation of scalar expressions, and the private cells of the lanes (src/pass/vectorize_loop.cc). */
module Vectorize {
  import opened Wrappers
  import IntSet

  /** A variable and a bound variable carry their number of lanes. */
  datatype Expr =
    | IntImm(value: int)
    | Var(x: nat, width: nat)
    | Bin(op: IntSet.Op, a: Expr, b: Expr)
    | Select(cond: Expr, t: Expr, f: Expr)
    | Load(buffer: nat, index: Expr)
    | Let(x: nat, width: nat, bound: Expr, body: Expr)
    | Ramp(base: Expr, stride: Expr, width: nat)
    | Broadcast(v: Expr, width: nat)

  type Env = map<nat, seq<int>>
  type Mem = map<(nat, int), int>

  function Lanes(e: Expr): nat {
    match e
    case IntImm(_) => 1
    case Var(_, n) => n
    case Bin(_, a, _) => Lanes(a)
    case Select(_, t, _) => Lanes(t)
    case Load(_, index) => Lanes(index)
    case Let(_, _, _, body) => Lanes(body)
    case Ramp(_, _, n) => n
    case Broadcast(_, n) => n
  }

  /** The operands have the numbers of lanes that the node constructors demand. */
  predicate Typed(e: Expr) {
    match e
    case IntImm(_) => true
    case Var(_, n) => n >= 1
    case Bin(_, a, b) => Typed(a) && Typed(b) && Lanes(a) == Lanes(b)
    case Select(c, t, f) => Typed(c) && Typed(t) && Typed(f) && Lanes(t) == Lanes(f) && Lanes(c) in {1, Lanes(t)}
    case Load(_, index) => Typed(index)
    case Let(_, n, bound, body) => Typed(bound) && Typed(body) && Lanes(bound) == n
    case Ramp(base, stride, n) => Typed(base) && Typed(stride) && Lanes(base) == Lanes(stride) == 1 && n > 1
    case Broadcast(v, n) => Typed(v) && Lanes(v) == 1 && n > 1
  }

  function Value(env: Env, x: nat, k: nat): int {
    if x in env && k < |env[x]| then env[x][k] else 0
  }

  function Cell(mem: Mem, b: nat, k: int): int {
    if (b, k) in mem then mem[(b, k)] else 0
  }

  /** The value of lane k. */
  function Lane(e: Expr, env: Env, mem: Mem, k: nat): int
    decreases e, 0
  {
    match e
    case IntImm(v) => v
    case Var(x, _) => Value(env, x, k)
    case Bin(op, a, b) => IntSet.Apply(op, Lane(a, env, mem, k), Lane(b, env, mem, k))
    case Select(c, t, f) =>
      if Lane(c, env, mem, if Lanes(c) == 1 then 0 else k) != 0 then Lane(t, env, mem, k) else Lane(f, env, mem, k)
    case Load(b, index) => Cell(mem, b, Lane(index, env, mem, k))
    case Let(x, n, bound, body) => Lane(body, BindLanes(x, n, bound, env, mem), mem, k)
    case Ramp(base, stride, _) => Lane(base, env, mem, 0) + k * Lane(stride, env, mem, 0)
    case Broadcast(v, _) => Lane(v, env, mem, 0)
  }

  /** x bound to n lanes of an expression. */
  function BindLanes(x: nat, n: nat, bound: Expr, env: Env, mem: Mem): Env
    decreases bound, 1
  {
    env[x := seq(n, j requires 0 <= j < n => Lane(bound, env, mem, j))]
  }

  /** A scalar expression over the visible variables; bound variables are new. */
  predicate Source(e: Expr, visible: set<nat>) {
    match e
    case IntImm(_) => true
    case Var(x, n) => n == 1 && x in visible
    case Bin(_, a, b) => Source(a, visible) && Source(b, visible)
    case Select(c, t, f) => Source(c, visible) && Source(t, visible) && Source(f, visible)
    case Load(_, index) => Source(index, visible)
    case Let(x, n, bound, body) => n == 1 && x !in visible && Source(bound, visible) && Source(body, visible + {x})
    case _ => false
  }

  predicate NamesBelow(e: Expr, limit: nat) {
    match e
    case Var(x, _) => x < limit
    case Bin(_, a, b) => NamesBelow(a, limit) && NamesBelow(b, limit)
    case Select(c, t, f) => NamesBelow(c, limit) && NamesBelow(t, limit) && NamesBelow(f, limit)
    case Load(_, index) => NamesBelow(index, limit)
    case Let(x, _, bound, body) => x < limit && NamesBelow(bound, limit) && NamesBelow(body, limit)
    case Ramp(base, stride, _) => NamesBelow(base, limit) && NamesBelow(stride, limit)
    case Broadcast(v, _) => NamesBelow(v, limit)
    case _ => true
  }

  // ----- what a vectorised expression must be -----

  /** The loop variable that is vectorised, and its extent. */
  datatype Loop = Loop(v: nat, lanes: nat)

  /** The scalar environment of iteration i and the vector environment: a variable that became a vector has its value in lane i. */
  ghost predicate Related(lets: map<nat, nat>, visible: set<nat>, loop: Loop, i: nat, env: Env, env1: Env) {
    && Value(env, loop.v, 0) == i
    && forall x <- visible | x != loop.v :: Value(env, x, 0) == if x in lets then Value(env1, lets[x], i) else Value(env1, x, 0)
  }

  /** r is a scalar that equals e in every iteration, or a vector whose lane i is e in iteration i. */
  ghost predicate LaneRight(e: Expr, r: Expr, lets: map<nat, nat>, visible: set<nat>, loop: Loop) {
    && Typed(r) && Lanes(r) in {1, loop.lanes}
    && forall i: nat, env: Env, env1: Env, mem: Mem | i < loop.lanes && Related(lets, visible, loop, i, env, env1) ::
         LaneOf(r, env1, mem, i) == Lane(e, env, mem, 0)
  }

  /** Lane i, or the only value of a scalar. */
  function LaneOf(r: Expr, env: Env, mem: Mem, i: nat): int {
    Lane(r, env, mem, if Lanes(r) == 1 then 0 else i)
  }

  /** LaneRight only depends on the visible variables. */
  lemma {:induction false} SameLets(e: Expr, r: Expr, lets: map<nat, nat>, lets1: map<nat, nat>, visible: set<nat>, loop: Loop)
    requires LaneRight(e, r, lets, visible, loop)
    requires forall x <- visible :: (x in lets <==> x in lets1) && (x in lets ==> lets[x] == lets1[x])
    ensures LaneRight(e, r, lets1, visible, loop)
  {
    forall i: nat, env: Env, env1: Env, mem: Mem | i < loop.lanes && Related(lets1, visible, loop, i, env, env1)
      ensures LaneOf(r, env1, mem, i) == Lane(e, env, mem, 0)
    {
      assert Related(lets, visible, loop, i, env, env1);
    }
  }

  // ----- the building blocks -----

  function Max(a: nat, b: nat): nat {
    if a >= b then a else b
  }

  /** Fails for a vector of another width, unless it repeats one value. */
  function BroadcastTo(e: Expr, lanes: nat): (r: Option<Expr>)
    ensures r.Some? && Typed(e) && lanes > 1 ==> Typed(r.value) && Lanes(r.value) == lanes
    ensures Lanes(e) in {1, lanes} ==> r.Some?
  {
    if Lanes(e) == lanes then Some(e)
    else if e.Broadcast? && e.width > 0 && lanes % e.width == 0 then Some(Broadcast(e.v, lanes))
    else if Lanes(e) == 1 then Some(Broadcast(e, lanes))
    else None
  }

  function ComputeAdd(a: Expr, b: Expr): Expr {
    if a == IntImm(0) then b
    else if b == IntImm(0) then a
    else if a.IntImm? && b.IntImm? then IntImm(a.value + b.value)
    else Bin(IntSet.Add, a, b)
  }

  function ComputeSub(a: Expr, b: Expr): Expr {
    if b == IntImm(0) then a
    else if a.IntImm? && b.IntImm? then IntImm(a.value - b.value)
    else Bin(IntSet.Sub, a, b)
  }

  function ComputeAddSub(op: IntSet.Op, a: Expr, b: Expr): Expr {
    if op == IntSet.Add then ComputeAdd(a, b) else ComputeSub(a, b)
  }

  lemma {:induction false} BroadcastRight(e: Expr, lanes: nat, env: Env, mem: Mem, i: nat)
    requires Typed(e) && Lanes(e) in {1, lanes} && lanes >= 1
    ensures Typed(BroadcastTo(e, lanes).value) && Lanes(BroadcastTo(e, lanes).value) == lanes
    ensures LaneOf(BroadcastTo(e, lanes).value, env, mem, i) == LaneOf(e, env, mem, i)
  {
  }

  lemma {:induction false} ComputeAddSubRight(op: IntSet.Op, a: Expr, b: Expr, env: Env, mem: Mem)
    requires op in {IntSet.Add, IntSet.Sub} && Typed(a) && Typed(b) && Lanes(a) == Lanes(b) == 1
    ensures var r := ComputeAddSub(op, a, b);
      Typed(r) && Lanes(r) == 1 && Lane(r, env, mem, 0) == IntSet.Apply(op, Lane(a, env, mem, 0), Lane(b, env, mem, 0))
  {
  }

  /** Broadcasting the operands of an operator to the wider of them. */
  lemma {:induction false} BinRight(op: IntSet.Op, a: Expr, b: Expr, a1: Expr, b1: Expr, lets: map<nat, nat>, visible: set<nat>, loop: Loop)
    requires loop.lanes > 1 && LaneRight(a, a1, lets, visible, loop) && LaneRight(b, b1, lets, visible, loop)
    ensures var lanes := Max(Lanes(a1), Lanes(b1));
      && BroadcastTo(a1, lanes).Some? && BroadcastTo(b1, lanes).Some?
      && LaneRight(Bin(op, a, b), Bin(op, BroadcastTo(a1, lanes).value, BroadcastTo(b1, lanes).value), lets, visible, loop)
  {
    hide IntSet.Apply, Related, Lane, LaneOf, BroadcastTo;
    var lanes := Max(Lanes(a1), Lanes(b1));
    BinLane(op, a1, b1, lanes, map[], map[], 0);
    var r := Bin(op, BroadcastTo(a1, lanes).value, BroadcastTo(b1, lanes).value);
    assert Typed(r) && Lanes(r) == lanes;
    forall i: nat, env: Env, env1: Env, mem: Mem | i < loop.lanes && Related(lets, visible, loop, i, env, env1)
      ensures LaneOf(r, env1, mem, i) == Lane(Bin(op, a, b), env, mem, 0)
    {
      BinAt(op, a, b, a1, b1, lets, visible, loop, i, env, env1, mem);
    }
  }

  lemma {:induction false} BinAt(op: IntSet.Op, a: Expr, b: Expr, a1: Expr, b1: Expr, lets: map<nat, nat>, visible: set<nat>, loop: Loop,
                                 i: nat, env: Env, env1: Env, mem: Mem)
    requires loop.lanes > 1 && LaneRight(a, a1, lets, visible, loop) && LaneRight(b, b1, lets, visible, loop)
    requires i < loop.lanes && Related(lets, visible, loop, i, env, env1)
    ensures var lanes := Max(Lanes(a1), Lanes(b1));
      && BroadcastTo(a1, lanes).Some? && BroadcastTo(b1, lanes).Some?
      && LaneOf(Bin(op, BroadcastTo(a1, lanes).value, BroadcastTo(b1, lanes).value), env1, mem, i) == Lane(Bin(op, a, b), env, mem, 0)
  {
    hide IntSet.Apply, Related, Lane, LaneOf, BroadcastTo, Typed;
    BinLane(op, a1, b1, Max(Lanes(a1), Lanes(b1)), env1, mem, i);
    BinScalar(op, a, b, env, mem);
  }

  lemma {:induction false} BinLane(op: IntSet.Op, a1: Expr, b1: Expr, lanes: nat, env: Env, mem: Mem, i: nat)
    requires Typed(a1) && Typed(b1) && Lanes(a1) in {1, lanes} && Lanes(b1) in {1, lanes} && lanes >= 1
    ensures var r := Bin(op, BroadcastTo(a1, lanes).value, BroadcastTo(b1, lanes).value);
      && Typed(r) && Lanes(r) == lanes && LaneOf(r, env, mem, i) == IntSet.Apply(op, LaneOf(a1, env, mem, i), LaneOf(b1, env, mem, i))
  {
    hide IntSet.Apply;
    BroadcastRight(a1, lanes, env, mem, i);
    BroadcastRight(b1, lanes, env, mem, i);
  }

  lemma {:induction false} BinScalar(op: IntSet.Op, a: Expr, b: Expr, env: Env, mem: Mem)
    ensures Lane(Bin(op, a, b), env, mem, 0) == IntSet.Apply(op, Lane(a, env, mem, 0), Lane(b, env, mem, 0))
  {
  }

  /** A scalar added to a ramp, or a ramp subtracted from a scalar, is a ramp. */
  lemma {:induction false} ScalarRampRight(op: IntSet.Op, a: Expr, b: Expr, a1: Expr, b1: Expr, lets: map<nat, nat>, visible: set<nat>, loop: Loop)
    requires op in {IntSet.Add, IntSet.Sub} && b1.Ramp? && Lanes(a1) == 1
    requires LaneRight(a, a1, lets, visible, loop) && LaneRight(b, b1, lets, visible, loop)
    ensures LaneRight(Bin(op, a, b), Ramp(ComputeAddSub(op, a1, b1.base), ComputeAddSub(op, IntImm(0), b1.stride), b1.width), lets, visible, loop)
  {
    hide Related, Lane, LaneOf, IntSet.Apply, ComputeAddSub;
    var r := Ramp(ComputeAddSub(op, a1, b1.base), ComputeAddSub(op, IntImm(0), b1.stride), b1.width);
    ComputeAddSubRight(op, a1, b1.base, map[], map[]);
    ComputeAddSubRight(op, IntImm(0), b1.stride, map[], map[]);
    forall i: nat, env: Env, env1: Env, mem: Mem | i < loop.lanes && Related(lets, visible, loop, i, env, env1)
      ensures LaneOf(r, env1, mem, i) == Lane(Bin(op, a, b), env, mem, 0)
    {
      ScalarRampLane(op, a1, b1, env1, mem, i);
      BinScalar(op, a, b, env, mem);
    }
  }

  lemma {:induction false} ScalarRampLane(op: IntSet.Op, a1: Expr, b1: Expr, env: Env, mem: Mem, i: nat)
    requires op in {IntSet.Add, IntSet.Sub} && b1.Ramp? && Typed(a1) && Typed(b1) && Lanes(a1) == 1
    ensures LaneOf(Ramp(ComputeAddSub(op, a1, b1.base), ComputeAddSub(op, IntImm(0), b1.stride), b1.width), env, mem, i) ==
            IntSet.Apply(op, LaneOf(a1, env, mem, i), LaneOf(b1, env, mem, i))
  {
    hide ComputeAddSub;
    ComputeAddSubRight(op, a1, b1.base, env, mem);
    ComputeAddSubRight(op, IntImm(0), b1.stride, env, mem);
  }

  /** A scalar added to a ramp or subtracted from it moves its base. */
  lemma {:induction false} RampScalarRight(op: IntSet.Op, a: Expr, b: Expr, a1: Expr, b1: Expr, lets: map<nat, nat>, visible: set<nat>, loop: Loop)
    requires op in {IntSet.Add, IntSet.Sub} && a1.Ramp? && Lanes(b1) == 1
    requires LaneRight(a, a1, lets, visible, loop) && LaneRight(b, b1, lets, visible, loop)
    ensures LaneRight(Bin(op, a, b), Ramp(ComputeAddSub(op, a1.base, b1), a1.stride, a1.width), lets, visible, loop)
  {
    hide Related, Lane, LaneOf, IntSet.Apply, ComputeAddSub;
    var r := Ramp(ComputeAddSub(op, a1.base, b1), a1.stride, a1.width);
    ComputeAddSubRight(op, a1.base, b1, map[], map[]);
    forall i: nat, env: Env, env1: Env, mem: Mem | i < loop.lanes && Related(lets, visible, loop, i, env, env1)
      ensures LaneOf(r, env1, mem, i) == Lane(Bin(op, a, b), env, mem, 0)
    {
      RampScalarLane(op, a1, b1, env1, mem, i);
      BinScalar(op, a, b, env, mem);
    }
  }

  lemma {:induction false} RampScalarLane(op: IntSet.Op, a1: Expr, b1: Expr, env: Env, mem: Mem, i: nat)
    requires op in {IntSet.Add, IntSet.Sub} && a1.Ramp? && Typed(a1) && Typed(b1) && Lanes(b1) == 1
    ensures LaneOf(Ramp(ComputeAddSub(op, a1.base, b1), a1.stride, a1.width), env, mem, i) ==
            IntSet.Apply(op, LaneOf(a1, env, mem, i), LaneOf(b1, env, mem, i))
  {
    hide ComputeAddSub;
    ComputeAddSubRight(op, a1.base, b1, env, mem);
  }

  lemma {:induction false} ScaleRamp(base: int, stride: int, i: nat, m: int)
    ensures (base + i * stride) * m == base * m + i * (stride * m)
  {
  }

  /** A ramp times a scalar is a ramp. */
  lemma {:induction false} MulRampRight(a: Expr, b: Expr, a1: Expr, b1: Expr, swapped: bool, lets: map<nat, nat>, visible: set<nat>, loop: Loop)
    requires a1.Ramp? && Lanes(b1) == 1 && LaneRight(a, a1, lets, visible, loop) && LaneRight(b, b1, lets, visible, loop)
    ensures LaneRight(if swapped then Bin(IntSet.Mul, b, a) else Bin(IntSet.Mul, a, b),
                      Ramp(Bin(IntSet.Mul, a1.base, b1), Bin(IntSet.Mul, a1.stride, b1), a1.width), lets, visible, loop)
  {
    hide Related, Lane, LaneOf, IntSet.Apply;
    var e := if swapped then Bin(IntSet.Mul, b, a) else Bin(IntSet.Mul, a, b);
    var r := Ramp(Bin(IntSet.Mul, a1.base, b1), Bin(IntSet.Mul, a1.stride, b1), a1.width);
    assert Typed(Bin(IntSet.Mul, a1.base, b1)) && Typed(Bin(IntSet.Mul, a1.stride, b1));
    forall i: nat, env: Env, env1: Env, mem: Mem | i < loop.lanes && Related(lets, visible, loop, i, env, env1)
      ensures LaneOf(r, env1, mem, i) == Lane(e, env, mem, 0)
    {
      MulRampLane(a1, b1, env1, mem, i);
      BinScalar(IntSet.Mul, a, b, env, mem);
      BinScalar(IntSet.Mul, b, a, env, mem);
      MulApply(Lane(a, env, mem, 0), Lane(b, env, mem, 0));
    }
  }

  lemma {:induction false} MulApply(x: int, y: int)
    ensures IntSet.Apply(IntSet.Mul, x, y) == x * y == IntSet.Apply(IntSet.Mul, y, x)
  {
  }

  lemma {:induction false} MulRampLane(a1: Expr, b1: Expr, env: Env, mem: Mem, i: nat)
    requires a1.Ramp? && Typed(a1) && Typed(b1) && Lanes(b1) == 1
    ensures LaneOf(Ramp(Bin(IntSet.Mul, a1.base, b1), Bin(IntSet.Mul, a1.stride, b1), a1.width), env, mem, i) ==
            LaneOf(a1, env, mem, i) * LaneOf(b1, env, mem, i)
  {
    assert Lane(Bin(IntSet.Mul, a1.base, b1), env, mem, 0) == Lane(a1.base, env, mem, 0) * Lane(b1, env, mem, 0);
    assert Lane(Bin(IntSet.Mul, a1.stride, b1), env, mem, 0) == Lane(a1.stride, env, mem, 0) * Lane(b1, env, mem, 0);
    ScaleRamp(Lane(a1.base, env, mem, 0), Lane(a1.stride, env, mem, 0), i, Lane(b1, env, mem, 0));
  }

  lemma {:induction false} SelectRight(e: Expr, c1: Expr, t1: Expr, f1: Expr, lets: map<nat, nat>, visible: set<nat>, loop: Loop)
    requires e.Select? && loop.lanes > 1
    requires LaneRight(e.cond, c1, lets, visible, loop) && LaneRight(e.t, t1, lets, visible, loop) && LaneRight(e.f, f1, lets, visible, loop)
    ensures var lanes := Max(Max(Lanes(c1), Lanes(t1)), Lanes(f1));
      && BroadcastTo(t1, lanes).Some? && BroadcastTo(f1, lanes).Some?
      && LaneRight(e, Select(c1, BroadcastTo(t1, lanes).value, BroadcastTo(f1, lanes).value), lets, visible, loop)
  {
    hide Related, Lane, LaneOf;
    var lanes := Max(Max(Lanes(c1), Lanes(t1)), Lanes(f1));
    var r := Select(c1, BroadcastTo(t1, lanes).value, BroadcastTo(f1, lanes).value);
    SelectLane(c1, t1, f1, lanes, map[], map[], 0);
    forall i: nat, env: Env, env1: Env, mem: Mem | i < loop.lanes && Related(lets, visible, loop, i, env, env1)
      ensures LaneOf(r, env1, mem, i) == Lane(e, env, mem, 0)
    {
      SelectLane(c1, t1, f1, lanes, env1, mem, i);
      SelectScalar(e, env, mem);
    }
  }

  lemma {:induction false} SelectLane(c1: Expr, t1: Expr, f1: Expr, lanes: nat, env: Env, mem: Mem, i: nat)
    requires Typed(c1) && Typed(t1) && Typed(f1) && lanes >= 1
    requires Lanes(c1) in {1, lanes} && Lanes(t1) in {1, lanes} && Lanes(f1) in {1, lanes}
    ensures var r := Select(c1, BroadcastTo(t1, lanes).value, BroadcastTo(f1, lanes).value);
      && Typed(r) && Lanes(r) == lanes
      && LaneOf(r, env, mem, i) == if LaneOf(c1, env, mem, i) != 0 then LaneOf(t1, env, mem, i) else LaneOf(f1, env, mem, i)
  {
    BroadcastRight(t1, lanes, env, mem, i);
    BroadcastRight(f1, lanes, env, mem, i);
  }

  lemma {:induction false} SelectScalar(e: Expr, env: Env, mem: Mem)
    requires e.Select?
    ensures Lane(e, env, mem, 0) == if Lane(e.cond, env, mem, 0) != 0 then Lane(e.t, env, mem, 0) else Lane(e.f, env, mem, 0)
  {
  }

  lemma {:induction false} LoadRight(e: Expr, index1: Expr, lets: map<nat, nat>, visible: set<nat>, loop: Loop)
    requires e.Load? && LaneRight(e.index, index1, lets, visible, loop)
    ensures LaneRight(e, Load(e.buffer, index1), lets, visible, loop)
  {
    hide Related;
    forall i: nat, env: Env, env1: Env, mem: Mem | i < loop.lanes && Related(lets, visible, loop, i, env, env1)
      ensures LaneOf(Load(e.buffer, index1), env1, mem, i) == Lane(e, env, mem, 0)
    {
      assert LaneOf(index1, env1, mem, i) == Lane(e.index, env, mem, 0);
    }
  }

  lemma {:induction false} LoopVarRight(e: Expr, lets: map<nat, nat>, visible: set<nat>, loop: Loop)
    requires e == Var(loop.v, 1) && loop.lanes > 1
    ensures LaneRight(e, Ramp(IntImm(0), IntImm(1), loop.lanes), lets, visible, loop)
  {
    var r := Ramp(IntImm(0), IntImm(1), loop.lanes);
    forall i: nat, env: Env, env1: Env, mem: Mem | i < loop.lanes && Related(lets, visible, loop, i, env, env1)
      ensures LaneOf(r, env1, mem, i) == Lane(e, env, mem, 0)
    {
      assert Lane(r.base, env1, mem, 0) == 0 && Lane(r.stride, env1, mem, 0) == 1;
      assert Lane(r, env1, mem, i) == 0 + i * 1 && Lanes(r) != 1;
      assert Lane(e, env, mem, 0) == Value(env, loop.v, 0);
    }
  }

  lemma {:induction false} VarRight(e: Expr, lets: map<nat, nat>, visible: set<nat>, loop: Loop)
    requires e.Var? && Source(e, visible) && e.x != loop.v && loop.lanes > 1
    ensures LaneRight(e, if e.x in lets then Var(lets[e.x], loop.lanes) else e, lets, visible, loop)
  {
  }

  /** Let variables get new names, from limit on, each its own. */
  ghost predicate NewNames(lets: map<nat, nat>, limit: nat, next: nat) {
    limit <= next && forall x <- lets :: limit <= lets[x] < next
  }

  /** A vector value is bound to a new variable. */
  lemma {:induction false} LetVectorRight(e: Expr, bound1: Expr, body1: Expr, y: nat, lets: map<nat, nat>, visible: set<nat>, loop: Loop, limit: nat)
    requires e.Let? && Source(e, visible) && loop.lanes > 1 && loop.v in visible && e.x !in lets
    requires (forall x <- visible :: x < limit) && NewNames(lets, limit, y)
    requires LaneRight(e.bound, bound1, lets, visible, loop) && Lanes(bound1) == loop.lanes
    requires LaneRight(e.body, body1, lets[e.x := y], visible + {e.x}, loop)
    ensures LaneRight(e, Let(y, loop.lanes, bound1, body1), lets, visible, loop)
  {
    var r := Let(y, loop.lanes, bound1, body1);
    forall i: nat, env: Env, env1: Env, mem: Mem | i < loop.lanes && Related(lets, visible, loop, i, env, env1)
      ensures LaneOf(r, env1, mem, i) == Lane(e, env, mem, 0)
    {
      assert LaneOf(bound1, env1, mem, i) == Lane(e.bound, env, mem, 0);
      assert Lane(e, env, mem, 0) == Lane(e.body, BindLanes(e.x, e.width, e.bound, env, mem), mem, 0);
      assert e.width == 1 && LaneOf(r, env1, mem, i) == LaneOf(body1, BindLanes(y, loop.lanes, bound1, env1, mem), mem, i);
      assert LaneOf(body1, BindLanes(y, loop.lanes, bound1, env1, mem), mem, i) == Lane(e.body, BindLanes(e.x, 1, e.bound, env, mem), mem, 0);
    }
  }

  /** A scalar value keeps its variable. */
  lemma {:induction false} LetScalarRight(e: Expr, bound1: Expr, body1: Expr, lets: map<nat, nat>, visible: set<nat>, loop: Loop, limit: nat, next: nat)
    requires e.Let? && Source(e, visible) && loop.lanes > 1 && loop.v in visible && e.x !in lets && e.x < limit
    requires NewNames(lets, limit, next)
    requires LaneRight(e.bound, bound1, lets, visible, loop) && Lanes(bound1) == 1
    requires LaneRight(e.body, body1, lets, visible + {e.x}, loop)
    ensures LaneRight(e, Let(e.x, 1, bound1, body1), lets, visible, loop)
  {
    var r := Let(e.x, 1, bound1, body1);
    forall i: nat, env: Env, env1: Env, mem: Mem | i < loop.lanes && Related(lets, visible, loop, i, env, env1)
      ensures LaneOf(r, env1, mem, i) == Lane(e, env, mem, 0)
    {
      assert LaneOf(bound1, env1, mem, i) == Lane(e.bound, env, mem, 0);
      var envB, env1B := BindLanes(e.x, 1, e.bound, env, mem), BindLanes(e.x, 1, bound1, env1, mem);
      assert Related(lets, visible + {e.x}, loop, i, envB, env1B);
      assert LaneOf(body1, env1B, mem, i) == Lane(e.body, envB, mem, 0);
    }
  }

  // ----- the vectoriser -----

  /** The operator that is not overridden: its operands are not broadcast. */
  predicate Overridden(op: IntSet.Op) {
    op != IntSet.LE
  }

  predicate NoUnsupported(e: Expr) {
    match e
    case Bin(op, a, b) => Overridden(op) && NoUnsupported(a) && NoUnsupported(b)
    case Select(c, t, f) => NoUnsupported(c) && NoUnsupported(t) && NoUnsupported(f)
    case Load(_, index) => NoUnsupported(index)
    case Let(_, _, bound, body) => NoUnsupported(bound) && NoUnsupported(body)
    case _ => true
  }

  function Binders(e: Expr): set<nat> {
    match e
    case Bin(_, a, b) => Binders(a) + Binders(b)
    case Select(c, t, f) => Binders(c) + Binders(t) + Binders(f)
    case Load(_, index) => Binders(index)
    case Let(x, _, bound, body) => {x} + Binders(bound) + Binders(body)
    case _ => {}
  }

  /** No variable is bound twice. */
  predicate Unique(e: Expr) {
    match e
    case Bin(_, a, b) => Unique(a) && Unique(b) && Binders(a) !! Binders(b)
    case Select(c, t, f) => Unique(c) && Unique(t) && Unique(f) && Binders(c) !! Binders(t) && (Binders(c) + Binders(t)) !! Binders(f)
    case Load(_, index) => Unique(index)
    case Let(x, _, bound, body) => Unique(bound) && Unique(body) && x !in Binders(bound) + Binders(body) && Binders(bound) !! Binders(body)
    case _ => true
  }

  lemma {:induction false} BindersNew(e: Expr, visible: set<nat>)
    requires Source(e, visible)
    ensures Binders(e) !! visible
  {
    match e
    case Bin(_, a, b) =>
      BindersNew(a, visible);
      BindersNew(b, visible);
    case Select(c, t, f) =>
      BindersNew(c, visible);
      BindersNew(t, visible);
      BindersNew(f, visible);
    case Load(_, index) => BindersNew(index, visible);
    case Let(x, _, bound, body) =>
      BindersNew(bound, visible);
      BindersNew(body, visible + {x});
    case _ =>
  }

  lemma {:induction false} SourceLanes(e: Expr, visible: set<nat>)
    requires Source(e, visible)
    ensures Lanes(e) == 1
  {
    match e
    case Bin(_, a, _) => SourceLanes(a, visible);
    case Select(_, t, _) => SourceLanes(t, visible);
    case Load(_, index) => SourceLanes(index, visible);
    case Let(x, _, _, body) => SourceLanes(body, visible + {x});
    case _ =>
  }

  /** Both operands broadcast to the wider one. */
  function BinaryVec(op: IntSet.Op, a: Expr, b: Expr, a1: Expr, b1: Expr): Option<Expr> {
    if a1 == a && b1 == b then Some(Bin(op, a, b))
    else
      var lanes := Max(Lanes(a1), Lanes(b1));
      var a2, b2 := BroadcastTo(a1, lanes), BroadcastTo(b1, lanes);
      if a2.Some? && b2.Some? then Some(Bin(op, a2.value, b2.value)) else None
  }

  function AddSubVec(op: IntSet.Op, a: Expr, b: Expr, a1: Expr, b1: Expr): Option<Expr> {
    if a1 == a && b1 == b then Some(Bin(op, a, b))
    else if Max(Lanes(a1), Lanes(b1)) != 1 && Lanes(a1) == 1 && b1.Ramp? then
      Some(Ramp(ComputeAddSub(op, a1, b1.base), ComputeAddSub(op, IntImm(0), b1.stride), b1.width))
    else if Max(Lanes(a1), Lanes(b1)) != 1 && Lanes(b1) == 1 && a1.Ramp? then
      Some(Ramp(ComputeAddSub(op, a1.base, b1), a1.stride, a1.width))
    else BinaryVec(op, a, b, a1, b1)
  }

  function MulVec(a: Expr, b: Expr, a1: Expr, b1: Expr, canProvePositive: Expr -> bool): Option<Expr> {
    if a1 == a && b1 == b then Some(Bin(IntSet.Mul, a, b))
    else if Max(Lanes(a1), Lanes(b1)) != 1 && a1.Ramp? && Lanes(b1) == 1 && canProvePositive(b1) then
      Some(Ramp(Bin(IntSet.Mul, a1.base, b1), Bin(IntSet.Mul, a1.stride, b1), a1.width))
    else if Max(Lanes(a1), Lanes(b1)) != 1 && b1.Ramp? && Lanes(a1) == 1 && canProvePositive(a1) then
      Some(Ramp(Bin(IntSet.Mul, b1.base, a1), Bin(IntSet.Mul, b1.stride, a1), b1.width))
    else BinaryVec(IntSet.Mul, a, b, a1, b1)
  }

  /** The operator over vectorised operands. The one that is not overridden needs operands of the same width. */
  function Combine(op: IntSet.Op, a: Expr, b: Expr, a1: Expr, b1: Expr, canProvePositive: Expr -> bool): Option<Expr> {
    if op in {IntSet.Add, IntSet.Sub} then AddSubVec(op, a, b, a1, b1)
    else if op == IntSet.Mul then MulVec(a, b, a1, b1, canProvePositive)
    else if !Overridden(op) then if Lanes(a1) == Lanes(b1) then Some(Bin(op, a1, b1)) else None
    else BinaryVec(op, a, b, a1, b1)
  }

  lemma {:induction false} BinaryVecRight(op: IntSet.Op, a: Expr, b: Expr, a1: Expr, b1: Expr, lets: map<nat, nat>, visible: set<nat>, loop: Loop)
    requires loop.lanes > 1 && Source(a, visible) && Source(b, visible)
    requires LaneRight(a, a1, lets, visible, loop) && LaneRight(b, b1, lets, visible, loop)
    ensures BinaryVec(op, a, b, a1, b1).Some? && LaneRight(Bin(op, a, b), BinaryVec(op, a, b, a1, b1).value, lets, visible, loop)
    ensures Lanes(a1) == Lanes(b1) ==> LaneRight(Bin(op, a, b), Bin(op, a1, b1), lets, visible, loop)
  {
    hide LaneRight;
    SourceLanes(a, visible);
    SourceLanes(b, visible);
    BinRight(op, a, b, a1, b1, lets, visible, loop);
  }

  /** Every shortcut keeps the lanes. */
  lemma {:induction false} CombineRight(op: IntSet.Op, a: Expr, b: Expr, a1: Expr, b1: Expr, canProvePositive: Expr -> bool,
                                        lets: map<nat, nat>, visible: set<nat>, loop: Loop)
    requires loop.lanes > 1 && Source(a, visible) && Source(b, visible)
    requires LaneRight(a, a1, lets, visible, loop) && LaneRight(b, b1, lets, visible, loop)
    ensures var r := Combine(op, a, b, a1, b1, canProvePositive);
      (r.Some? ==> LaneRight(Bin(op, a, b), r.value, lets, visible, loop)) && (Overridden(op) ==> r.Some?)
  {
    hide LaneRight, BinaryVec, ComputeAddSub, Source;
    BinaryVecRight(op, a, b, a1, b1, lets, visible, loop);
    BinaryVecRight(IntSet.Mul, a, b, a1, b1, lets, visible, loop);
    assert a1 == a && b1 == b ==> LaneRight(Bin(op, a, b), Bin(op, a, b), lets, visible, loop) by {
      SourceLanes(a, visible);
      SourceLanes(b, visible);
    }
    if op in {IntSet.Add, IntSet.Sub} {
      if Lanes(a1) == 1 && b1.Ramp? {
        ScalarRampRight(op, a, b, a1, b1, lets, visible, loop);
      }
      if Lanes(b1) == 1 && a1.Ramp? {
        RampScalarRight(op, a, b, a1, b1, lets, visible, loop);
      }
    } else if op == IntSet.Mul {
      if a1.Ramp? && Lanes(b1) == 1 {
        MulRampRight(a, b, a1, b1, false, lets, visible, loop);
      }
      if b1.Ramp? && Lanes(a1) == 1 {
        MulRampRight(b, a, b1, a1, true, lets, visible, loop);
      }
    }
  }

  function SelectVec(e: Expr, c1: Expr, t1: Expr, f1: Expr): Option<Expr>
    requires e.Select?
  {
    if c1 == e.cond && t1 == e.t && f1 == e.f then Some(e)
    else
      var lanes := Max(Max(Lanes(c1), Lanes(t1)), Lanes(f1));
      var t2, f2 := BroadcastTo(t1, lanes), BroadcastTo(f1, lanes);
      if t2.Some? && f2.Some? then Some(Select(c1, t2.value, f2.value)) else None
  }

  lemma {:induction false} SelectVecRight(e: Expr, c1: Expr, t1: Expr, f1: Expr, lets: map<nat, nat>, visible: set<nat>, loop: Loop)
    requires e.Select? && loop.lanes > 1 && Source(e, visible)
    requires LaneRight(e.cond, c1, lets, visible, loop) && LaneRight(e.t, t1, lets, visible, loop) && LaneRight(e.f, f1, lets, visible, loop)
    ensures SelectVec(e, c1, t1, f1).Some? && LaneRight(e, SelectVec(e, c1, t1, f1).value, lets, visible, loop)
  {
    hide LaneRight;
    SourceLanes(e.cond, visible);
    SourceLanes(e.t, visible);
    SourceLanes(e.f, visible);
    SelectRight(e, c1, t1, f1, lets, visible, loop);
  }

  // ----- which expressions stay scalar, and which become ramps -----

  /** e is the same in all iterations: none of its variables is a vector. */
  predicate Uniform(e: Expr, lets: map<nat, nat>, loop: Loop) {
    match e
    case IntImm(_) => true
    case Var(x, _) => x != loop.v && x !in lets
    case Bin(_, a, b) => Uniform(a, lets, loop) && Uniform(b, lets, loop)
    case Select(c, t, f) => Uniform(c, lets, loop) && Uniform(t, lets, loop) && Uniform(f, lets, loop)
    case Load(_, index) => Uniform(index, lets, loop)
    case _ => false
  }

  /** e is the loop variable, multiplied with positive uniform factors, with uniform summands. */
  predicate Affine(e: Expr, lets: map<nat, nat>, loop: Loop, canProvePositive: Expr -> bool) {
    match e
    case Var(x, _) => x == loop.v
    case Bin(op, a, b) =>
      op in {IntSet.Add, IntSet.Sub, IntSet.Mul} && (
        || (Affine(a, lets, loop, canProvePositive) && Uniform(b, lets, loop) && (op == IntSet.Mul ==> canProvePositive(b)))
        || (Uniform(a, lets, loop) && Affine(b, lets, loop, canProvePositive) && (op == IntSet.Mul ==> canProvePositive(a))))
    case _ => false
  }

  predicate IsRamp(r: Expr, lanes: nat) {
    r.Ramp? && r.width == lanes
  }

  /** Uniform expressions stay as they are, affine ones become ramps, and loads from them loads of ramps. */
  predicate Shaped(e: Expr, r: Expr, lets: map<nat, nat>, loop: Loop, canProvePositive: Expr -> bool) {
    && (Uniform(e, lets, loop) ==> r == e)
    && (Affine(e, lets, loop, canProvePositive) ==> IsRamp(r, loop.lanes))
    && (e.Load? && Affine(e.index, lets, loop, canProvePositive) ==> r.Load? && r.buffer == e.buffer && IsRamp(r.index, loop.lanes))
  }

  lemma {:induction false} UniformSame(e: Expr, lets: map<nat, nat>, lets1: map<nat, nat>, visible: set<nat>, loop: Loop, canProvePositive: Expr -> bool)
    requires Source(e, visible) && forall x <- visible :: x in lets <==> x in lets1
    ensures Uniform(e, lets, loop) == Uniform(e, lets1, loop)
    ensures Affine(e, lets, loop, canProvePositive) == Affine(e, lets1, loop, canProvePositive)
  {
    match e
    case Bin(_, a, b) =>
      UniformSame(a, lets, lets1, visible, loop, canProvePositive);
      UniformSame(b, lets, lets1, visible, loop, canProvePositive);
    case Select(c, t, f) =>
      UniformSame(c, lets, lets1, visible, loop, canProvePositive);
      UniformSame(t, lets, lets1, visible, loop, canProvePositive);
      UniformSame(f, lets, lets1, visible, loop, canProvePositive);
    case Load(_, index) => UniformSame(index, lets, lets1, visible, loop, canProvePositive);
    case _ =>
  }

  lemma {:induction false} SameShape(e: Expr, r: Expr, lets: map<nat, nat>, lets1: map<nat, nat>, visible: set<nat>, loop: Loop,
                                     canProvePositive: Expr -> bool)
    requires Shaped(e, r, lets, loop, canProvePositive)
    requires Source(e, visible) && forall x <- visible :: x in lets <==> x in lets1
    ensures Shaped(e, r, lets1, loop, canProvePositive)
  {
    UniformSame(e, lets, lets1, visible, loop, canProvePositive);
    if e.Load? {
      UniformSame(e.index, lets, lets1, visible, loop, canProvePositive);
    }
  }

  lemma {:induction false} NotRamp(e: Expr, visible: set<nat>)
    requires Source(e, visible)
    ensures !e.Ramp?
  {
  }

  lemma {:induction false} CombineShaped(op: IntSet.Op, a: Expr, b: Expr, a1: Expr, b1: Expr, lets: map<nat, nat>, visible: set<nat>, loop: Loop,
                                         canProvePositive: Expr -> bool)
    requires loop.lanes > 1 && Source(a, visible) && Source(b, visible) && Combine(op, a, b, a1, b1, canProvePositive).Some?
    requires Shaped(a, a1, lets, loop, canProvePositive) && Shaped(b, b1, lets, loop, canProvePositive)
    ensures Shaped(Bin(op, a, b), Combine(op, a, b, a1, b1, canProvePositive).value, lets, loop, canProvePositive)
  {
    hide ComputeAddSub, BroadcastTo, Source;
    SourceLanes(a, visible);
    SourceLanes(b, visible);
    NotRamp(a, visible);
    NotRamp(b, visible);
  }

  lemma {:induction false} SelectShaped(e: Expr, c1: Expr, t1: Expr, f1: Expr, lets: map<nat, nat>, loop: Loop, canProvePositive: Expr -> bool)
    requires e.Select? && SelectVec(e, c1, t1, f1).Some? && Shaped(e.cond, c1, lets, loop, canProvePositive)
    requires Shaped(e.t, t1, lets, loop, canProvePositive) && Shaped(e.f, f1, lets, loop, canProvePositive)
    ensures Shaped(e, SelectVec(e, c1, t1, f1).value, lets, loop, canProvePositive)
  {
  }

  /** A ramp with the lanes of e starts with the value of e in the first iteration, and its stride is the difference to the next. */
  lemma {:induction false} RampRight(e: Expr, r: Expr, lets: map<nat, nat>, visible: set<nat>, loop: Loop, env: Env, next: Env, env1: Env, mem: Mem)
    requires loop.lanes > 1 && IsRamp(r, loop.lanes) && LaneRight(e, r, lets, visible, loop)
    requires Related(lets, visible, loop, 0, env, env1) && Related(lets, visible, loop, 1, next, env1)
    ensures Lane(r.base, env1, mem, 0) == Lane(e, env, mem, 0)
    ensures Lane(r.stride, env1, mem, 0) == Lane(e, next, mem, 0) - Lane(e, env, mem, 0)
  {
    hide Related;
    assert LaneOf(r, env1, mem, 0) == Lane(e, env, mem, 0) && LaneOf(r, env1, mem, 1) == Lane(e, next, mem, 0);
    assert Lane(r, env1, mem, 1) == Lane(r.base, env1, mem, 0) + 1 * Lane(r.stride, env1, mem, 0);
  }

  class Vectorizer {
    const loop: Loop
    const canProvePositive: Expr -> bool
    /** The variables that became vectors. */
    var lets: map<nat, nat>
    /** New variables get names from here on. */
    var next: nat

    constructor (loop: Loop, canProvePositive: Expr -> bool, limit: nat)
      ensures this.loop == loop && this.canProvePositive == canProvePositive && lets == map[] && next == limit
    {
      this.loop, this.canProvePositive, lets, next := loop, canProvePositive, map[], limit;
    }

    ghost predicate Ready(e: Expr, visible: set<nat>, limit: nat)
      reads this
    {
      && loop.lanes > 1 && loop.v in visible && Source(e, visible) && NamesBelow(e, limit) && (forall x <- visible :: x < limit)
      && NewNames(lets, limit, next)
    }

    /** Since lets0, the lets grew by binders of e only. */
    ghost predicate Grown(lets0: map<nat, nat>, binders: set<nat>, limit: nat)
      reads this
    {
      && NewNames(lets, limit, next) && lets0.Keys <= lets.Keys <= lets0.Keys + binders
      && forall x <- lets0 :: lets[x] == lets0[x]
    }

    /** Lane by lane the same as e, with ramps for affine expressions. It succeeds if no variable is bound twice and every operator is overridden. */
    method Mutate(e: Expr, ghost visible: set<nat>, ghost limit: nat) returns (ok: bool, r: Expr)
      requires Ready(e, visible, limit)
      modifies `lets, `next
      ensures Grown(old(lets), Binders(e), limit)
      ensures ok ==> LaneRight(e, r, old(lets), visible, loop) && Shaped(e, r, old(lets), loop, canProvePositive)
      ensures Unique(e) && NoUnsupported(e) && old(lets.Keys) !! Binders(e) ==> ok
      decreases e, 1
    {
      hide LaneRight;
      r := e;
      match e
      case IntImm(_) =>
        ConstRight(e, lets, visible, loop);
        ok := true;
      case Var(x, _) =>
        ok := true;
        if x == loop.v {
          LoopVarRight(e, lets, visible, loop);
          r := Ramp(IntImm(0), IntImm(1), loop.lanes);
        } else {
          VarRight(e, lets, visible, loop);
          if x in lets {
            r := Var(lets[x], loop.lanes);
          }
        }
      case Bin(_, _, _) => ok, r := MutateBin(e, visible, limit);
      case Select(_, _, _) => ok, r := MutateSelect(e, visible, limit);
      case Load(b, index) =>
        var index1;
        ok, index1 := Mutate(index, visible, limit);
        r := Load(b, index1);
        if ok {
          LoadRight(e, index1, old(lets), visible, loop);
        }
      case Let(_, _, _, _) => ok, r := MutateLet(e, visible, limit);
    }

    method MutateBin(e: Expr, ghost visible: set<nat>, ghost limit: nat) returns (ok: bool, r: Expr)
      requires e.Bin? && Ready(e, visible, limit)
      modifies `lets, `next
      ensures Grown(old(lets), Binders(e), limit)
      ensures ok ==> LaneRight(e, r, old(lets), visible, loop) && Shaped(e, r, old(lets), loop, canProvePositive)
      ensures Unique(e) && NoUnsupported(e) && old(lets.Keys) !! Binders(e) ==> ok
      decreases e, 0
    {
      hide LaneRight, Combine, Shaped;
      var a1, b1;
      r := e;
      BindersNew(e, visible);
      ok, a1 := Mutate(e.a, visible, limit);
      if !ok {
        return;
      }
      ghost var lets1 := lets;
      ok, b1 := Mutate(e.b, visible, limit);
      if !ok {
        return;
      }
      SameLets(e.b, b1, lets1, old(lets), visible, loop);
      SameShape(e.b, b1, lets1, old(lets), visible, loop, canProvePositive);
      CombineRight(e.op, e.a, e.b, a1, b1, canProvePositive, old(lets), visible, loop);
      var c := Combine(e.op, e.a, e.b, a1, b1, canProvePositive);
      if c == None {
        return false, e;
      }
      CombineShaped(e.op, e.a, e.b, a1, b1, old(lets), visible, loop, canProvePositive);
      r := c.value;
    }

    method MutateSelect(e: Expr, ghost visible: set<nat>, ghost limit: nat) returns (ok: bool, r: Expr)
      requires e.Select? && Ready(e, visible, limit)
      modifies `lets, `next
      ensures Grown(old(lets), Binders(e), limit)
      ensures ok ==> LaneRight(e, r, old(lets), visible, loop) && Shaped(e, r, old(lets), loop, canProvePositive)
      ensures Unique(e) && NoUnsupported(e) && old(lets.Keys) !! Binders(e) ==> ok
      decreases e, 0
    {
      hide LaneRight, SelectVec, Shaped;
      var c1, t1, f1;
      r := e;
      BindersNew(e, visible);
      ok, c1 := Mutate(e.cond, visible, limit);
      if !ok {
        return;
      }
      ghost var lets1 := lets;
      ok, t1 := Mutate(e.t, visible, limit);
      if !ok {
        return;
      }
      ghost var lets2 := lets;
      SameLets(e.t, t1, lets1, old(lets), visible, loop);
      SameShape(e.t, t1, lets1, old(lets), visible, loop, canProvePositive);
      ok, f1 := Mutate(e.f, visible, limit);
      if !ok {
        return;
      }
      SameLets(e.f, f1, lets2, old(lets), visible, loop);
      SameShape(e.f, f1, lets2, old(lets), visible, loop, canProvePositive);
      SelectVecRight(e, c1, t1, f1, old(lets), visible, loop);
      SelectShaped(e, c1, t1, f1, old(lets), loop, canProvePositive);
      r := SelectVec(e, c1, t1, f1).value;
    }

    method MutateLet(e: Expr, ghost visible: set<nat>, ghost limit: nat) returns (ok: bool, r: Expr)
      requires e.Let? && Ready(e, visible, limit)
      modifies `lets, `next
      ensures Grown(old(lets), Binders(e), limit)
      ensures ok ==> LaneRight(e, r, old(lets), visible, loop) && Shaped(e, r, old(lets), loop, canProvePositive)
      ensures Unique(e) && NoUnsupported(e) && old(lets.Keys) !! Binders(e) ==> ok
      decreases e, 0
    {
      hide LaneRight;
      var bound1, body1;
      r := e;
      BindersNew(e, visible);
      SourceLanes(e.bound, visible);
      ok, bound1 := Mutate(e.bound, visible, limit);
      if !ok {
        return;
      }
      if e.x in lets {
        return false, e;
      }
      ghost var lets1 := lets;
      SameLets(e.bound, bound1, old(lets), lets1, visible, loop);
      if Lanes(bound1) != Lanes(e.bound) {
        var y := next;
        next := next + 1;
        lets := lets[e.x := y];
        ghost var lets2 := lets;
        ok, body1 := Mutate(e.body, visible + {e.x}, limit);
        r := Let(y, loop.lanes, bound1, body1);
        if ok {
          LetVectorRight(e, bound1, body1, y, lets1, visible, loop, limit);
        }
      } else {
        ok, body1 := Mutate(e.body, visible + {e.x}, limit);
        r := Let(e.x, 1, bound1, body1);
        if ok {
          LetScalarRight(e, bound1, body1, lets1, visible, loop, limit, next);
        }
      }
      if ok {
        SameLets(e, r, lets1, old(lets), visible, loop);
      }
    }
  }

  lemma {:induction false} ConstRight(e: Expr, lets: map<nat, nat>, visible: set<nat>, loop: Loop)
    requires e.IntImm?
    ensures LaneRight(e, e, lets, visible, loop)
  {
  }

  // ----- allocations inside the loop: private cells for every lane -----

  datatype Stmt =
    | Store(buffer: nat, value: Expr, index: Expr)
    | Block(first: Stmt, rest: Stmt)
    | IfThenElse(cond: Expr, thenCase: Stmt, elseCase: Stmt)
    | For(x: nat, extent: Expr, body: Stmt)

  /** Scalar execution: the memory after s. */
  function Exec(s: Stmt, env: Env, mem: Mem): Mem
    decreases s, 0
  {
    match s
    case Store(b, value, index) => mem[(b, Lane(index, env, mem, 0)) := Lane(value, env, mem, 0)]
    case Block(first, rest) => Exec(rest, env, Exec(first, env, mem))
    case IfThenElse(cond, thenCase, elseCase) => if Lane(cond, env, mem, 0) != 0 then Exec(thenCase, env, mem) else Exec(elseCase, env, mem)
    case For(x, extent, body) =>
      var n := Lane(extent, env, mem, 0);
      ExecLoop(body, x, 0, if n < 0 then 0 else n, env, mem)
  }

  function ExecLoop(body: Stmt, x: nat, lo: int, n: nat, env: Env, mem: Mem): Mem
    decreases body, n + 1
  {
    if n == 0 then mem else ExecLoop(body, x, lo + 1, n - 1, env, Exec(body, env[x := [lo]], mem))
  }

  /** The index of cell k of the lane that the loop variable gives. */
  function LaneIndex(index: Expr, loop: Loop): Expr {
    Bin(IntSet.Add, Bin(IntSet.Mul, index, IntImm(loop.lanes)), Var(loop.v, 1))
  }

  /** Accesses to buf get the lane as their least significant dimension. */
  function AccessExpr(e: Expr, buf: nat, loop: Loop): Expr {
    match e
    case Bin(op, a, b) => Bin(op, AccessExpr(a, buf, loop), AccessExpr(b, buf, loop))
    case Select(c, t, f) => Select(AccessExpr(c, buf, loop), AccessExpr(t, buf, loop), AccessExpr(f, buf, loop))
    case Load(b, index) =>
      var index1 := AccessExpr(index, buf, loop);
      if b == buf then Load(b, LaneIndex(index1, loop)) else Load(b, index1)
    case Let(x, n, bound, body) => Let(x, n, AccessExpr(bound, buf, loop), AccessExpr(body, buf, loop))
    case _ => e
  }

  function AccessStmt(s: Stmt, buf: nat, loop: Loop): Stmt {
    match s
    case Store(b, value, index) =>
      var index1 := AccessExpr(index, buf, loop);
      Store(b, AccessExpr(value, buf, loop), if b == buf then LaneIndex(index1, loop) else index1)
    case Block(first, rest) => Block(AccessStmt(first, buf, loop), AccessStmt(rest, buf, loop))
    case IfThenElse(cond, thenCase, elseCase) => IfThenElse(AccessExpr(cond, buf, loop), AccessStmt(thenCase, buf, loop), AccessStmt(elseCase, buf, loop))
    case For(x, extent, body) => For(x, AccessExpr(extent, buf, loop), AccessStmt(body, buf, loop))
  }

  predicate ScalarStmt(s: Stmt, visible: set<nat>) {
    match s
    case Store(_, value, index) => Source(value, visible) && Source(index, visible)
    case Block(first, rest) => ScalarStmt(first, visible) && ScalarStmt(rest, visible)
    case IfThenElse(cond, thenCase, elseCase) => Source(cond, visible) && ScalarStmt(thenCase, visible) && ScalarStmt(elseCase, visible)
    case For(x, extent, body) => x !in visible && Source(extent, visible) && ScalarStmt(body, visible + {x})
  }

  /** mem1 holds the buffer of iteration i in lane i, and the other buffers as they are. */
  ghost predicate LaneMem(mem: Mem, mem1: Mem, buf: nat, lanes: nat, i: nat) {
    forall b: nat, k: int :: Cell(mem, b, k) == Cell(mem1, b, if b == buf then k * lanes + i else k)
  }

  /** The cells of the other lanes are left alone. */
  ghost predicate OthersKept(mem1: Mem, mem2: Mem, buf: nat, lanes: nat, i: nat) {
    forall k: int, j: nat | j < lanes && j != i :: LaneCell(mem2, buf, lanes, j, k) == LaneCell(mem1, buf, lanes, j, k)
  }

  /** Cell k of lane j. */
  function LaneCell(mem: Mem, buf: nat, lanes: nat, j: nat, k: int): int {
    Cell(mem, buf, k * lanes + j)
  }

  /** Different lanes have different cells, and all are inside the allocation with one more dimension. */
  lemma {:induction false} PrivateCells(k: int, i: nat, l: int, j: nat, lanes: nat, size: nat)
    requires i < lanes && j < lanes
    ensures k * lanes + i == l * lanes + j <==> k == l && i == j
    ensures 0 <= k < size ==> 0 <= k * lanes + i < size * lanes
  {
    if k < l {
      LanesApart(k, l, lanes);
    } else if l < k {
      LanesApart(l, k, lanes);
    }
    if 0 <= k < size {
      LanesApart(k, size, lanes);
      assert 0 <= k * lanes;
    }
  }

  lemma {:induction false} LanesApart(k: int, l: int, lanes: nat)
    requires k < l
    ensures k * lanes + lanes <= l * lanes
  {
    assert (k + 1) * lanes <= l * lanes;
  }

  lemma {:induction false} LaneIndexRight(index: Expr, loop: Loop, env: Env, mem: Mem, i: nat)
    requires Value(env, loop.v, 0) == i
    ensures Lane(LaneIndex(index, loop), env, mem, 0) == Lane(index, env, mem, 0) * loop.lanes + i
  {
    assert Lane(Bin(IntSet.Mul, index, IntImm(loop.lanes)), env, mem, 0) == Lane(index, env, mem, 0) * loop.lanes;
  }

  lemma {:induction false} AccessExprRight(e: Expr, visible: set<nat>, buf: nat, loop: Loop, i: nat, env: Env, mem: Mem, mem1: Mem)
    requires Source(e, visible) && loop.v in visible && Value(env, loop.v, 0) == i && LaneMem(mem, mem1, buf, loop.lanes, i)
    ensures Lane(AccessExpr(e, buf, loop), env, mem1, 0) == Lane(e, env, mem, 0) && Lanes(AccessExpr(e, buf, loop)) == 1
    decreases e
  {
    hide LaneMem, LaneIndex;
    match e
    case Bin(_, a, b) =>
      AccessExprRight(a, visible, buf, loop, i, env, mem, mem1);
      AccessExprRight(b, visible, buf, loop, i, env, mem, mem1);
    case Select(c, t, f) =>
      SourceLanes(c, visible);
      AccessExprRight(c, visible, buf, loop, i, env, mem, mem1);
      AccessExprRight(t, visible, buf, loop, i, env, mem, mem1);
      AccessExprRight(f, visible, buf, loop, i, env, mem, mem1);
    case Load(b, index) =>
      AccessExprRight(index, visible, buf, loop, i, env, mem, mem1);
      LaneIndexRight(AccessExpr(index, buf, loop), loop, env, mem1, i);
      LaneIndexLanes(AccessExpr(index, buf, loop), loop);
      CellRight(mem, mem1, buf, loop.lanes, i, b, Lane(index, env, mem, 0));
    case Let(x, n, bound, body) =>
      AccessExprRight(bound, visible, buf, loop, i, env, mem, mem1);
      OneLane(x, bound, AccessExpr(bound, buf, loop), env, mem, mem1);
      AccessExprRight(body, visible + {x}, buf, loop, i, BindLanes(x, 1, bound, env, mem), mem, mem1);
    case _ =>
  }

  /** The rewritten expression has the lanes that the node constructors demand. */
  lemma {:induction false} AccessTyped(e: Expr, visible: set<nat>, buf: nat, loop: Loop)
    requires Source(e, visible)
    ensures Typed(AccessExpr(e, buf, loop)) && Lanes(AccessExpr(e, buf, loop)) == 1
  {
    match e
    case Bin(_, a, b) =>
      AccessTyped(a, visible, buf, loop);
      AccessTyped(b, visible, buf, loop);
    case Select(c, t, f) =>
      AccessTyped(c, visible, buf, loop);
      AccessTyped(t, visible, buf, loop);
      AccessTyped(f, visible, buf, loop);
    case Load(_, index) =>
      AccessTyped(index, visible, buf, loop);
      var index1 := AccessExpr(index, buf, loop);
      assert Typed(Bin(IntSet.Mul, index1, IntImm(loop.lanes))) && Typed(Var(loop.v, 1));
      LaneIndexLanes(index1, loop);
      assert Typed(LaneIndex(index1, loop));
    case Let(x, _, bound, body) =>
      AccessTyped(bound, visible, buf, loop);
      AccessTyped(body, visible + {x}, buf, loop);
    case _ =>
  }

  lemma {:induction false} LaneIndexLanes(index: Expr, loop: Loop)
    requires Lanes(index) == 1
    ensures Lanes(LaneIndex(index, loop)) == 1
  {
  }

  lemma {:induction false} CellRight(mem: Mem, mem1: Mem, buf: nat, lanes: nat, i: nat, b: nat, k: int)
    requires LaneMem(mem, mem1, buf, lanes, i)
    ensures Cell(mem, b, k) == Cell(mem1, b, if b == buf then k * lanes + i else k)
  {
  }

  lemma {:induction false} OneLane(x: nat, bound: Expr, bound1: Expr, env: Env, mem: Mem, mem1: Mem)
    requires Lane(bound1, env, mem1, 0) == Lane(bound, env, mem, 0)
    ensures BindLanes(x, 1, bound1, env, mem1) == BindLanes(x, 1, bound, env, mem)
  {
    var vs := seq(1, j requires 0 <= j < 1 => Lane(bound, env, mem, j));
    var vs1 := seq(1, j requires 0 <= j < 1 => Lane(bound1, env, mem1, j));
    assert vs == vs1;
    assert BindLanes(x, 1, bound, env, mem)[x] == BindLanes(x, 1, bound1, env, mem1)[x];
  }

  /** A store to the buffer of iteration i is a store to lane i. */
  lemma {:induction false} StoreLane(mem: Mem, mem1: Mem, buf: nat, lanes: nat, i: nat, b: nat, k: int, v: int)
    requires i < lanes && LaneMem(mem, mem1, buf, lanes, i)
    ensures var k1 := if b == buf then k * lanes + i else k;
      LaneMem(mem[(b, k) := v], mem1[(b, k1) := v], buf, lanes, i) && OthersKept(mem1, mem1[(b, k1) := v], buf, lanes, i)
  {
    var k1 := if b == buf then k * lanes + i else k;
    var mem2, mem3 := mem[(b, k) := v], mem1[(b, k1) := v];
    forall c: nat, l: int ensures Cell(mem2, c, l) == Cell(mem3, c, if c == buf then l * lanes + i else l) {
      StoreCell(mem, mem1, buf, lanes, i, b, k, v, c, l);
    }
    forall l: int, j: nat | j < lanes && j != i ensures LaneCell(mem3, buf, lanes, j, l) == LaneCell(mem1, buf, lanes, j, l) {
      PrivateCells(k, i, l, j, lanes, 0);
    }
  }

  lemma {:induction false} StoreCell(mem: Mem, mem1: Mem, buf: nat, lanes: nat, i: nat, b: nat, k: int, v: int, c: nat, l: int)
    requires i < lanes && LaneMem(mem, mem1, buf, lanes, i)
    ensures var k1 := if b == buf then k * lanes + i else k;
      Cell(mem[(b, k) := v], c, l) == Cell(mem1[(b, k1) := v], c, if c == buf then l * lanes + i else l)
  {
    hide LaneMem;
    PrivateCells(k, i, l, i, lanes, 0);
    CellRight(mem, mem1, buf, lanes, i, c, l);
  }

  lemma {:induction false} KeptTrans(mem1: Mem, mem2: Mem, mem3: Mem, buf: nat, lanes: nat, i: nat)
    requires OthersKept(mem1, mem2, buf, lanes, i) && OthersKept(mem2, mem3, buf, lanes, i)
    ensures OthersKept(mem1, mem3, buf, lanes, i)
  {
    forall k: int, j: nat | j < lanes && j != i ensures LaneCell(mem3, buf, lanes, j, k) == LaneCell(mem1, buf, lanes, j, k) {
      assert LaneCell(mem2, buf, lanes, j, k) == LaneCell(mem1, buf, lanes, j, k);
    }
  }

  lemma {:induction false} KeptSelf(mem1: Mem, buf: nat, lanes: nat, i: nat)
    ensures OthersKept(mem1, mem1, buf, lanes, i)
  {
  }

  /** Iteration i of the rewritten body does in lane i what it did in its own buffer, and leaves the other lanes alone. */
  lemma {:induction false} AccessRight(s: Stmt, visible: set<nat>, buf: nat, loop: Loop, i: nat, env: Env, mem: Mem, mem1: Mem)
    requires ScalarStmt(s, visible) && loop.v in visible && i < loop.lanes && Value(env, loop.v, 0) == i
    requires LaneMem(mem, mem1, buf, loop.lanes, i)
    ensures var mem2 := Exec(AccessStmt(s, buf, loop), env, mem1);
      LaneMem(Exec(s, env, mem), mem2, buf, loop.lanes, i) && OthersKept(mem1, mem2, buf, loop.lanes, i)
    decreases s, 0
  {
    hide LaneMem, OthersKept, LaneIndex, Lane, AccessExpr;
    match s
    case Store(b, value, index) =>
      AccessExprRight(value, visible, buf, loop, i, env, mem, mem1);
      AccessExprRight(index, visible, buf, loop, i, env, mem, mem1);
      LaneIndexRight(AccessExpr(index, buf, loop), loop, env, mem1, i);
      StoreLane(mem, mem1, buf, loop.lanes, i, b, Lane(index, env, mem, 0), Lane(value, env, mem, 0));
    case Block(first, rest) =>
      AccessRight(first, visible, buf, loop, i, env, mem, mem1);
      AccessRight(rest, visible, buf, loop, i, env, Exec(first, env, mem), Exec(AccessStmt(first, buf, loop), env, mem1));
      KeptTrans(mem1, Exec(AccessStmt(first, buf, loop), env, mem1), Exec(AccessStmt(s, buf, loop), env, mem1), buf, loop.lanes, i);
    case IfThenElse(cond, thenCase, elseCase) =>
      AccessExprRight(cond, visible, buf, loop, i, env, mem, mem1);
      AccessRight(thenCase, visible, buf, loop, i, env, mem, mem1);
      AccessRight(elseCase, visible, buf, loop, i, env, mem, mem1);
    case For(x, extent, body) =>
      AccessExprRight(extent, visible, buf, loop, i, env, mem, mem1);
      var n := Lane(extent, env, mem, 0);
      AccessLoopRight(body, x, 0, if n < 0 then 0 else n, visible, buf, loop, i, env, mem, mem1);
  }

  lemma {:induction false} AccessLoopRight(body: Stmt, x: nat, lo: int, n: nat, visible: set<nat>, buf: nat, loop: Loop, i: nat, env: Env, mem: Mem, mem1: Mem)
    requires x !in visible && ScalarStmt(body, visible + {x}) && loop.v in visible && i < loop.lanes && Value(env, loop.v, 0) == i
    requires LaneMem(mem, mem1, buf, loop.lanes, i)
    ensures var mem2 := ExecLoop(AccessStmt(body, buf, loop), x, lo, n, env, mem1);
      LaneMem(ExecLoop(body, x, lo, n, env, mem), mem2, buf, loop.lanes, i) && OthersKept(mem1, mem2, buf, loop.lanes, i)
    decreases body, n + 1
  {
    hide LaneMem, OthersKept, AccessStmt, ScalarStmt;
    if n == 0 {
      KeptSelf(mem1, buf, loop.lanes, i);
    } else {
      var env1 := env[x := [lo]];
      assert Value(env1, loop.v, 0) == i;
      AccessRight(body, visible + {x}, buf, loop, i, env1, mem, mem1);
      var mem2 := Exec(AccessStmt(body, buf, loop), env1, mem1);
      AccessLoopRight(body, x, lo + 1, n - 1, visible, buf, loop, i, env, Exec(body, env1, mem), mem2);
      KeptTrans(mem1, mem2, ExecLoop(AccessStmt(body, buf, loop), x, lo + 1, n - 1, env, mem2), buf, loop.lanes, i);
    }
  }

  // ----- the whole loop -----

  /** The memory without the buffer. */
  function Cleared(mem: Mem, buf: nat): Mem {
    map c | c in mem && c.0 != buf :: mem[c]
  }

  /** The memory after n iterations, each of which allocates the buffer anew. */
  function AfterIterations(s: Stmt, buf: nat, loop: Loop, n: nat, env: Env, mem: Mem): Mem
    decreases n
  {
    if n == 0 then mem else Exec(s, env[loop.v := [n - 1]], Cleared(AfterIterations(s, buf, loop, n - 1, env, mem), buf))
  }

  /** The memory after n iterations of the rewritten body, with one allocation for all of them. */
  function AfterLanes(s: Stmt, buf: nat, loop: Loop, n: nat, env: Env, mem: Mem): Mem
    decreases n
  {
    if n == 0 then mem else Exec(AccessStmt(s, buf, loop), env[loop.v := [n - 1]], AfterLanes(s, buf, loop, n - 1, env, mem))
  }

  /** The lanes from n on hold nothing yet. */
  ghost predicate LanesEmpty(mem: Mem, buf: nat, lanes: nat, n: nat) {
    forall k: int, i: nat | n <= i < lanes :: LaneCell(mem, buf, lanes, i, k) == 0
  }

  ghost predicate SameOutside(mem: Mem, mem1: Mem, buf: nat) {
    forall b: nat, k: int | b != buf :: Cell(mem, b, k) == Cell(mem1, b, k)
  }

  /** Lane i holds what is in the buffer. */
  ghost predicate LaneHolds(mem1: Mem, buf: nat, lanes: nat, i: nat, mem: Mem) {
    forall k: int :: LaneCell(mem1, buf, lanes, i, k) == Cell(mem, buf, k)
  }

  /** Lane i holds what iteration i left in its buffer. */
  ghost predicate LaneAfter(s: Stmt, buf: nat, loop: Loop, i: nat, env: Env, mem: Mem, mem1: Mem) {
    LaneHolds(mem1, buf, loop.lanes, i, AfterIterations(s, buf, loop, i + 1, env, mem))
  }

  /** After any number of iterations the rewritten loop has the same other buffers as the original one, and in each lane what the
      iteration of that lane left in its own buffer. */
  lemma {:induction false} WholeLoopRight(s: Stmt, visible: set<nat>, buf: nat, loop: Loop, n: nat, env: Env, mem: Mem)
    requires ScalarStmt(s, visible) && loop.v in visible && n <= loop.lanes
    ensures var mem1 := AfterLanes(s, buf, loop, n, env, Cleared(mem, buf));
      && SameOutside(AfterIterations(s, buf, loop, n, env, mem), mem1, buf) && LanesEmpty(mem1, buf, loop.lanes, n)
      && forall i: nat | i < n :: LaneAfter(s, buf, loop, i, env, mem, mem1)
    decreases n
  {
    hide ScalarStmt, Exec, AccessStmt, LaneCell, Cell;
    if n == 0 {
      NothingYet(mem, buf, loop.lanes);
    } else {
      var i := n - 1;
      WholeLoopRight(s, visible, buf, loop, i, env, mem);
      var mem0, mem1 := AfterIterations(s, buf, loop, i, env, mem), AfterLanes(s, buf, loop, i, env, Cleared(mem, buf));
      var env1 := env[loop.v := [i]];
      NextLane(mem0, mem1, buf, loop.lanes, i);
      ValueSet(env, loop.v, i);
      AccessRight(s, visible, buf, loop, i, env1, Cleared(mem0, buf), mem1);
      LaneDone(Exec(s, env1, Cleared(mem0, buf)), mem1, Exec(AccessStmt(s, buf, loop), env1, mem1), buf, loop.lanes, i);
      forall j: nat | j < i ensures LaneAfter(s, buf, loop, j, env, mem, Exec(AccessStmt(s, buf, loop), env1, mem1)) {
        assert LaneAfter(s, buf, loop, j, env, mem, mem1);
        LaneStays(mem1, Exec(AccessStmt(s, buf, loop), env1, mem1), buf, loop.lanes, i, j, AfterIterations(s, buf, loop, j + 1, env, mem));
      }
    }
  }

  lemma {:induction false} NothingYet(mem: Mem, buf: nat, lanes: nat)
    ensures SameOutside(mem, Cleared(mem, buf), buf) && LanesEmpty(Cleared(mem, buf), buf, lanes, 0)
  {
  }

  lemma {:induction false} ValueSet(env: Env, x: nat, i: nat)
    ensures Value(env[x := [i]], x, 0) == i
  {
  }

  /** A new buffer is an empty lane. */
  lemma {:induction false} NextLane(mem: Mem, mem1: Mem, buf: nat, lanes: nat, i: nat)
    requires i < lanes && SameOutside(mem, mem1, buf) && LanesEmpty(mem1, buf, lanes, i)
    ensures LaneMem(Cleared(mem, buf), mem1, buf, lanes, i)
  {
    forall b: nat, k: int ensures Cell(Cleared(mem, buf), b, k) == Cell(mem1, b, if b == buf then k * lanes + i else k) {
      if b == buf {
        assert LaneCell(mem1, buf, lanes, i, k) == 0;
      } else {
        assert Cell(mem, b, k) == Cell(mem1, b, k);
      }
    }
  }

  lemma {:induction false} LaneDone(mem: Mem, mem1: Mem, mem2: Mem, buf: nat, lanes: nat, i: nat)
    requires i < lanes && LaneMem(mem, mem2, buf, lanes, i) && OthersKept(mem1, mem2, buf, lanes, i) && LanesEmpty(mem1, buf, lanes, i)
    ensures SameOutside(mem, mem2, buf) && LanesEmpty(mem2, buf, lanes, i + 1) && LaneHolds(mem2, buf, lanes, i, mem)
  {
    forall b: nat, k: int | b != buf ensures Cell(mem, b, k) == Cell(mem2, b, k) {
      CellRight(mem, mem2, buf, lanes, i, b, k);
    }
    forall k: int ensures LaneCell(mem2, buf, lanes, i, k) == Cell(mem, buf, k) {
      CellRight(mem, mem2, buf, lanes, i, buf, k);
    }
  }

  lemma {:induction false} LaneStays(mem1: Mem, mem2: Mem, buf: nat, lanes: nat, i: nat, j: nat, mem: Mem)
    requires j < lanes && j != i && OthersKept(mem1, mem2, buf, lanes, i) && LaneHolds(mem1, buf, lanes, j, mem)
    ensures LaneHolds(mem2, buf, lanes, j, mem)
  {
    hide LaneCell;
  }
}
