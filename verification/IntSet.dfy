/** Symbolic integer sets: intervals whose end points are expressions
    (src/arithmetic/int_set.cc), with the soundness of their evaluation. */
module IntSet {
  import Arithmetic

  datatype Op = Add | Sub | Mul | Div | Min | Max | LT | LE | GT | GE | EQ | NE

  datatype Expr =
    | IntImm(value: int)
    | Variable(name: nat)
    | Bin(op: Op, a: Expr, b: Expr)
    | Select(cond: Expr, t: Expr, f: Expr)

  /** Values of the variables; a variable that is not listed is 0. */
  type Env = map<nat, int>

  function Abs(x: int): nat {
    if x < 0 then -x else x
  }

  /** Division of C: the quotient is rounded toward zero. A zero divisor has no meaning in C; it gives 0 here. */
  function TruncDiv(x: int, y: int): int {
    if y == 0 then 0
    else if (x < 0) == (y < 0) then Abs(x) / Abs(y)
    else -(Abs(x) / Abs(y))
  }

  /** The remainder of C, which has the sign of the dividend. */
  function TruncMod(x: int, y: int): int {
    x - TruncDiv(x, y) * y
  }

  predicate IsComparison(op: Op) {
    op.LT? || op.LE? || op.GT? || op.GE? || op.EQ? || op.NE?
  }

  function AsInt(b: bool): int {
    if b then 1 else 0
  }

  /** The value of an operator; comparisons give 0 or 1. */
  function Apply(op: Op, x: int, y: int): int {
    match op
    case Add => x + y
    case Sub => x - y
    case Mul => x * y
    case Div => TruncDiv(x, y)
    case Min => if x <= y then x else y
    case Max => if x >= y then x else y
    case LT => AsInt(x < y)
    case LE => AsInt(x <= y)
    case GT => AsInt(x > y)
    case GE => AsInt(x >= y)
    case EQ => AsInt(x == y)
    case NE => AsInt(x != y)
  }

  function Eval(e: Expr, env: Env): int {
    match e
    case IntImm(v) => v
    case Variable(x) => if x in env then env[x] else 0
    case Bin(op, a, b) => Apply(op, Eval(a, env), Eval(b, env))
    case Select(c, t, f) => if Eval(c, env) != 0 then Eval(t, env) else Eval(f, env)
  }

  /** How often variable x occurs. */
  function Count(x: nat, e: Expr): nat {
    match e
    case IntImm(_) => 0
    case Variable(y) => if x == y then 1 else 0
    case Bin(_, a, b) => Count(x, a) + Count(x, b)
    case Select(c, t, f) => Count(x, c) + Count(x, t) + Count(x, f)
  }

  // ----- eager constant folding (compute_expr.h) -----

  function ComputeAdd(a: Expr, b: Expr): Expr {
    if a == IntImm(0) then b
    else if b == IntImm(0) then a
    else if a.IntImm? && b.IntImm? then IntImm(a.value + b.value)
    else Bin(Add, a, b)
  }

  function ComputeSub(a: Expr, b: Expr): Expr {
    if b == IntImm(0) then a
    else if a.IntImm? && b.IntImm? then IntImm(a.value - b.value)
    else Bin(Sub, a, b)
  }

  function ComputeMul(a: Expr, b: Expr): Expr {
    if a == IntImm(1) then b
    else if b == IntImm(1) then a
    else if a.IntImm? && b.IntImm? then IntImm(a.value * b.value)
    else Bin(Mul, a, b)
  }

  function ComputeDiv(a: Expr, b: Expr): Expr {
    if b == IntImm(1) then a else Bin(Div, a, b)
  }

  // ----- intervals -----

  datatype Bound = NegInf | Fin(e: Expr) | PosInf

  /** An inclusive interval with symbolic end points. Identity of end points is equality of expressions. */
  datatype Interval = Interval(min: Bound, max: Bound) {
    predicate IsEmpty() { min.PosInf? || max.NegInf? }
    predicate IsEverything() { min.NegInf? && max.PosInf? }
    predicate IsSinglePoint() { min == max }
    predicate HasLowerBound() { !min.NegInf? && !IsEmpty() }
    predicate HasUpperBound() { !max.PosInf? && !IsEmpty() }
    predicate IsBounded() { HasLowerBound() && HasUpperBound() }
  }

  const Everything := Interval(NegInf, PosInf)
  const Nothing := Interval(PosInf, NegInf)

  function SinglePoint(e: Expr): Interval { Interval(Fin(e), Fin(e)) }

  predicate Above(x: int, b: Bound, env: Env) {
    match b
    case NegInf => true
    case Fin(e) => Eval(e, env) <= x
    case PosInf => false
  }

  predicate Below(x: int, b: Bound, env: Env) {
    match b
    case NegInf => false
    case Fin(e) => x <= Eval(e, env)
    case PosInf => true
  }

  /** x belongs to the interval when the variables have the values of env. */
  predicate In(x: int, i: Interval, env: Env) {
    Above(x, i.min, env) && Below(x, i.max, env)
  }

  function CombineAdd(a: Interval, b: Interval): Interval {
    if a.IsSinglePoint() && b.IsSinglePoint() && a.min.Fin? && b.min.Fin? then
      SinglePoint(ComputeAdd(a.min.e, b.min.e))
    else
      Interval(
        if a.HasLowerBound() && b.HasLowerBound() then Fin(ComputeAdd(a.min.e, b.min.e)) else NegInf,
        if a.HasUpperBound() && b.HasUpperBound() then Fin(ComputeAdd(a.max.e, b.max.e)) else PosInf)
  }

  function CombineSub(a: Interval, b: Interval): Interval {
    if a.IsSinglePoint() && b.IsSinglePoint() && a.min.Fin? && b.min.Fin? then
      SinglePoint(ComputeSub(a.min.e, b.min.e))
    else
      Interval(
        if a.HasLowerBound() && b.HasUpperBound() then Fin(ComputeSub(a.min.e, b.max.e)) else NegInf,
        if a.HasUpperBound() && b.HasLowerBound() then Fin(ComputeSub(a.max.e, b.min.e)) else PosInf)
  }

  /** The set whose ends e1 and e2 are those of a scaled by m, put in the order that the sign of m calls for. */
  function Scaled(a: Interval, m: Expr, e1: Bound, e2: Bound): Interval
    requires a.IsBounded() ==> e1.Fin? && e2.Fin?
  {
    if m.IntImm? && m.value > 0 then Interval(e1, e2)
    else if m.IntImm? && m.value < 0 then Interval(e2, e1)
    else if a.IsBounded() then
      var cmp := Bin(GE, m, IntImm(0));
      Interval(Fin(Select(cmp, e1.e, e2.e)), Fin(Select(cmp, e2.e, e1.e)))
    else Everything
  }

  function ScaleMul(a: Interval, m: Expr): Interval {
    Scaled(a, m,
      if a.HasLowerBound() then Fin(ComputeMul(a.min.e, m)) else a.min,
      if a.HasUpperBound() then Fin(ComputeMul(a.max.e, m)) else a.max)
  }

  function ScaleDiv(a: Interval, m: Expr): Interval {
    Scaled(a, m,
      if a.HasLowerBound() then Fin(ComputeDiv(a.min.e, m)) else a.min,
      if a.HasUpperBound() then Fin(ComputeDiv(a.max.e, m)) else a.max)
  }

  function CombineMul(a0: Interval, b0: Interval): Interval {
    if a0.IsSinglePoint() && b0.IsSinglePoint() && a0.min.Fin? && b0.min.Fin? then
      SinglePoint(ComputeMul(a0.min.e, b0.min.e))
    else
      var (a, b) := if a0.IsSinglePoint() && !b0.IsSinglePoint() then (b0, a0) else (a0, b0);
      if b.IsSinglePoint() && b.min.Fin? then ScaleByPoint(a, b.min.e) else Everything
  }

  function ScaleByPoint(a: Interval, m: Expr): Interval {
    if m == IntImm(0) then SinglePoint(IntImm(0))
    else if m == IntImm(1) then a
    else ScaleMul(a, m)
  }

  /** Division by the constant 0 is a fatal error in the source; see CombineFails. */
  function CombineDiv(a: Interval, b: Interval): Interval {
    if a.IsSinglePoint() && b.IsSinglePoint() && a.min.Fin? && b.min.Fin? then
      SinglePoint(ComputeDiv(a.min.e, b.min.e))
    else if b.IsSinglePoint() && b.min.Fin? then
      if b.min.e == IntImm(1) then a
      else ScaleDiv(a, b.min.e)
    else Everything
  }

  function MakeMax(a: Bound, b: Bound): Bound {
    if a == b then a
    else if a.PosInf? || b.NegInf? then a
    else if b.PosInf? || a.NegInf? then b
    else if a.e.IntImm? && b.e.IntImm? then (if a.e.value > b.e.value then a else b)
    else Fin(Bin(Max, a.e, b.e))
  }

  function MakeMin(a: Bound, b: Bound): Bound {
    if a == b then a
    else if a.PosInf? || b.NegInf? then b
    else if b.PosInf? || a.NegInf? then a
    else if a.e.IntImm? && b.e.IntImm? then (if a.e.value > b.e.value then b else a)
    else Fin(Bin(Min, a.e, b.e))
  }

  function CombineMax(a: Interval, b: Interval): Interval {
    Interval(MakeMax(a.min, b.min), MakeMax(a.max, b.max))
  }

  function CombineMin(a: Interval, b: Interval): Interval {
    Interval(MakeMin(a.min, b.min), MakeMin(a.max, b.max))
  }

  type DomMap = map<nat, Interval>

  predicate MatchPoint(i: Interval, e: Expr) {
    i == SinglePoint(e)
  }

  /** Combination of the sets of two operands under an operator. */
  function Combine(op: Op, a: Interval, b: Interval): Interval {
    if IsComparison(op) then Interval(Fin(IntImm(0)), Fin(IntImm(1)))
    else if a.IsEverything() then a
    else if b.IsEverything() then b
    else match op
      case Add => CombineAdd(a, b)
      case Sub => CombineSub(a, b)
      case Mul => CombineMul(a, b)
      case Div => CombineDiv(a, b)
      case Min => CombineMin(a, b)
      case _ => CombineMax(a, b)
  }

  /** A set that contains every value of e when each variable of dom ranges over its set. */
  function EvalSet(e: Expr, dom: DomMap): Interval {
    match e
    case IntImm(_) => SinglePoint(e)
    case Variable(x) => if x in dom then dom[x] else SinglePoint(e)
    case Bin(op, l, r) =>
      var a := EvalSet(l, dom);
      var b := EvalSet(r, dom);
      if MatchPoint(a, l) && MatchPoint(b, r) then SinglePoint(e) else Combine(op, a, b)
    case Select(_, _, _) => Everything
  }

  /** The set s with the variables of dom ranging over their sets. */
  function EvalSetOfSet(s: Interval, dom: DomMap): Interval {
    Interval(
      if s.HasLowerBound() then EvalSet(s.min.e, dom).min else s.min,
      if s.HasUpperBound() then EvalSet(s.max.e, dom).max else s.max)
  }

  // ----- soundness -----

  /** What evaluation of bounded domains can return: an interval with two finite ends, or everything. */
  predicate Tame(i: Interval) {
    (i.min.Fin? && i.max.Fin?) || i == Everything
  }

  ghost predicate TameDom(dom: DomMap) {
    forall x <- dom :: Tame(dom[x])
  }

  /** Each variable of dom has a value inside its set. */
  ghost predicate Respects(env: Env, dom: DomMap) {
    forall x <- dom :: In(Eval(Variable(x), env), dom[x], env)
  }

  predicate NoSelect(e: Expr) {
    match e
    case Bin(_, a, b) => NoSelect(a) && NoSelect(b)
    case _ => !e.Select?
  }

  /** When no variable ranges over a set, an expression without selections is its own set. */
  lemma {:induction false} OwnSet(e: Expr, nothing: DomMap)
    requires nothing == map[] && NoSelect(e)
    ensures EvalSet(e, nothing) == SinglePoint(e)
  {
    match e
    case Bin(_, a, b) =>
      OwnSet(a, nothing);
      OwnSet(b, nothing);
    case _ =>
  }

  lemma {:induction false} EvalComputeAdd(a: Expr, b: Expr, env: Env)
    ensures Eval(ComputeAdd(a, b), env) == Eval(a, env) + Eval(b, env)
  {
  }

  lemma {:induction false} EvalComputeSub(a: Expr, b: Expr, env: Env)
    ensures Eval(ComputeSub(a, b), env) == Eval(a, env) - Eval(b, env)
  {
  }

  lemma {:induction false} NatDivMonotone(x: nat, y: nat, d: nat)
    requires x <= y && d > 0
    ensures x / d <= y / d
  {
    if x / d > y / d {
      Arithmetic.MulMonotone(y / d + 1, x / d, d);
      assert false;
    }
  }

  lemma {:induction false} TruncDivMonotone(x: int, y: int, d: int)
    requires x <= y
    ensures d >= 0 ==> TruncDiv(x, d) <= TruncDiv(y, d)
    ensures d <= 0 ==> TruncDiv(y, d) <= TruncDiv(x, d)
  {
    if d > 0 {
      TruncDivMonotonePositive(x, y, d);
    } else if d < 0 {
      TruncDivMonotonePositive(x, y, -d);
      TruncDivNegate(x, d);
      TruncDivNegate(y, d);
    }
  }

  lemma {:induction false} TruncDivMonotonePositive(x: int, y: int, d: int)
    requires x <= y && d > 0
    ensures TruncDiv(x, d) <= TruncDiv(y, d)
  {
    if x >= 0 {
      NatDivMonotone(x, y, d);
    } else if y < 0 {
      NatDivMonotone(-y, -x, d);
    } else {
      NatDivMonotone(0, y, d);
      NatDivMonotone(0, -x, d);
      assert TruncDiv(x, d) == -(-x / d) && TruncDiv(y, d) == y / d;
    }
  }

  lemma {:induction false} TruncDivNegate(x: int, d: int)
    requires d < 0
    ensures TruncDiv(x, d) == -TruncDiv(x, -d)
  {
  }

  lemma {:induction false} EvalSelectSign(m: Expr, e1: Expr, e2: Expr, env: Env)
    ensures Eval(Select(Bin(GE, m, IntImm(0)), e1, e2), env) == if Eval(m, env) >= 0 then Eval(e1, env) else Eval(e2, env)
  {
    assert Eval(IntImm(0), env) == 0;
    assert Eval(Bin(GE, m, IntImm(0)), env) == AsInt(Eval(m, env) >= 0);
  }

  lemma {:induction false} SelectSound(m: Expr, e1: Expr, e2: Expr, z: int, env: Env)
    requires Eval(m, env) >= 0 ==> Eval(e1, env) <= z <= Eval(e2, env)
    requires Eval(m, env) <= 0 ==> Eval(e2, env) <= z <= Eval(e1, env)
    ensures var cmp := Bin(GE, m, IntImm(0));
            In(z, Interval(Fin(Select(cmp, e1, e2)), Fin(Select(cmp, e2, e1))), env)
  {
    EvalSelectSign(m, e1, e2, env);
    EvalSelectSign(m, e2, e1, env);
  }

  lemma {:induction false} ScaledSound(a: Interval, m: Expr, e1: Expr, e2: Expr, z: int, env: Env)
    requires a.min.Fin? && a.max.Fin?
    requires Eval(m, env) >= 0 ==> Eval(e1, env) <= z <= Eval(e2, env)
    requires Eval(m, env) <= 0 ==> Eval(e2, env) <= z <= Eval(e1, env)
    ensures In(z, Scaled(a, m, Fin(e1), Fin(e2)), env) && Tame(Scaled(a, m, Fin(e1), Fin(e2)))
  {
    var i := Scaled(a, m, Fin(e1), Fin(e2));
    if m.IntImm? && m.value > 0 {
      assert Eval(m, env) == m.value;
      assert i == Interval(Fin(e1), Fin(e2));
    } else if m.IntImm? && m.value < 0 {
      assert Eval(m, env) == m.value;
      assert i == Interval(Fin(e2), Fin(e1));
    } else {
      SelectSound(m, e1, e2, z, env);
    }
  }

  lemma {:induction false} ScaleMulSound(a: Interval, m: Expr, x: int, env: Env)
    requires a.min.Fin? && a.max.Fin? && In(x, a, env)
    ensures In(x * Eval(m, env), ScaleMul(a, m), env) && Tame(ScaleMul(a, m))
  {
    var v := Eval(m, env);
    Arithmetic.MulMonotone(Eval(a.min.e, env), x, v);
    Arithmetic.MulMonotone(x, Eval(a.max.e, env), v);
    ScaledSound(a, m, ComputeMul(a.min.e, m), ComputeMul(a.max.e, m), x * v, env);
  }

  lemma {:induction false} ScaleDivSound(a: Interval, m: Expr, x: int, env: Env)
    requires a.min.Fin? && a.max.Fin? && In(x, a, env)
    ensures In(TruncDiv(x, Eval(m, env)), ScaleDiv(a, m), env) && Tame(ScaleDiv(a, m))
  {
    var v := Eval(m, env);
    TruncDivMonotone(Eval(a.min.e, env), x, v);
    TruncDivMonotone(x, Eval(a.max.e, env), v);
    ScaledSound(a, m, ComputeDiv(a.min.e, m), ComputeDiv(a.max.e, m), TruncDiv(x, v), env);
  }

  lemma {:induction false} ScaleByPointSound(a: Interval, m: Expr, x: int, env: Env)
    requires a.min.Fin? && a.max.Fin? && In(x, a, env)
    ensures In(x * Eval(m, env), ScaleByPoint(a, m), env) && Tame(ScaleByPoint(a, m))
  {
    if m == IntImm(0) || m == IntImm(1) {
      assert Eval(m, env) == m.value;
      assert Eval(IntImm(0), env) == 0;
    } else {
      ScaleMulSound(a, m, x, env);
    }
  }

  lemma {:induction false} TimesCommutes(x: int, y: int)
    ensures x * y == y * x
  {
  }

  lemma {:induction false} CombineMulSound(a: Interval, b: Interval, x: int, y: int, env: Env)
    requires Tame(a) && Tame(b) && !a.IsEverything() && !b.IsEverything()
    requires In(x, a, env) && In(y, b, env)
    ensures Tame(CombineMul(a, b)) && In(x * y, CombineMul(a, b), env)
  {
    if a.IsSinglePoint() && b.IsSinglePoint() {
    } else if a.IsSinglePoint() {
      ScaleByPointSound(b, a.min.e, y, env);
      TimesCommutes(x, y);
      assert CombineMul(a, b) == ScaleByPoint(b, a.min.e);
    } else if b.IsSinglePoint() {
      ScaleByPointSound(a, b.min.e, x, env);
    }
  }

  lemma {:induction false} CombineDivSound(a: Interval, b: Interval, x: int, y: int, env: Env)
    requires Tame(a) && Tame(b) && !a.IsEverything() && !b.IsEverything()
    requires In(x, a, env) && In(y, b, env)
    ensures Tame(CombineDiv(a, b)) && In(TruncDiv(x, y), CombineDiv(a, b), env)
  {
    if a.IsSinglePoint() && b.IsSinglePoint() {
    } else if b.IsSinglePoint() {
      ScaleDivSound(a, b.min.e, x, env);
    }
  }

  lemma {:induction false} CombineSound(op: Op, a: Interval, b: Interval, x: int, y: int, env: Env)
    requires Tame(a) && Tame(b) && In(x, a, env) && In(y, b, env)
    ensures Tame(Combine(op, a, b)) && In(Apply(op, x, y), Combine(op, a, b), env)
  {
    if IsComparison(op) {
      assert Eval(IntImm(0), env) == 0 && Eval(IntImm(1), env) == 1;
    } else if !a.IsEverything() && !b.IsEverything() {
      match op
      case Add => EvalComputeAdd(a.min.e, b.min.e, env); EvalComputeAdd(a.max.e, b.max.e, env);
      case Sub => EvalComputeSub(a.min.e, b.max.e, env); EvalComputeSub(a.max.e, b.min.e, env);
      case Mul => CombineMulSound(a, b, x, y, env);
      case Div => CombineDivSound(a, b, x, y, env);
      case _ =>
    }
  }

  lemma {:induction false} EvalSetTame(e: Expr, dom: DomMap)
    requires TameDom(dom)
    ensures Tame(EvalSet(e, dom))
  {
    match e
    case Bin(op, l, r) =>
      EvalSetTame(l, dom);
      EvalSetTame(r, dom);
    case _ =>
  }

  /** Evaluation over-approximates: with bounded domains, the value of e is always in its set. */
  lemma {:induction false} EvalSetSound(e: Expr, dom: DomMap, env: Env)
    requires TameDom(dom) && Respects(env, dom)
    ensures Tame(EvalSet(e, dom))
    ensures In(Eval(e, env), EvalSet(e, dom), env)
  {
    match e
    case Bin(op, l, r) =>
      EvalSetSound(l, dom, env);
      EvalSetSound(r, dom, env);
      CombineSound(op, EvalSet(l, dom), EvalSet(r, dom), Eval(l, env), Eval(r, env), env);
    case _ =>
  }

  /** Scaling by a negative constant swaps the ends without swapping the infinities, so a set with exactly one
      finite end becomes empty: the result contains every product exactly when both ends are finite
      or the scaled set is empty. */
  lemma {:induction false} NegativeScaleSoundIff(a: Interval, m: int)
    requires m < 0 && !a.IsSinglePoint() && !a.IsEverything()
    ensures (forall env: Env, x: int :: In(x, a, env) ==> In(x * m, CombineMul(a, SinglePoint(IntImm(m))), env))
       <==> (a.IsBounded() || a.IsEmpty())
  {
    var r := CombineMul(a, SinglePoint(IntImm(m)));
    if a.IsBounded() {
      forall env: Env, x: int | In(x, a, env) ensures In(x * m, r, env) {
        ScaleMulSound(a, IntImm(m), x, env);
      }
    } else if !a.IsEmpty() {
      var env: Env := map[];
      var x := if a.min.Fin? then Eval(a.min.e, env) else Eval(a.max.e, env);
      assert In(x, a, env) && !In(x * m, r, env);
    }
  }

  /** Division by a negative constant exchanges the ends in the same way, and is sound in the same cases. */
  lemma {:induction false} NegativeDivSoundIff(a: Interval, m: int)
    requires m < 0 && !a.IsSinglePoint() && !a.IsEverything()
    ensures (forall env: Env, x: int :: In(x, a, env) ==> In(TruncDiv(x, m), CombineDiv(a, SinglePoint(IntImm(m))), env))
       <==> (a.IsBounded() || a.IsEmpty())
  {
    hide TruncDiv;
    var r := CombineDiv(a, SinglePoint(IntImm(m)));
    if a.IsBounded() {
      forall env: Env, x: int | In(x, a, env) ensures In(TruncDiv(x, m), r, env) {
        ScaleDivSound(a, IntImm(m), x, env);
      }
    } else if !a.IsEmpty() {
      var env: Env := map[];
      var x := if a.min.Fin? then Eval(a.min.e, env) else Eval(a.max.e, env);
      assert In(x, a, env) && !In(TruncDiv(x, m), r, env);
    }
  }

  // ----- all intervals -----

  /** One finite end. */
  predicate HalfBounded(i: Interval) {
    (i.min.Fin? && i.max.PosInf?) || (i.min.NegInf? && i.max.Fin?)
  }

  predicate NegativePoint(i: Interval) {
    i.min.Fin? && i.min.e.IntImm? && i.min.e.value < 0 && i == SinglePoint(i.min.e)
  }

  /** A set with one finite end is multiplied with a negative constant, or divided by it. */
  predicate NegatesHalf(op: Op, a: Interval, b: Interval) {
    (op in {Mul, Div} && HalfBounded(a) && NegativePoint(b)) || (op == Mul && NegativePoint(a) && HalfBounded(b))
  }

  lemma {:induction false} ScaledHalf(a: Interval, m: Expr, e1: Bound, e2: Bound, lo: int, hi: int, z: int, env: Env)
    requires HalfBounded(a) && !(m.IntImm? && m.value < 0)
    requires e1 == a.min || (a.min.Fin? && e1.Fin? && Eval(e1.e, env) == lo)
    requires e2 == a.max || (a.max.Fin? && e2.Fin? && Eval(e2.e, env) == hi)
    requires e1.Fin? == a.min.Fin? && e2.Fin? == a.max.Fin?
    requires e1.Fin? && Eval(m, env) > 0 ==> Eval(e1.e, env) <= z
    requires e2.Fin? && Eval(m, env) > 0 ==> z <= Eval(e2.e, env)
    ensures In(z, Scaled(a, m, e1, e2), env)
  {
    if m.IntImm? && m.value > 0 {
      assert Eval(m, env) == m.value;
    }
  }

  lemma {:induction false} ScaleMulHalf(a: Interval, m: Expr, x: int, env: Env)
    requires HalfBounded(a) && In(x, a, env) && !(m.IntImm? && m.value < 0)
    ensures In(x * Eval(m, env), ScaleMul(a, m), env)
  {
    var v := Eval(m, env);
    if a.min.Fin? {
      Arithmetic.MulMonotone(Eval(a.min.e, env), x, v);
      ScaledHalf(a, m, Fin(ComputeMul(a.min.e, m)), a.max, Eval(ComputeMul(a.min.e, m), env), 0, x * v, env);
    } else {
      Arithmetic.MulMonotone(x, Eval(a.max.e, env), v);
      ScaledHalf(a, m, a.min, Fin(ComputeMul(a.max.e, m)), 0, Eval(ComputeMul(a.max.e, m), env), x * v, env);
    }
  }

  lemma {:induction false} ScaleDivHalf(a: Interval, m: Expr, x: int, env: Env)
    requires HalfBounded(a) && In(x, a, env) && !(m.IntImm? && m.value < 0)
    ensures In(TruncDiv(x, Eval(m, env)), ScaleDiv(a, m), env)
  {
    hide TruncDiv;
    var v := Eval(m, env);
    if a.min.Fin? {
      TruncDivMonotone(Eval(a.min.e, env), x, v);
      ComputeDivRight(a.min.e, m, env);
      ScaledHalf(a, m, Fin(ComputeDiv(a.min.e, m)), a.max, Eval(ComputeDiv(a.min.e, m), env), 0, TruncDiv(x, v), env);
    } else {
      TruncDivMonotone(x, Eval(a.max.e, env), v);
      ComputeDivRight(a.max.e, m, env);
      ScaledHalf(a, m, a.min, Fin(ComputeDiv(a.max.e, m)), 0, Eval(ComputeDiv(a.max.e, m), env), TruncDiv(x, v), env);
    }
  }

  lemma {:induction false} ComputeDivRight(a: Expr, b: Expr, env: Env)
    ensures Eval(ComputeDiv(a, b), env) == TruncDiv(Eval(a, env), Eval(b, env))
  {
  }

  lemma {:induction false} MulHalfSound(a: Interval, b: Interval, x: int, y: int, env: Env)
    requires HalfBounded(a) && !b.IsEverything() && In(x, a, env) && In(y, b, env) && !NegativePoint(b)
    ensures In(x * y, CombineMul(a, b), env) && In(y * x, CombineMul(b, a), env)
  {
    TimesCommutes(x, y);
    if b.IsSinglePoint() {
      var m := b.min.e;
      assert CombineMul(a, b) == CombineMul(b, a) == ScaleByPoint(a, m);
      if m == IntImm(0) || m == IntImm(1) {
        assert Eval(m, env) == m.value && Eval(IntImm(0), env) == 0;
      } else {
        ScaleMulHalf(a, m, x, env);
      }
    }
  }

  lemma {:induction false} DivHalfSound(a: Interval, b: Interval, x: int, y: int, env: Env)
    requires !a.IsEverything() && !b.IsEverything() && (HalfBounded(a) || HalfBounded(b)) && In(x, a, env) && In(y, b, env)
    requires !(HalfBounded(a) && NegativePoint(b))
    ensures In(TruncDiv(x, y), CombineDiv(a, b), env)
  {
    hide TruncDiv;
    if b.IsSinglePoint() {
      if b.min.e == IntImm(1) {
        DivByOne(x);
        assert Eval(b.min.e, env) == 1;
      } else {
        ScaleDivHalf(a, b.min.e, x, env);
      }
    }
  }

  lemma {:induction false} DivByOne(x: int)
    ensures TruncDiv(x, 1) == x
  {
  }

  /** For all intervals, finite or not, the combination contains the results of the operator, unless a set with one finite end is
      negated. */
  lemma {:induction false} CombineSoundAll(op: Op, a: Interval, b: Interval, x: int, y: int, env: Env)
    requires In(x, a, env) && In(y, b, env) && !NegatesHalf(op, a, b)
    ensures In(Apply(op, x, y), Combine(op, a, b), env)
  {
    hide CombineMul, CombineDiv, TruncDiv;
    if IsComparison(op) || (Tame(a) && Tame(b)) {
      if IsComparison(op) {
        assert Eval(IntImm(0), env) == 0 && Eval(IntImm(1), env) == 1;
      } else {
        CombineSound(op, a, b, x, y, env);
      }
    } else if !a.IsEverything() && !b.IsEverything() {
      assert (HalfBounded(a) || Tame(a)) && (HalfBounded(b) || Tame(b));
      match op
      case Mul =>
        if HalfBounded(a) {
          MulHalfSound(a, b, x, y, env);
        } else {
          MulHalfSound(b, a, y, x, env);
        }
      case Div => DivHalfSound(a, b, x, y, env);
      case _ => AddSoundAll(op, a, b, x, y, env);
    }
  }

  lemma {:induction false} AddSoundAll(op: Op, a: Interval, b: Interval, x: int, y: int, env: Env)
    requires op in {Add, Sub, Min, Max} && In(x, a, env) && In(y, b, env) && !a.IsEverything() && !b.IsEverything()
    ensures In(Apply(op, x, y), Combine(op, a, b), env)
  {
    match op
    case Add =>
      if a.min.Fin? && b.min.Fin? {
        EvalComputeAdd(a.min.e, b.min.e, env);
      }
      if a.max.Fin? && b.max.Fin? {
        EvalComputeAdd(a.max.e, b.max.e, env);
      }
    case Sub =>
      if a.min.Fin? && b.max.Fin? {
        EvalComputeSub(a.min.e, b.max.e, env);
      }
      if a.max.Fin? && b.min.Fin? {
        EvalComputeSub(a.max.e, b.min.e, env);
      }
    case _ =>
  }

  ghost predicate CombinesSoundly(op: Op, a: Interval, b: Interval) {
    forall env: Env, x: int, y: int :: In(x, a, env) && In(y, b, env) ==> In(Apply(op, x, y), Combine(op, a, b), env)
  }

  /** Negating a set with one finite end is the only way to go wrong, and it always does. */
  lemma {:induction false} CombineSoundIff(op: Op, a: Interval, b: Interval)
    ensures CombinesSoundly(op, a, b) <==> !NegatesHalf(op, a, b)
  {
    hide Combine;
    if !NegatesHalf(op, a, b) {
      forall env: Env, x: int, y: int | In(x, a, env) && In(y, b, env) ensures In(Apply(op, x, y), Combine(op, a, b), env) {
        CombineSoundAll(op, a, b, x, y, env);
      }
    } else if HalfBounded(a) {
      NegatedHalf(op, a, b);
    } else {
      NegatedHalf(op, b, a);
      if CombinesSoundly(op, a, b) {
        SwappedMul(a, b);
      }
    }
  }

  lemma {:induction false} SwappedMul(a: Interval, b: Interval)
    requires CombinesSoundly(Mul, a, b) && NegativePoint(a) && HalfBounded(b)
    ensures CombinesSoundly(Mul, b, a)
  {
    assert Combine(Mul, a, b) == Combine(Mul, b, a);
    forall env: Env, x: int, y: int | In(x, b, env) && In(y, a, env) ensures In(Apply(Mul, x, y), Combine(Mul, b, a), env) {
      TimesCommutes(x, y);
      assert In(Apply(Mul, y, x), Combine(Mul, a, b), env);
    }
  }

  lemma {:induction false} NegatedHalf(op: Op, a: Interval, b: Interval)
    requires op in {Mul, Div} && HalfBounded(a) && NegativePoint(b)
    ensures !CombinesSoundly(op, a, b)
  {
    hide TruncDiv;
    var m := b.min.e.value;
    assert b == SinglePoint(IntImm(m));
    var x := if a.min.Fin? then Eval(a.min.e, map[]) else Eval(a.max.e, map[]);
    assert In(x, a, map[]) && In(m, b, map[]);
    NegatedEmpty(op, a, m);
  }

  lemma {:induction false} NegatedEmpty(op: Op, a: Interval, m: int)
    requires op in {Mul, Div} && HalfBounded(a) && m < 0
    ensures var r := Combine(op, a, SinglePoint(IntImm(m))); r.min.PosInf? || r.max.NegInf?
  {
  }

  /** No operator of e negates a set with one finite end. */
  predicate NegatesNoHalf(e: Expr, dom: DomMap) {
    match e
    case Bin(op, l, r) =>
      var a, b := EvalSet(l, dom), EvalSet(r, dom);
      NegatesNoHalf(l, dom) && NegatesNoHalf(r, dom) && ((MatchPoint(a, l) && MatchPoint(b, r)) || !NegatesHalf(op, a, b))
    case _ => true
  }

  /** Evaluation over-approximates for all domains, finite or not, where no operator negates a set with one finite end. */
  lemma {:induction false} EvalSetSoundAll(e: Expr, dom: DomMap, env: Env)
    requires Respects(env, dom) && NegatesNoHalf(e, dom)
    ensures In(Eval(e, env), EvalSet(e, dom), env)
  {
    hide Combine;
    match e
    case Bin(op, l, r) =>
      EvalSetSoundAll(l, dom, env);
      EvalSetSoundAll(r, dom, env);
      if !(MatchPoint(EvalSet(l, dom), l) && MatchPoint(EvalSet(r, dom), r)) {
        CombineSoundAll(op, EvalSet(l, dom), EvalSet(r, dom), Eval(l, env), Eval(r, env), env);
      }
    case _ =>
  }

  // ----- no set is larger than it has to be -----

  /** The ends of a set of two bounded sets under these operators are attained; products and quotients need a single point. */
  predicate KeepsEnds(op: Op, a: Interval, b: Interval) {
    || op in {Add, Sub, Min, Max}
    || (op == Mul && (a.IsSinglePoint() || b.IsSinglePoint()))
    || (op == Div && b.IsSinglePoint())
  }

  predicate TwoEnds(i: Interval) {
    i.min.Fin? && i.max.Fin?
  }

  function EndOf(i: Interval, low: bool): Expr
    requires TwoEnds(i)
  {
    if low then i.min.e else i.max.e
  }

  /** Each end of the combination is the result of ends of the operands. */
  lemma {:induction false} EndsAttained(op: Op, a: Interval, b: Interval, low: bool, env: Env) returns (la: bool, lb: bool)
    requires TwoEnds(a) && TwoEnds(b) && KeepsEnds(op, a, b)
    ensures TwoEnds(Combine(op, a, b))
    ensures Apply(op, Eval(EndOf(a, la), env), Eval(EndOf(b, lb), env)) == Eval(EndOf(Combine(op, a, b), low), env)
  {
    hide TruncDiv;
    la, lb := low, low;
    match op
    case Add => EvalComputeAdd(EndOf(a, low), EndOf(b, low), env);
    case Sub =>
      lb := !low;
      EvalComputeSub(EndOf(a, low), EndOf(b, !low), env);
    case Mul =>
      if b.IsSinglePoint() {
        la := ScaledEnd(a, b.min.e, low, env);
        EvalComputeMul(a.min.e, b.min.e, env);
      } else {
        lb := ScaledEnd(b, a.min.e, low, env);
        TimesCommutes(Eval(EndOf(a, la), env), Eval(EndOf(b, lb), env));
      }
    case Div =>
      la := DividedEnd(a, b.min.e, low, env);
      ComputeDivRight(a.min.e, b.min.e, env);
    case _ =>
  }

  lemma {:induction false} EvalComputeMul(a: Expr, b: Expr, env: Env)
    ensures Eval(ComputeMul(a, b), env) == Eval(a, env) * Eval(b, env)
  {
    if a == IntImm(1) || b == IntImm(1) {
      assert Eval(IntImm(1), env) == 1;
    }
  }

  /** Scaling keeps the ends in their order or exchanges them. */
  lemma {:induction false} ScaledOrder(a: Interval, m: Expr, e1: Expr, e2: Expr, low: bool, env: Env) returns (kept: bool)
    requires TwoEnds(a)
    ensures var r := Scaled(a, m, Fin(e1), Fin(e2));
      TwoEnds(r) && Eval(EndOf(r, low), env) == Eval(if kept == low then e1 else e2, env)
  {
    if m.IntImm? && m.value != 0 {
      kept := m.value > 0;
    } else {
      kept := Eval(m, env) >= 0;
      EvalSelectSign(m, e1, e2, env);
      EvalSelectSign(m, e2, e1, env);
    }
  }

  lemma {:induction false} ScaledEnd(a: Interval, m: Expr, low: bool, env: Env) returns (la: bool)
    requires TwoEnds(a)
    ensures TwoEnds(ScaleByPoint(a, m))
    ensures Eval(EndOf(a, la), env) * Eval(m, env) == Eval(EndOf(ScaleByPoint(a, m), low), env)
  {
    la := low;
    if m == IntImm(0) || m == IntImm(1) {
      assert Eval(m, env) == m.value && Eval(IntImm(0), env) == 0;
    } else {
      var kept := ScaledOrder(a, m, ComputeMul(a.min.e, m), ComputeMul(a.max.e, m), low, env);
      la := kept == low;
      EvalComputeMul(EndOf(a, la), m, env);
    }
  }

  lemma {:induction false} DividedEnd(a: Interval, m: Expr, low: bool, env: Env) returns (la: bool)
    requires TwoEnds(a)
    ensures TwoEnds(CombineDiv(a, SinglePoint(m)))
    ensures TruncDiv(Eval(EndOf(a, la), env), Eval(m, env)) == Eval(EndOf(CombineDiv(a, SinglePoint(m)), low), env)
  {
    hide TruncDiv;
    la := low;
    if a.IsSinglePoint() {
      ComputeDivRight(a.min.e, m, env);
    } else if m == IntImm(1) {
      DivByOne(Eval(EndOf(a, la), env));
      assert Eval(m, env) == 1;
    } else {
      var kept := ScaledOrder(a, m, ComputeDiv(a.min.e, m), ComputeDiv(a.max.e, m), low, env);
      la := kept == low;
      ComputeDivRight(EndOf(a, la), m, env);
    }
  }

  /** Of bounded sets with values, the combination is in every interval that contains all the results. */
  lemma {:induction false} CombineLeast(op: Op, a: Interval, b: Interval, j: Interval, env: Env)
    requires TwoEnds(a) && TwoEnds(b) && KeepsEnds(op, a, b)
    requires Eval(a.min.e, env) <= Eval(a.max.e, env) && Eval(b.min.e, env) <= Eval(b.max.e, env)
    requires forall x, y | In(x, a, env) && In(y, b, env) :: In(Apply(op, x, y), j, env)
    ensures forall z | In(z, Combine(op, a, b), env) :: In(z, j, env)
  {
    hide Combine, Apply;
    var la1, lb1 := EndsAttained(op, a, b, true, env);
    var la2, lb2 := EndsAttained(op, a, b, false, env);
    assert In(Eval(EndOf(a, la1), env), a, env) && In(Eval(EndOf(b, lb1), env), b, env);
    assert In(Eval(EndOf(a, la2), env), a, env) && In(Eval(EndOf(b, lb2), env), b, env);
    assert In(Eval(Combine(op, a, b).min.e, env), j, env) && In(Eval(Combine(op, a, b).max.e, env), j, env);
  }

  /** Of any two sets with values, the combination under these operators is exactly the set of results. */
  lemma {:induction false} CombineExact(op: Op, a: Interval, b: Interval, x0: int, y0: int, z: int, env: Env)
    requires op in {Add, Sub, Min, Max} && In(x0, a, env) && In(y0, b, env)
    requires op in {Min, Max} ==> !a.IsEverything() && !b.IsEverything()
    ensures In(z, Combine(op, a, b), env) <==> exists x, y :: In(x, a, env) && In(y, b, env) && z == Apply(op, x, y)
  {
    hide Combine;
    if In(z, Combine(op, a, b), env) {
      var x, y := Operands(op, a, b, x0, y0, z, env);
      assert In(x, a, env) && In(y, b, env) && z == Apply(op, x, y);
    } else if x, y :| In(x, a, env) && In(y, b, env) && z == Apply(op, x, y) {
      CombineSoundAll(op, a, b, x, y, env);
    }
  }

  /** The set of a comparison has exactly the results of the comparison. */
  lemma {:induction false} ComparisonExact(op: Op, z: int, env: Env)
    requires IsComparison(op)
    ensures In(z, Combine(op, Everything, Everything), env) <==> exists x: int, y: int :: z == Apply(op, x, y)
  {
    assert Eval(IntImm(0), env) == 0 && Eval(IntImm(1), env) == 1;
    assert Apply(op, 0, 0) + Apply(op, 0, 1) + Apply(op, 1, 0) > 0;
    assert Apply(op, 0, 0) * Apply(op, 0, 1) * Apply(op, 1, 0) == 0;
  }

  lemma {:induction false} Operands(op: Op, a: Interval, b: Interval, x0: int, y0: int, z: int, env: Env) returns (x: int, y: int)
    requires op in {Add, Sub, Min, Max} && In(x0, a, env) && In(y0, b, env) && In(z, Combine(op, a, b), env)
    requires op in {Min, Max} ==> !a.IsEverything() && !b.IsEverything()
    ensures In(x, a, env) && In(y, b, env) && z == Apply(op, x, y)
  {
    match op
    case Add => x, y := Summands(a, b, x0, y0, z, env);
    case Sub => x, y := Differences(a, b, x0, y0, z, env);
    case Max =>
      if Above(z, a.min, env) && Below(z, a.max, env) {
        x, y := z, if z <= y0 then z else y0;
      } else {
        x, y := if z <= x0 then z else x0, z;
      }
    case _ =>
      if Above(z, a.min, env) && Below(z, a.max, env) {
        x, y := z, if z >= y0 then z else y0;
      } else {
        x, y := if z >= x0 then z else x0, z;
      }
  }

  /** x0 moved by the step, but not out of a. */
  function Moved(x0: int, step: int, a: Interval, env: Env): int {
    if step >= 0 then
      if a.max.Fin? && x0 + step > Eval(a.max.e, env) then Eval(a.max.e, env) else x0 + step
    else
      if a.min.Fin? && x0 + step < Eval(a.min.e, env) then Eval(a.min.e, env) else x0 + step
  }

  lemma {:induction false} Summands(a: Interval, b: Interval, x0: int, y0: int, z: int, env: Env) returns (x: int, y: int)
    requires In(x0, a, env) && In(y0, b, env) && In(z, Combine(Add, a, b), env)
    ensures In(x, a, env) && In(y, b, env) && z == x + y
  {
    x := Moved(x0, z - x0 - y0, a, env);
    y := z - x;
    if a.min.Fin? && b.min.Fin? {
      EvalComputeAdd(a.min.e, b.min.e, env);
    }
    if a.max.Fin? && b.max.Fin? {
      EvalComputeAdd(a.max.e, b.max.e, env);
    }
  }

  lemma {:induction false} Differences(a: Interval, b: Interval, x0: int, y0: int, z: int, env: Env) returns (x: int, y: int)
    requires In(x0, a, env) && In(y0, b, env) && In(z, Combine(Sub, a, b), env)
    ensures In(x, a, env) && In(y, b, env) && z == x - y
  {
    x := Moved(x0, z - x0 + y0, a, env);
    y := x - z;
    if a.min.Fin? && b.max.Fin? {
      EvalComputeSub(a.min.e, b.max.e, env);
    }
    if a.max.Fin? && b.min.Fin? {
      EvalComputeSub(a.max.e, b.min.e, env);
    }
  }

  // ----- remainders -----

  /** The set of remainders by the single point of b, or everything, where a has more than one point. */
  function CombineMod(a: Interval, b: Interval): Interval {
    if b.IsSinglePoint() && b.min.Fin? then Interval(Fin(IntImm(0)), Fin(ComputeSub(b.min.e, IntImm(1)))) else Everything
  }

  lemma {:induction false} RemainderSign(x: int, d: int)
    requires d > 0
    ensures x >= 0 ==> 0 <= TruncMod(x, d) < d
    ensures x < 0 ==> -d < TruncMod(x, d) <= 0 && (TruncMod(x, d) == 0 <==> -x % d == 0)
  {
    if x >= 0 {
      Arithmetic.DivTimes(x, d);
    } else {
      Arithmetic.DivTimes(-x, d);
    }
  }

  ghost predicate ModSound(lo: int, hi: int, d: int) {
    forall env: Env, x: int :: lo <= x <= hi ==> In(TruncMod(x, d), CombineMod(Interval(Fin(IntImm(lo)), Fin(IntImm(hi))), SinglePoint(IntImm(d))), env)
  }

  lemma {:induction false} InRemainders(x: int, lo: int, hi: int, d: int, env: Env)
    ensures In(TruncMod(x, d), CombineMod(Interval(Fin(IntImm(lo)), Fin(IntImm(hi))), SinglePoint(IntImm(d))), env) <==>
      0 <= TruncMod(x, d) < d
  {
    hide TruncMod;
    EvalComputeSub(IntImm(d), IntImm(1), env);
    assert Eval(IntImm(0), env) == 0 && Eval(IntImm(1), env) == 1 && Eval(IntImm(d), env) == d;
  }

  /** 0 .. d - 1 contains the remainders of a range of several numbers exactly if none of them is negative, or d is 1. */
  lemma {:induction false} ModSoundIff(lo: int, hi: int, d: int)
    requires lo < hi && d > 0
    ensures ModSound(lo, hi, d) <==> lo >= 0 || d == 1
  {
    hide TruncMod, CombineMod;
    if lo >= 0 || d == 1 {
      forall env: Env, x: int | lo <= x <= hi
        ensures In(TruncMod(x, d), CombineMod(Interval(Fin(IntImm(lo)), Fin(IntImm(hi))), SinglePoint(IntImm(d))), env)
      {
        InRemainders(x, lo, hi, d, env);
        RemainderSign(x, d);
      }
    } else {
      var x := if -lo % d == 0 then lo + 1 else lo;
      NextRemainder(-lo, d);
      RemainderSign(x, d);
      InRemainders(x, lo, hi, d, map[]);
    }
  }

  lemma {:induction false} NextRemainder(n: nat, d: nat)
    requires d > 1 && n > 0
    ensures n % d == 0 ==> n > 1 && (n - 1) % d != 0
  {
    if n % d == 0 {
      Arithmetic.DivTimes(n, d);
      Arithmetic.DivModUnique(n - 1, d, n / d - 1, d - 1);
    }
  }
}
