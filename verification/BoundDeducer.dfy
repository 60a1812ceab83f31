/** Deduction of a bound on one variable from a comparison (src/arithmetic/bound_deducer.cc). */
module BoundDeducer {
  import opened IntSet
  import Arithmetic

  datatype Sign = Positive | Negative | Zero | Unknown

  /** The simplifier is an oracle that keeps the value of every expression. */
  ghost predicate SoundSimplifier(simplify: Expr -> Expr) {
    forall e: Expr, env: Env :: Eval(simplify(e), env) == Eval(e, env)
  }

  function SignType(s: Interval, simplify: Expr -> Expr): Sign {
    if s.min.Fin? && simplify(s.min.e).IntImm? && simplify(s.min.e).value > 0 then Positive
    else if s.max.Fin? && simplify(s.max.e).IntImm? && simplify(s.max.e).value < 0 then Negative
    else if s == SinglePoint(IntImm(0)) then Zero
    else Unknown
  }

  /** The comparison x >= r, x > r, x <= r or x < r. */
  predicate Meets(greater: bool, equal: bool, x: int, r: int) {
    if greater then (if equal then x >= r else x > r)
    else (if equal then x <= r else x < r)
  }

  /** No divisor in e is 0: e has a value in C. */
  predicate Defined(e: Expr, env: Env) {
    match e
    case IntImm(_) => true
    case Variable(_) => true
    case Select(c, t, f) => Defined(c, env) && Defined(t, env) && Defined(f, env)
    case Bin(op, a, b) => Defined(a, env) && Defined(b, env) && (op == Div ==> Eval(b, env) != 0)
  }

  function GetPath(target: nat, e: Expr): (path: seq<Expr>)
    ensures path != [] ==> path[0] == e
  {
    if e == Variable(target) then [e]
    else match e
      case IntImm(_) => []
      case Variable(_) => []
      case Select(c, t, f) =>
        var p := GetPath(target, c);
        var q := if p != [] then p else GetPath(target, t);
        var r := if q != [] then q else GetPath(target, f);
        if r != [] then [e] + r else []
      case Bin(_, a, b) =>
        var p := GetPath(target, a);
        var q := if p != [] then p else GetPath(target, b);
        if q != [] then [e] + q else []
  }

  /** Under the hints, the comparison of x1 with r1 forces the comparison of x with r. */
  ghost predicate Entails(hint: DomMap, equal: bool, x1: Expr, greater1: bool, r1: Expr, x: Expr, greater: bool, r: Expr) {
    forall env: Env | Respects(env, hint) && Defined(r1, env) ::
      && Defined(r, env)
      && (Meets(greater1, equal, Eval(x1, env), Eval(r1, env)) ==> Meets(greater, equal, Eval(x, env), Eval(r, env)))
  }

  lemma {:induction false} EntailsTransitive(hint: DomMap, equal: bool, x2: Expr, g2: bool, r2: Expr, x1: Expr, g1: bool, r1: Expr, x: Expr, g: bool, r: Expr)
    requires Entails(hint, equal, x2, g2, r2, x1, g1, r1) && Entails(hint, equal, x1, g1, r1, x, g, r)
    ensures Entails(hint, equal, x2, g2, r2, x, g, r)
  {
  }

  /** Dividing a bound by a positive factor and moving one further away is enough for every rounding. */
  lemma {:induction false} QuotientBound(x: int, m: int, r: int)
    requires m > 0
    ensures x >= TruncDiv(r, m) + 1 ==> x * m >= r + 1
    ensures x <= TruncDiv(r, m) - 1 ==> x * m <= r - 1
  {
    var q := TruncDiv(r, m);
    assert q * m - m < r < q * m + m by {
      QuotientRemainder(r, m);
    }
    if x >= q + 1 {
      Arithmetic.MulMonotone(q + 1, x, m);
      assert (q + 1) * m == q * m + m;
    }
    if x <= q - 1 {
      Arithmetic.MulMonotone(x, q - 1, m);
      assert (q - 1) * m == q * m - m;
    }
  }

  lemma {:induction false} QuotientRemainder(r: int, m: int)
    requires m > 0
    ensures TruncDiv(r, m) * m - m < r < TruncDiv(r, m) * m + m
  {
    var k := Abs(r) / m;
    assert Abs(r) == k * m + Abs(r) % m;
    if r < 0 {
      assert TruncDiv(r, m) == -k;
      assert (-k) * m == -(k * m);
    }
  }

  lemma {:induction false} MulInversion(greater: bool, equal: bool, x: int, m: int, r: int)
    requires m != 0
    ensures var g1 := if m < 0 then !greater else greater;
            Meets(g1, equal, x, TruncDiv(r, m) + (if g1 then 1 else -1)) ==> Meets(greater, equal, x * m, r)
  {
    if m > 0 {
      QuotientBound(x, m, r);
    } else {
      TruncDivNegate(r, m);
      var q := TruncDiv(r, -m);
      QuotientBound(-x, -m, r);
      assert (-x) * (-m) == x * m;
    }
  }

  lemma {:induction false} MulStep(hint: DomMap, simplify: Expr -> Expr, equal: bool, child: Expr, operand: Expr, e: Expr, greater: bool, r: Expr)
    requires SoundSimplifier(simplify) && TameDom(hint)
    requires e == Bin(Mul, child, operand) || e == Bin(Mul, operand, child)
    requires SignType(EvalSet(operand, hint), simplify) != Unknown
    ensures var g1 := if SignType(EvalSet(operand, hint), simplify) == Negative then !greater else greater;
            Entails(hint, equal, child, g1, Bin(Add, Bin(Div, r, operand), IntImm(if g1 then 1 else -1)), e, greater, r)
  {
    var sign := SignType(EvalSet(operand, hint), simplify);
    var g1 := if sign == Negative then !greater else greater;
    var r1 := Bin(Add, Bin(Div, r, operand), IntImm(if g1 then 1 else -1));
    forall env: Env | Respects(env, hint) && Defined(r1, env)
      ensures Defined(r, env)
      ensures Meets(g1, equal, Eval(child, env), Eval(r1, env)) ==> Meets(greater, equal, Eval(e, env), Eval(r, env))
    {
      SignSound(operand, hint, simplify, env);
      assert Defined(Bin(Div, r, operand), env);
      var m, x, rv := Eval(operand, env), Eval(child, env), Eval(r, env);
      assert (sign == Negative) == (m < 0);
      MulInversion(greater, equal, x, m, rv);
      TimesCommutes(x, m);
      assert Eval(e, env) == x * m;
      EvalQuotient(r, operand, if g1 then 1 else -1, env);
    }
  }

  lemma {:induction false} EvalQuotient(r: Expr, m: Expr, k: int, env: Env)
    ensures Eval(Bin(Add, Bin(Div, r, m), IntImm(k)), env) == TruncDiv(Eval(r, env), Eval(m, env)) + k
  {
    assert Eval(Bin(Div, r, m), env) == TruncDiv(Eval(r, env), Eval(m, env));
    assert Eval(IntImm(k), env) == k;
  }

  lemma {:induction false} SignSound(e: Expr, hint: DomMap, simplify: Expr -> Expr, env: Env)
    requires SoundSimplifier(simplify) && TameDom(hint) && Respects(env, hint)
    ensures match SignType(EvalSet(e, hint), simplify)
            case Positive => Eval(e, env) > 0
            case Negative => Eval(e, env) < 0
            case Zero => Eval(e, env) == 0
            case Unknown => true
  {
    EvalSetSound(e, hint, env);
    var s := EvalSet(e, hint);
    if s.min.Fin? {
      assert Eval(simplify(s.min.e), env) == Eval(s.min.e, env);
    }
    if s.max.Fin? {
      assert Eval(simplify(s.max.e), env) == Eval(s.max.e, env);
    }
  }

  /** If the simplifier leaves numbers alone, the sign of a range of numbers is known exactly if it does not have 0 with another number. */
  lemma {:induction false} SignOfRange(lo: int, hi: int, simplify: Expr -> Expr)
    requires lo <= hi && simplify(IntImm(lo)) == IntImm(lo) && simplify(IntImm(hi)) == IntImm(hi)
    ensures SignType(Interval(Fin(IntImm(lo)), Fin(IntImm(hi))), simplify) ==
      if lo > 0 then Positive else if hi < 0 then Negative else if lo == hi then Zero else Unknown
  {
  }

  lemma {:induction false} AddStep(hint: DomMap, equal: bool, a: Expr, b: Expr, left: bool, greater: bool, r: Expr)
    ensures Entails(hint, equal, if left then a else b, greater, Bin(Sub, r, if left then b else a), Bin(Add, a, b), greater, r)
  {
  }

  lemma {:induction false} SubStep(hint: DomMap, equal: bool, a: Expr, b: Expr, left: bool, greater: bool, r: Expr)
    ensures left ==> Entails(hint, equal, a, greater, Bin(Add, r, b), Bin(Sub, a, b), greater, r)
    ensures !left ==> Entails(hint, equal, b, !greater, Bin(Sub, IntImm(0), Bin(Sub, r, a)), Bin(Sub, a, b), greater, r)
  {
    forall env: Env ensures Eval(Bin(Sub, IntImm(0), Bin(Sub, r, a)), env) == Eval(a, env) - Eval(r, env) {
      assert Eval(IntImm(0), env) == 0;
      assert Eval(Bin(Sub, r, a), env) == Eval(r, env) - Eval(a, env);
    }
  }

  /** The operators that the deduction inverts. */
  predicate IsPathOp(e: Expr) {
    e.Bin? && (e.op == Add || e.op == Sub || e.op == Mul)
  }

  /** Down through Add, Sub and Mul, the target is on one side only. */
  predicate Spine(target: nat, e: Expr) {
    IsPathOp(e) ==>
      (Count(target, e.a) == 0 && Spine(target, e.b)) || (Count(target, e.b) == 0 && Spine(target, e.a))
  }

  lemma {:induction false} CountMoved(r: Expr, x: Expr, k: int)
    ensures forall y: nat {:trigger Count(y, r)} ::
      && Count(y, Bin(Sub, r, x)) == Count(y, r) + Count(y, x)
      && Count(y, Bin(Add, r, x)) == Count(y, r) + Count(y, x)
      && Count(y, Bin(Sub, IntImm(0), Bin(Sub, r, x))) == Count(y, r) + Count(y, x)
      && Count(y, Bin(Add, Bin(Div, r, x), IntImm(k))) == Count(y, r) + Count(y, x)
  {
    forall y: nat
      ensures Count(y, Bin(Sub, IntImm(0), Bin(Sub, r, x))) == Count(y, r) + Count(y, x)
      ensures Count(y, Bin(Add, Bin(Div, r, x), IntImm(k))) == Count(y, r) + Count(y, x)
    {
      assert Count(y, Bin(Sub, r, x)) == Count(y, r) + Count(y, x);
      assert Count(y, Bin(Div, r, x)) == Count(y, r) + Count(y, x);
      assert Count(y, IntImm(0)) == 0 && Count(y, IntImm(k)) == 0;
    }
  }

  /** r1 mentions the target only if r or both sides of an operator on the path do, and nothing but what e and r mention. */
  ghost predicate CountsKept(target: nat, e: Expr, r: Expr, r1: Expr) {
    && Count(target, e) > 0
    && (Spine(target, e) && Count(target, r) == 0 ==> Count(target, r1) == 0)
    && (forall y: nat | y != target && Count(y, e) == 0 && Count(y, r) == 0 :: Count(y, r1) == 0)
  }

  lemma {:induction false} CountsThrough(target: nat, e: Expr, x: Expr, operand: Expr, r: Expr, r1: Expr, r2: Expr)
    requires IsPathOp(e)
    requires (e.a == x && e.b == operand) || (e.a == operand && e.b == x)
    requires forall y: nat {:trigger Count(y, r)} :: Count(y, r1) == Count(y, r) + Count(y, operand)
    requires CountsKept(target, x, r1, r2)
    ensures CountsKept(target, e, r, r2)
  {
    assert Count(target, e) > 0 by {
      CountOperands(target, e);
    }
    if Spine(target, e) && Count(target, r) == 0 {
      CountsThroughTarget(target, e, x, operand, r, r1, r2);
    }
    forall y: nat | y != target && Count(y, e) == 0 && Count(y, r) == 0 ensures Count(y, r2) == 0 {
      CountOperands(y, e);
      assert Count(y, r1) == 0;
    }
  }

  lemma {:induction false} CountsThroughTarget(target: nat, e: Expr, x: Expr, operand: Expr, r: Expr, r1: Expr, r2: Expr)
    requires IsPathOp(e)
    requires (e.a == x && e.b == operand) || (e.a == operand && e.b == x)
    requires Count(target, r1) == Count(target, r) + Count(target, operand)
    requires CountsKept(target, x, r1, r2)
    requires Spine(target, e) && Count(target, r) == 0
    ensures Count(target, r2) == 0
  {
    SpineOperands(target, e, x, operand);
  }

  /** The comparison of the target with r1 is a sound replacement for the comparison of e with r. */
  ghost predicate Isolated(target: nat, hint: DomMap, equal: bool, e: Expr, g: bool, r: Expr, g1: bool, r1: Expr) {
    Entails(hint, equal, Variable(target), g1, r1, e, g, r) && CountsKept(target, e, r, r1)
  }

  lemma {:induction false} IsolatedThrough(target: nat, hint: DomMap, equal: bool, e: Expr, x: Expr, operand: Expr,
                        g: bool, r: Expr, g1: bool, r1: Expr, g2: bool, r2: Expr)
    requires IsPathOp(e)
    requires (e.a == x && e.b == operand) || (e.a == operand && e.b == x)
    requires Entails(hint, equal, x, g1, r1, e, g, r)
    requires forall y: nat {:trigger Count(y, r)} :: Count(y, r1) == Count(y, r) + Count(y, operand)
    requires Isolated(target, hint, equal, x, g1, r1, g2, r2)
    ensures Isolated(target, hint, equal, e, g, r, g2, r2)
  {
    assert Entails(hint, equal, Variable(target), g2, r2, e, g, r) by {
      EntailsTransitive(hint, equal, Variable(target), g2, r2, x, g1, r1, e, g, r);
    }
    CountsThrough(target, e, x, operand, r, r1, r2);
  }

  lemma {:induction false} SpineOperands(target: nat, e: Expr, x: Expr, operand: Expr)
    requires IsPathOp(e)
    requires (e.a == x && e.b == operand) || (e.a == operand && e.b == x)
    requires Spine(target, e) && Count(target, x) > 0
    ensures Spine(target, x) && Count(target, operand) == 0
  {
  }

  lemma {:induction false} CountOperands(y: nat, e: Expr)
    requires IsPathOp(e)
    ensures Count(y, e) == Count(y, e.a) + Count(y, e.b)
  {
  }

  // ----- which variables the bound mentions -----

  function Mentions(y: nat, b: Bound): nat {
    if b.Fin? then Count(y, b.e) else 0
  }

  ghost predicate Absent(y: nat, dom: DomMap) {
    forall x <- dom :: Mentions(y, dom[x].min) == 0 && Mentions(y, dom[x].max) == 0
  }

  lemma {:induction false} ComputeCount(y: nat, a: Expr, b: Expr)
    requires Count(y, a) == Count(y, b) == 0
    ensures Count(y, ComputeAdd(a, b)) == Count(y, ComputeSub(a, b)) == 0
    ensures Count(y, ComputeMul(a, b)) == Count(y, ComputeDiv(a, b)) == 0
  {
  }

  lemma {:induction false} ScaledCount(y: nat, a: Interval, m: Expr, e1: Bound, e2: Bound)
    requires a.IsBounded() ==> e1.Fin? && e2.Fin?
    requires Count(y, m) == Mentions(y, e1) == Mentions(y, e2) == 0
    ensures Mentions(y, Scaled(a, m, e1, e2).min) == 0 && Mentions(y, Scaled(a, m, e1, e2).max) == 0
  {
    assert Count(y, Bin(GE, m, IntImm(0))) == 0 by {
      assert Count(y, IntImm(0)) == 0;
    }
  }

  lemma {:induction false} ScaleByCount(y: nat, a: Interval, m: Expr)
    requires Tame(a) && Count(y, m) == Mentions(y, a.min) == Mentions(y, a.max) == 0
    ensures Mentions(y, ScaleByPoint(a, m).min) == 0 && Mentions(y, ScaleByPoint(a, m).max) == 0
    ensures Mentions(y, ScaleDiv(a, m).min) == 0 && Mentions(y, ScaleDiv(a, m).max) == 0
  {
    if a.min.Fin? {
      ComputeCount(y, a.min.e, m);
      ComputeCount(y, a.max.e, m);
      ScaledCount(y, a, m, Fin(ComputeMul(a.min.e, m)), Fin(ComputeMul(a.max.e, m)));
      ScaledCount(y, a, m, Fin(ComputeDiv(a.min.e, m)), Fin(ComputeDiv(a.max.e, m)));
    } else {
      ScaledCount(y, a, m, a.min, a.max);
    }
  }

  lemma {:induction false} CombineCount(y: nat, op: Op, a: Interval, b: Interval)
    requires Tame(a) && Tame(b)
    requires Mentions(y, a.min) == Mentions(y, a.max) == Mentions(y, b.min) == Mentions(y, b.max) == 0
    ensures Mentions(y, Combine(op, a, b).min) == 0 && Mentions(y, Combine(op, a, b).max) == 0
  {
    if !IsComparison(op) && !a.IsEverything() && !b.IsEverything() {
      ComputeCount(y, a.min.e, b.min.e);
      ComputeCount(y, a.max.e, b.max.e);
      ComputeCount(y, a.min.e, b.max.e);
      ComputeCount(y, a.max.e, b.min.e);
      ScaleByCount(y, a, b.min.e);
      ScaleByCount(y, b, a.min.e);
    }
  }

  /** A variable that e has not, or that is relaxed away, is in no end of the set of e. */
  lemma {:induction false} EvalSetCount(y: nat, e: Expr, dom: DomMap)
    requires TameDom(dom) && Absent(y, dom)
    requires Count(y, e) == 0 || y in dom
    ensures Mentions(y, EvalSet(e, dom).min) == 0 && Mentions(y, EvalSet(e, dom).max) == 0
  {
    match e
    case Bin(op, l, r) =>
      EvalSetCount(y, l, dom);
      EvalSetCount(y, r, dom);
      EvalSetTame(l, dom);
      EvalSetTame(r, dom);
      CombineCount(y, op, EvalSet(l, dom), EvalSet(r, dom));
    case _ =>
  }

  /** With at most one occurrence of the target, the ends of the set keep it on one side all the way down. */
  lemma {:induction false} EvalSetSpine(v: nat, e: Expr, dom: DomMap)
    requires TameDom(dom) && Absent(v, dom) && Count(v, e) <= 1
    ensures var i := EvalSet(e, dom);
            (i.min.Fin? ==> Spine(v, i.min.e)) && (i.max.Fin? ==> Spine(v, i.max.e))
  {
    match e
    case Bin(op, l, r) =>
      var a, b := EvalSet(l, dom), EvalSet(r, dom);
      EvalSetTame(l, dom);
      EvalSetTame(r, dom);
      EvalSetSpine(v, l, dom);
      EvalSetSpine(v, r, dom);
      if Count(v, l) == 0 {
        EvalSetCount(v, l, dom);
      } else {
        EvalSetCount(v, r, dom);
      }
      SpineOfCount(v, e);
      CombineSpine(v, op, a, b);
    case Variable(x) =>
      if x in dom && dom[x] != Everything {
        SpineOfCount(v, dom[x].min.e);
        SpineOfCount(v, dom[x].max.e);
      }
    case _ =>
  }

  lemma {:induction false} SpineOfCount(v: nat, e: Expr)
    requires Count(v, e) <= 1
    ensures Spine(v, e)
  {
    match e
    case Bin(_, l, r) =>
      SpineOfCount(v, l);
      SpineOfCount(v, r);
    case _ =>
  }

  predicate SpineBound(v: nat, b: Bound) {
    b.Fin? ==> Spine(v, b.e)
  }

  predicate EndsFree(v: nat, i: Interval) {
    Mentions(v, i.min) == 0 && Mentions(v, i.max) == 0
  }

  lemma {:induction false} ComputeSpine(v: nat, a: Expr, b: Expr)
    requires Spine(v, a) && Spine(v, b) && (Count(v, a) == 0 || Count(v, b) == 0)
    ensures Spine(v, ComputeAdd(a, b)) && Spine(v, ComputeSub(a, b)) && Spine(v, ComputeMul(a, b)) && Spine(v, ComputeDiv(a, b))
  {
  }

  lemma {:induction false} ScaleSpine(v: nat, a: Interval, m: Expr)
    requires a.min.Fin? && a.max.Fin?
    requires Spine(v, a.min.e) && Spine(v, a.max.e) && Spine(v, m)
    requires EndsFree(v, a) || Count(v, m) == 0
    ensures SpineBound(v, ScaleByPoint(a, m).min) && SpineBound(v, ScaleByPoint(a, m).max)
    ensures SpineBound(v, ScaleDiv(a, m).min) && SpineBound(v, ScaleDiv(a, m).max)
  {
    ComputeSpine(v, a.min.e, m);
    ComputeSpine(v, a.max.e, m);
  }

  lemma {:induction false} CombineSpine(v: nat, op: Op, a: Interval, b: Interval)
    requires Tame(a) && Tame(b)
    requires SpineBound(v, a.min) && SpineBound(v, a.max) && SpineBound(v, b.min) && SpineBound(v, b.max)
    requires EndsFree(v, a) || EndsFree(v, b)
    ensures SpineBound(v, Combine(op, a, b).min) && SpineBound(v, Combine(op, a, b).max)
  {
    hide ComputeAdd, ComputeSub, ComputeMul, ComputeDiv, ScaleByPoint, ScaleDiv;
    if !IsComparison(op) && !a.IsEverything() && !b.IsEverything() {
      ComputeSpine(v, a.min.e, b.min.e);
      ComputeSpine(v, a.max.e, b.max.e);
      ComputeSpine(v, a.min.e, b.max.e);
      ComputeSpine(v, a.max.e, b.min.e);
      ScaleSpine(v, a, b.min.e);
      ScaleSpine(v, b, a.min.e);
    }
  }

  /** The operators from e down to the target can all be inverted: the sign of every multiplier is known. */
  predicate Invertible(target: nat, e: Expr, hint: DomMap, simplify: Expr -> Expr) {
    || e == Variable(target)
    || (IsPathOp(e) &&
        var left := GetPath(target, e.a) != [];
        && (e.op == Mul ==> SignType(EvalSet(if left then e.b else e.a, hint), simplify) != Unknown)
        && Invertible(target, if left then e.a else e.b, hint, simplify))
  }

  /** On the path, the next expression is the operand with the target. */
  lemma {:induction false} PathStep(target: nat, e: Expr, path: seq<Expr>, iter: nat)
    requires IsPathOp(e) && iter <= |path| && GetPath(target, e) != [] && path[iter..] == GetPath(target, e)[1..]
    ensures (iter < |path| && path[iter] == e.a) <==> GetPath(target, e.a) != []
    ensures var child := if GetPath(target, e.a) != [] then e.a else e.b; path[iter..] == GetPath(target, child) && GetPath(target, child) != []
  {
    var child := if GetPath(target, e.a) != [] then e.a else e.b;
    assert path[iter..] == GetPath(target, child);
    assert iter < |path| && path[iter] == path[iter..][0];
  }

  /** A comparison: with what, and in which direction. */
  datatype Against = Against(greater: bool, r: Expr)

  /** The comparison of the target that the inversion of all operators from e down to it makes of one of e. */
  function Inverted(target: nat, e: Expr, c: Against, hint: DomMap, simplify: Expr -> Expr): Against
    decreases e
  {
    if e == Variable(target) || !IsPathOp(e) then c
    else
      var left := GetPath(target, e.a) != [];
      var child, operand := if left then e.a else e.b, if left then e.b else e.a;
      Inverted(target, child, InvertedOnce(e.op, left, operand, c, hint, simplify), hint, simplify)
  }

  function InvertedOnce(op: Op, left: bool, operand: Expr, c: Against, hint: DomMap, simplify: Expr -> Expr): Against {
    if op == Add then Against(c.greater, Bin(Sub, c.r, operand))
    else if op == Sub then
      if left then Against(c.greater, Bin(Add, c.r, operand))
      else Against(!c.greater, Bin(Sub, IntImm(0), Bin(Sub, c.r, operand)))
    else
      var g := if SignType(EvalSet(operand, hint), simplify) == Negative then !c.greater else c.greater;
      Against(g, Bin(Add, Bin(Div, c.r, operand), IntImm(if g then 1 else -1)))
  }

  /** Exactly the conditions from which a bound is deduced. */
  predicate Deducible(target: nat, cond: Expr, hint: DomMap, relax: DomMap, simplify: Expr -> Expr) {
    && cond.Bin? && (cond.op == LT || cond.op == LE || cond.op == GT || cond.op == GE)
    && Count(target, cond) == 1
    && EvalSet(cond.a, relax) != Everything && EvalSet(cond.b, relax) != Everything
    && var left := if cond.op == GT || cond.op == GE then EvalSet(cond.a, relax).min else EvalSet(cond.a, relax).max;
    && left.Fin? && GetPath(target, left.e) != [] && Invertible(target, left.e, hint, simplify)
  }

  /** The side with the target and the bound, where the comparison is hardest over the relaxed variables. */
  function HardestSide(cond: Expr, relax: DomMap): Expr
    requires cond.Bin?
  {
    var a := EvalSet(cond.a, relax);
    var end := if cond.op == GT || cond.op == GE then a.min else a.max;
    if end.Fin? then end.e else cond.a
  }

  function HardestBound(cond: Expr, relax: DomMap): Expr
    requires cond.Bin?
  {
    var b := EvalSet(cond.b, relax);
    var end := if cond.op == GT || cond.op == GE then b.max else b.min;
    if end.Fin? then end.e else cond.b
  }

  /** What is deduced about the target. */
  function Deduced(target: nat, cond: Expr, hint: DomMap, relax: DomMap, simplify: Expr -> Expr): Against
    requires cond.Bin?
  {
    var c := Against(cond.op == GT || cond.op == GE, HardestBound(cond, relax));
    Inverted(target, HardestSide(cond, relax), c, hint, simplify)
  }

  lemma {:induction false} MulIsolated(target: nat, hint: DomMap, simplify: Expr -> Expr, equal: bool, child: Expr, operand: Expr, e: Expr,
                                       g: bool, r: Expr, g2: bool, r2: Expr)
    requires SoundSimplifier(simplify) && TameDom(hint)
    requires e == Bin(Mul, child, operand) || e == Bin(Mul, operand, child)
    requires SignType(EvalSet(operand, hint), simplify) != Unknown
    requires var c := InvertedOnce(Mul, e.a == child, operand, Against(g, r), hint, simplify);
      Isolated(target, hint, equal, child, c.greater, c.r, g2, r2)
    ensures Isolated(target, hint, equal, e, g, r, g2, r2)
  {
    hide SignType, EvalSet, Isolated, Entails, CountsKept, SoundSimplifier, TameDom;
    var c := InvertedOnce(Mul, e.a == child, operand, Against(g, r), hint, simplify);
    MulStep(hint, simplify, equal, child, operand, e, g, r);
    CountMoved(r, operand, if c.greater then 1 else -1);
    IsolatedThrough(target, hint, equal, e, child, operand, g, r, c.greater, c.r, g2, r2);
  }

  class Deducer {
    const target: nat
    const hint: DomMap
    const relax: DomMap
    const simplify: Expr -> Expr
    var expr: Expr
    var result: Expr
    var isGreater: bool
    var isEqual: bool
    var success: bool
    var path: seq<Expr>
    var iter: nat

    constructor (target: nat, cond: Expr, hint: DomMap, relax: DomMap, simplify: Expr -> Expr)
      ensures this.target == target && expr == cond && this.hint == hint && this.relax == relax && this.simplify == simplify
      ensures success
    {
      this.target, this.expr, this.hint, this.relax, this.simplify := target, cond, hint, relax, simplify;
      result, isGreater, isEqual, success, path, iter := IntImm(0), true, true, true, [], 0;
    }

    /** Splits the comparison into the side with the target, the bound and its direction. */
    method Transform()
      modifies `expr, `result, `isGreater, `isEqual, `success
      ensures success ==> old(success)
      ensures old(success) ==> (success <==>
        old(expr).Bin? && (old(expr).op == LT || old(expr).op == LE || old(expr).op == GT || old(expr).op == GE))
      ensures success ==> old(expr).Bin? && expr == old(expr).a && result == old(expr).b
      ensures success ==> isGreater == (old(expr).op == GT || old(expr).op == GE) && isEqual == (old(expr).op in {LE, GE})
      ensures success ==> forall env: Env ::
        (Eval(old(expr), env) != 0) == Meets(isGreater, isEqual, Eval(expr, env), Eval(result, env))
    {
      if expr.Bin? && expr.op == LT {
        isGreater, isEqual, result, expr := false, false, expr.b, expr.a;
      } else if expr.Bin? && expr.op == LE {
        isGreater, isEqual, result, expr := false, true, expr.b, expr.a;
      } else if expr.Bin? && expr.op == GT {
        isGreater, isEqual, result, expr := true, false, expr.b, expr.a;
      } else if expr.Bin? && expr.op == GE {
        isGreater, isEqual, result, expr := true, true, expr.b, expr.a;
      } else {
        success := false;
      }
    }

    /** Replaces both sides by the ends that make the comparison hardest over the relaxed variables. */
    method Relax()
      requires TameDom(relax)
      modifies `expr, `result, `success
      ensures success ==> old(success)
      ensures old(success) ==> (success <==> EvalSet(old(expr), relax) != Everything && EvalSet(old(result), relax) != Everything)
      ensures success ==>
        var a, b := EvalSet(old(expr), relax), EvalSet(old(result), relax);
        Fin(expr) == (if isGreater then a.min else a.max) && Fin(result) == (if isGreater then b.max else b.min)
      ensures success ==> forall env: Env | Respects(env, relax) ::
        Meets(isGreater, isEqual, Eval(expr, env), Eval(result, env)) ==>
        Meets(isGreater, isEqual, Eval(old(expr), env), Eval(old(result), env))
    {
      var a, b := EvalSet(expr, relax), EvalSet(result, relax);
      if a.IsEverything() || b.IsEverything() {
        success := false;
        return;
      }
      forall env: Env | Respects(env, relax)
        ensures Tame(a) && Tame(b) && In(Eval(expr, env), a, env) && In(Eval(result, env), b, env)
      {
        EvalSetSound(expr, relax, env);
        EvalSetSound(result, relax, env);
      }
      EvalSetTame(expr, relax);
      EvalSetTame(result, relax);
      expr, result := if isGreater then a.min.e else a.max.e, if isGreater then b.max.e else b.min.e;
    }

    /** The rest of the path leads from e to the target. */
    ghost predicate OnPath(e: Expr)
      reads this
    {
      iter <= |path| && path[iter..] == GetPath(target, e) && GetPath(target, e) != []
    }

    /** Moves everything but the target from the left side into the bound, following the path to the target. */
    method Visit(e: Expr)
      requires SoundSimplifier(simplify) && TameDom(hint)
      modifies `result, `isGreater, `success, `iter
      ensures success ==> old(success) && Isolated(target, hint, isEqual, e, old(isGreater), old(result), isGreater, result)
      ensures old(success && OnPath(e)) ==> (success <==> Invertible(target, e, hint, simplify))
      ensures old(success && OnPath(e)) && success ==>
        Against(isGreater, result) == Inverted(target, e, Against(old(isGreater), old(result)), hint, simplify)
      decreases e, 1
    {
      if !success {
        return;
      }
      if !(iter < |path| && path[iter] == e) {
        iter, success := iter + 1, false;
        return;
      }
      iter := iter + 1;
      match e
      case Variable(x) =>
        success := x == target;
      case Bin(op, _, _) =>
        if op == Add {
          VisitAdd(e);
        } else if op == Sub {
          VisitSub(e);
        } else if op == Mul {
          VisitMul(e);
        } else {
          success := false;
        }
      case _ => success := false;
    }

    method VisitAdd(e: Expr)
      requires SoundSimplifier(simplify) && TameDom(hint) && e.Bin? && e.op == Add
      requires iter <= |path|
      modifies `result, `isGreater, `success, `iter
      ensures success ==> old(success) && Isolated(target, hint, isEqual, e, old(isGreater), old(result), isGreater, result)
      ensures old(success && GetPath(target, e) != [] && path[iter..] == GetPath(target, e)[1..]) ==> (success <==> Invertible(target, e, hint, simplify))
      ensures old(success && GetPath(target, e) != [] && path[iter..] == GetPath(target, e)[1..]) && success ==>
        Against(isGreater, result) == Inverted(target, e, Against(old(isGreater), old(result)), hint, simplify)
      decreases e, 0
    {
      hide GetPath, SignType, EvalSet, Isolated, Entails, CountsKept, SoundSimplifier, TameDom;
      if GetPath(target, e) != [] && path[iter..] == GetPath(target, e)[1..] {
        PathStep(target, e, path, iter);
      }
      var left := iter < |path| && path[iter] == e.a;
      var operand := if left then e.b else e.a;
      ghost var g, r := isGreater, result;
      result := Bin(Sub, result, operand);
      AddStep(hint, isEqual, e.a, e.b, left, g, r);
      CountMoved(r, operand, 0);
      ghost var r1 := result;
      Visit(if left then e.a else e.b);
      if success {
        IsolatedThrough(target, hint, isEqual, e, if left then e.a else e.b, operand, g, r, g, r1, isGreater, result);
      }
    }

    method VisitSub(e: Expr)
      requires SoundSimplifier(simplify) && TameDom(hint) && e.Bin? && e.op == Sub
      requires iter <= |path|
      modifies `result, `isGreater, `success, `iter
      ensures success ==> old(success) && Isolated(target, hint, isEqual, e, old(isGreater), old(result), isGreater, result)
      ensures old(success && GetPath(target, e) != [] && path[iter..] == GetPath(target, e)[1..]) ==> (success <==> Invertible(target, e, hint, simplify))
      ensures old(success && GetPath(target, e) != [] && path[iter..] == GetPath(target, e)[1..]) && success ==>
        Against(isGreater, result) == Inverted(target, e, Against(old(isGreater), old(result)), hint, simplify)
      decreases e, 0
    {
      hide GetPath, SignType, EvalSet, Isolated, Entails, CountsKept, SoundSimplifier, TameDom;
      if GetPath(target, e) != [] && path[iter..] == GetPath(target, e)[1..] {
        PathStep(target, e, path, iter);
      }
      var left := iter < |path| && path[iter] == e.a;
      ghost var g, r := isGreater, result;
      if left {
        result := Bin(Add, result, e.b);
      } else {
        result := Bin(Sub, result, e.a);
        result := Bin(Sub, IntImm(0), result);
        isGreater := !isGreater;
      }
      SubStep(hint, isEqual, e.a, e.b, left, g, r);
      CountMoved(r, if left then e.b else e.a, 0);
      ghost var g1, r1 := isGreater, result;
      Visit(if left then e.a else e.b);
      if success {
        IsolatedThrough(target, hint, isEqual, e, if left then e.a else e.b, if left then e.b else e.a, g, r, g1, r1, isGreater, result);
      }
    }

    method VisitMul(e: Expr)
      requires SoundSimplifier(simplify) && TameDom(hint) && e.Bin? && e.op == Mul
      requires iter <= |path|
      modifies `result, `isGreater, `success, `iter
      ensures success ==> old(success) && Isolated(target, hint, isEqual, e, old(isGreater), old(result), isGreater, result)
      ensures old(success && GetPath(target, e) != [] && path[iter..] == GetPath(target, e)[1..]) ==> (success <==> Invertible(target, e, hint, simplify))
      ensures old(success && GetPath(target, e) != [] && path[iter..] == GetPath(target, e)[1..]) && success ==>
        Against(isGreater, result) == Inverted(target, e, Against(old(isGreater), old(result)), hint, simplify)
      decreases e, 0
    {
      hide GetPath, SignType, EvalSet, Isolated, Entails, CountsKept, SoundSimplifier, TameDom;
      if GetPath(target, e) != [] && path[iter..] == GetPath(target, e)[1..] {
        PathStep(target, e, path, iter);
      }
      var left := iter < |path| && path[iter] == e.a;
      var operand := if left then e.b else e.a;
      var sign := SignType(EvalSet(operand, hint), simplify);
      ghost var g, r := isGreater, result;
      if sign == Negative {
        isGreater := !isGreater;
      } else if sign == Unknown {
        success := false;
        return;
      }
      result := Bin(Add, Bin(Div, result, operand), IntImm(if isGreater then 1 else -1));
      ghost var c := InvertedOnce(Mul, left, operand, Against(g, r), hint, simplify);
      assert Against(isGreater, result) == c;
      Visit(if left then e.a else e.b);
      if success {
        MulIsolated(target, hint, simplify, isEqual, if left then e.a else e.b, operand, e, g, r, isGreater, result);
      }
    }

    method Deduce()
      requires SoundSimplifier(simplify) && TameDom(hint) && TameDom(relax)
      modifies this
      ensures old(success) ==> (success <==> Deducible(target, old(expr), hint, relax, simplify))
      ensures success ==> Forces(target, old(expr), hint, relax, isGreater, isEqual, result)
      ensures success ==> old(expr).Bin? && isEqual == (old(expr).op in {LE, GE})
      ensures success ==> Against(isGreater, result) == Deduced(target, old(expr), hint, relax, simplify)
      ensures success && Absent(target, relax) ==> Count(target, result) == 0
      ensures success ==> forall y <- relax | y != target && Absent(y, relax) :: Count(y, result) == 0
    {
      hide Forces, Meets, Eval, Defined, EvalSet, Entails;
      ghost var cond := expr;
      if Count(target, expr) != 1 {
        success := false;
      }
      Transform();
      if !success {
        return;
      }
      ghost var lhs, rhs, g0 := expr, result, isGreater;
      Relax();
      if !success {
        return;
      }
      path := GetPath(target, expr);
      iter := 0;
      if path == [] {
        success := false;
        return;
      }
      ghost var e, r := expr, result;
      Visit(expr);
      if success {
        RelaxedCounts(target, lhs, rhs, e, r, relax);
        forall y <- relax | y != target && Absent(y, relax) ensures Count(y, result) == 0 {
          EvalSetCount(y, lhs, relax);
          EvalSetCount(y, rhs, relax);
        }
        ForcesThrough(target, cond, hint, relax, lhs, rhs, g0, isEqual, e, r, isGreater, result);
      }
    }
  }

  /** A bound that has a value makes the condition true for every value of the target that meets it. */
  ghost predicate Forces(target: nat, cond: Expr, hint: DomMap, relax: DomMap, greater: bool, equal: bool, r: Expr) {
    forall env: Env | Respects(env, hint) && Respects(env, relax) && Defined(r, env) ::
      Meets(greater, equal, Eval(Variable(target), env), Eval(r, env)) ==> Eval(cond, env) != 0
  }

  lemma {:induction false} ForcesThrough(target: nat, cond: Expr, hint: DomMap, relax: DomMap, lhs: Expr, rhs: Expr, g0: bool, equal: bool,
                      e: Expr, r: Expr, g: bool, result: Expr)
    requires forall env: Env :: (Eval(cond, env) != 0) == Meets(g0, equal, Eval(lhs, env), Eval(rhs, env))
    requires forall env: Env | Respects(env, relax) ::
      Meets(g0, equal, Eval(e, env), Eval(r, env)) ==> Meets(g0, equal, Eval(lhs, env), Eval(rhs, env))
    requires Entails(hint, equal, Variable(target), g, result, e, g0, r)
    ensures Forces(target, cond, hint, relax, g, equal, result)
  {
  }

  /** The target ends up on the left side only, and only once down each operator that is inverted. */
  lemma {:induction false} RelaxedCounts(v: nat, lhs: Expr, rhs: Expr, e: Expr, r: Expr, relax: DomMap)
    requires TameDom(relax)
    requires Count(v, lhs) + Count(v, rhs) == 1 && Count(v, e) > 0
    requires Fin(e) == EvalSet(lhs, relax).min || Fin(e) == EvalSet(lhs, relax).max
    requires Fin(r) == EvalSet(rhs, relax).min || Fin(r) == EvalSet(rhs, relax).max
    ensures Absent(v, relax) ==> Spine(v, e) && Count(v, r) == 0
  {
    if Absent(v, relax) {
      EvalSetSpine(v, lhs, relax);
      if Count(v, lhs) == 0 {
        EvalSetCount(v, lhs, relax);
      }
      EvalSetCount(v, rhs, relax);
    }
  }

  /** An interval of target values, all of them safe: when its end has a value under some setting of the other
      variables, then any value of the target inside it, together with any values of the relaxed variables,
      makes the condition true. The end is evaluated before the target and the relaxed variables are chosen. */
  ghost predicate SafeRange(target: nat, cond: Expr, hint: DomMap, relax: DomMap, i: Interval) {
    forall env0: Env, env: Env | AgreeOutside(env0, env, {target} + relax.Keys) && HasValue(i, env0) ::
      Respects(env, hint) && Respects(env, relax) && In(Eval(Variable(target), env), i, env0) ==> Eval(cond, env) != 0
  }

  ghost predicate HasValue(i: Interval, env: Env) {
    (i.min.Fin? ==> Defined(i.min.e, env)) && (i.max.Fin? ==> Defined(i.max.e, env))
  }

  ghost predicate AgreeOutside(env0: Env, env: Env, xs: set<nat>) {
    forall x: nat | x !in xs :: Eval(Variable(x), env0) == Eval(Variable(x), env)
  }

  /** The domains of the relaxed variables are given in terms of other variables. */
  ghost predicate ClosedDomain(target: nat, relax: DomMap) {
    Absent(target, relax) && forall y <- relax :: Absent(y, relax)
  }

  lemma {:induction false} EvalAgrees(e: Expr, env0: Env, env: Env, xs: set<nat>)
    requires AgreeOutside(env0, env, xs) && forall x <- xs :: Count(x, e) == 0
    ensures Eval(e, env0) == Eval(e, env)
    ensures Defined(e, env0) == Defined(e, env)
  {
    match e
    case Variable(x) => assert Count(x, e) == 1;
    case Bin(_, a, b) =>
      forall x <- xs ensures Count(x, a) == 0 && Count(x, b) == 0 {
        assert Count(x, e) == 0;
      }
      EvalAgrees(a, env0, env, xs);
      EvalAgrees(b, env0, env, xs);
    case Select(c, t, f) =>
      forall x <- xs ensures Count(x, c) == 0 && Count(x, t) == 0 && Count(x, f) == 0 {
        assert Count(x, e) == 0;
      }
      EvalAgrees(c, env0, env, xs);
      EvalAgrees(t, env0, env, xs);
      EvalAgrees(f, env0, env, xs);
    case _ =>
  }

  function Range(greater: bool, equal: bool, r: Expr): Interval {
    if greater then Interval(Fin(if equal then r else Bin(Add, r, IntImm(1))), PosInf)
    else Interval(NegInf, Fin(if equal then r else Bin(Sub, r, IntImm(1))))
  }

  lemma {:induction false} RangeMeets(greater: bool, equal: bool, r: Expr, x: int, env: Env)
    ensures In(x, Range(greater, equal, r), env) == Meets(greater, equal, x, Eval(r, env))
    ensures HasValue(Range(greater, equal, r), env) == Defined(r, env)
  {
    assert Defined(IntImm(1), env);
    assert Eval(IntImm(1), env) == 1;
    assert Eval(Bin(Add, r, IntImm(1)), env) == Eval(r, env) + 1;
    assert Eval(Bin(Sub, r, IntImm(1)), env) == Eval(r, env) - 1;
  }

  lemma {:induction false} RangeSafe(target: nat, cond: Expr, hint: DomMap, relax: DomMap, greater: bool, equal: bool, r: Expr)
    requires Forces(target, cond, hint, relax, greater, equal, r)
    requires forall x <- {target} + relax.Keys :: Count(x, r) == 0
    ensures SafeRange(target, cond, hint, relax, Range(greater, equal, r))
  {
    var i := Range(greater, equal, r);
    forall env0: Env, env: Env | AgreeOutside(env0, env, {target} + relax.Keys) && HasValue(i, env0)
      ensures Respects(env, hint) && Respects(env, relax) && In(Eval(Variable(target), env), i, env0) ==> Eval(cond, env) != 0
    {
      EvalAgrees(r, env0, env, {target} + relax.Keys);
      RangeMeets(greater, equal, r, Eval(Variable(target), env), env0);
    }
  }

  // ----- the interval is as large as it can be -----

  /** How many products are inverted on the way down to the target. */
  function Products(target: nat, e: Expr): nat {
    if e == Variable(target) || !IsPathOp(e) then 0
    else (if e.op == Mul then 1 else 0) + Products(target, if GetPath(target, e.a) != [] then e.a else e.b)
  }

  /** x moved by k in the direction in which the comparison holds. */
  function Toward(greater: bool, x: int, k: nat): int {
    if greater then x + k else x - k
  }

  /** Without products, the inverted comparison says the same as the one it is made of. */
  lemma {:induction false} InvertedExact(target: nat, e: Expr, c: Against, hint: DomMap, simplify: Expr -> Expr, equal: bool, env: Env)
    requires Invertible(target, e, hint, simplify) && Products(target, e) == 0
    ensures var d := Inverted(target, e, c, hint, simplify);
      Meets(d.greater, equal, Eval(Variable(target), env), Eval(d.r, env)) <==> Meets(c.greater, equal, Eval(e, env), Eval(c.r, env))
  {
    hide SignType, EvalSet, GetPath;
    if e != Variable(target) {
      var left := GetPath(target, e.a) != [];
      var child, operand := if left then e.a else e.b, if left then e.b else e.a;
      var d := InvertedOnce(e.op, left, operand, c, hint, simplify);
      InvertedExact(target, child, d, hint, simplify, equal, env);
      MovedExact(e, left, c, hint, simplify, equal, env);
    }
  }

  lemma {:induction false} MovedExact(e: Expr, left: bool, c: Against, hint: DomMap, simplify: Expr -> Expr, equal: bool, env: Env)
    requires e.Bin? && e.op in {Add, Sub}
    ensures var child, operand := if left then e.a else e.b, if left then e.b else e.a;
      var d := InvertedOnce(e.op, left, operand, c, hint, simplify);
      forall k: nat :: Meets(d.greater, equal, Toward(d.greater, Eval(child, env), k), Eval(d.r, env)) <==>
        Meets(c.greater, equal, Toward(c.greater, Eval(e, env), k), Eval(c.r, env))
    ensures var child, operand := if left then e.a else e.b, if left then e.b else e.a;
      var d := InvertedOnce(e.op, left, operand, c, hint, simplify);
      Meets(d.greater, equal, Eval(child, env), Eval(d.r, env)) <==> Meets(c.greater, equal, Eval(e, env), Eval(c.r, env))
  {
    hide SignType, EvalSet;
    var operand := if left then e.b else e.a;
    assert Eval(IntImm(0), env) == 0;
    assert Eval(Bin(Sub, c.r, operand), env) == Eval(c.r, env) - Eval(operand, env);
  }

  lemma {:induction false} QuotientClosePositive(greater: bool, equal: bool, x: int, m: int, r: int, k: nat)
    requires m > 0 && Meets(greater, equal, Toward(greater, x * m, k), r)
    ensures Meets(greater, equal, Toward(greater, x, k + 2), TruncDiv(r, m) + (if greater then 1 else -1))
  {
    hide TruncDiv;
    var q := TruncDiv(r, m);
    QuotientRemainder(r, m);
    if greater {
      StepUp(x, m, k);
      if x + k <= q - 1 {
        TimesBefore(x + k, q, m);
      }
    } else {
      StepUp(-x, m, k);
      assert (-x + k) * m == -((x - k) * m) && -x * m == -(x * m);
      if x - k >= q + 1 {
        TimesBefore(q, x - k, m);
      }
    }
  }

  lemma {:induction false} StepUp(x: int, m: int, k: nat)
    requires m > 0
    ensures (x + k) * m >= x * m + k
  {
    Arithmetic.MulMonotone(1, m, k);
    assert (x + k) * m == x * m + m * k;
  }

  lemma {:induction false} TimesBefore(x: int, q: int, m: int)
    requires m > 0 && x <= q - 1
    ensures x * m <= q * m - m
  {
    Arithmetic.MulMonotone(x, q - 1, m);
    assert (q - 1) * m == q * m - m;
  }

  /** Inverting a product gives up at most two values. */
  lemma {:induction false} QuotientClose(greater: bool, equal: bool, x: int, m: int, r: int, k: nat)
    requires m != 0 && Meets(greater, equal, Toward(greater, x * m, k), r)
    ensures var g1 := if m < 0 then !greater else greater;
      Meets(g1, equal, Toward(g1, x, k + 2), TruncDiv(r, m) + (if g1 then 1 else -1))
  {
    hide TruncDiv;
    if m > 0 {
      QuotientClosePositive(greater, equal, x, m, r, k);
    } else {
      TruncDivNegate(r, m);
      assert -x * -m == x * m;
      QuotientClosePositive(greater, equal, -x, -m, r, k);
    }
  }

  /** In general it gives up at most two values for every product. */
  lemma {:induction false} InvertedClose(target: nat, e: Expr, c: Against, hint: DomMap, simplify: Expr -> Expr, equal: bool, k: nat, env: Env)
    requires SoundSimplifier(simplify) && TameDom(hint) && Respects(env, hint)
    requires Invertible(target, e, hint, simplify) && !ZeroMultiplier(target, e, hint, simplify)
    requires Meets(c.greater, equal, Toward(c.greater, Eval(e, env), k), Eval(c.r, env))
    ensures var d := Inverted(target, e, c, hint, simplify);
      Meets(d.greater, equal, Toward(d.greater, Eval(Variable(target), env), k + 2 * Products(target, e)), Eval(d.r, env))
  {
    hide SoundSimplifier, TameDom, Respects, SignType, EvalSet, GetPath, Meets, Toward, Eval, InvertedOnce;
    if e != Variable(target) {
      var left := GetPath(target, e.a) != [];
      var child, operand := if left then e.a else e.b, if left then e.b else e.a;
      var d := InvertedOnce(e.op, left, operand, c, hint, simplify);
      if e.op == Mul {
        ProductClose(e, left, c, hint, simplify, equal, k, env);
        InvertedClose(target, child, d, hint, simplify, equal, k + 2, env);
      } else {
        MovedExact(e, left, c, hint, simplify, equal, env);
        InvertedClose(target, child, d, hint, simplify, equal, k, env);
      }
    }
  }

  lemma {:induction false} ProductClose(e: Expr, left: bool, c: Against, hint: DomMap, simplify: Expr -> Expr, equal: bool, k: nat, env: Env)
    requires SoundSimplifier(simplify) && TameDom(hint) && Respects(env, hint) && e.Bin? && e.op == Mul
    requires SignType(EvalSet(if left then e.b else e.a, hint), simplify) in {Positive, Negative}
    requires Meets(c.greater, equal, Toward(c.greater, Eval(e, env), k), Eval(c.r, env))
    ensures var d := InvertedOnce(Mul, left, if left then e.b else e.a, c, hint, simplify);
      Meets(d.greater, equal, Toward(d.greater, Eval(if left then e.a else e.b, env), k + 2), Eval(d.r, env))
  {
    hide SoundSimplifier, TameDom, Respects, SignType, EvalSet, TruncDiv;
    var child, operand := if left then e.a else e.b, if left then e.b else e.a;
    var d := InvertedOnce(Mul, left, operand, c, hint, simplify);
    SignSound(operand, hint, simplify, env);
    TimesCommutes(Eval(child, env), Eval(operand, env));
    assert Eval(e, env) == Eval(child, env) * Eval(operand, env);
    EvalQuotient(c.r, operand, if d.greater then 1 else -1, env);
    QuotientClose(c.greater, equal, Eval(child, env), Eval(operand, env), Eval(c.r, env), k);
  }

  /** No relaxed variable is on both sides. */
  predicate ApartIn(l: Expr, r: Expr, dom: DomMap) {
    forall x <- dom :: Count(x, l) == 0 || Count(x, r) == 0
  }

  /** No relaxed variable is in both operands of an operator, and every operator keeps the ends of its sets. */
  predicate Tight(e: Expr, dom: DomMap) {
    match e
    case IntImm(_) => true
    case Variable(x) => x in dom ==> TwoEnds(dom[x])
    case Select(_, _, _) => false
    case Bin(op, l, r) =>
      var a, b := EvalSet(l, dom), EvalSet(r, dom);
      || (MatchPoint(a, l) && MatchPoint(b, r))
      || (Tight(l, dom) && Tight(r, dom) && ApartIn(l, r, dom) && TwoEnds(a) && TwoEnds(b) && KeepsEnds(op, a, b))
  }

  /** The domains of the relaxed variables are given in terms of other variables, and not empty. */
  ghost predicate Filled(dom: DomMap, env: Env) {
    forall x <- dom :: Absent(x, dom) && (TwoEnds(dom[x]) ==> Eval(dom[x].min.e, env) <= Eval(dom[x].max.e, env))
  }

  lemma {:induction false} DomainAgrees(x: nat, dom: DomMap, env0: Env, env: Env)
    requires x in dom && (forall y <- dom :: Absent(y, dom)) && AgreeOutside(env0, env, dom.Keys) && TwoEnds(dom[x])
    ensures Eval(dom[x].min.e, env0) == Eval(dom[x].min.e, env) && Eval(dom[x].max.e, env0) == Eval(dom[x].max.e, env)
  {
    forall y <- dom ensures Mentions(y, dom[x].min) == 0 && Mentions(y, dom[x].max) == 0 {
      assert Absent(y, dom);
    }
    EvalAgrees(dom[x].min.e, env0, env, dom.Keys);
    EvalAgrees(dom[x].max.e, env0, env, dom.Keys);
  }

  lemma {:induction false} InAgrees(x: nat, v: int, dom: DomMap, env0: Env, env1: Env, env: Env)
    requires x in dom && TameDom(dom) && (forall y <- dom :: Absent(y, dom)) && In(v, dom[x], env1)
    requires AgreeOutside(env0, env1, dom.Keys) && AgreeOutside(env0, env, dom.Keys)
    ensures In(v, dom[x], env)
  {
    if TwoEnds(dom[x]) {
      DomainAgrees(x, dom, env0, env);
      DomainAgrees(x, dom, env0, env1);
    }
  }

  /** The ends of a set mean the same for all values of the relaxed variables. */
  lemma {:induction false} EndsAgree(e: Expr, dom: DomMap, env0: Env, env: Env)
    requires TameDom(dom) && (forall y <- dom :: Absent(y, dom)) && AgreeOutside(env0, env, dom.Keys) && TwoEnds(EvalSet(e, dom))
    ensures Eval(EvalSet(e, dom).min.e, env0) == Eval(EvalSet(e, dom).min.e, env)
    ensures Eval(EvalSet(e, dom).max.e, env0) == Eval(EvalSet(e, dom).max.e, env)
  {
    forall y <- dom ensures Mentions(y, EvalSet(e, dom).min) == 0 && Mentions(y, EvalSet(e, dom).max) == 0 {
      EvalSetCount(y, e, dom);
    }
    EvalAgrees(EvalSet(e, dom).min.e, env0, env, dom.Keys);
    EvalAgrees(EvalSet(e, dom).max.e, env0, env, dom.Keys);
  }

  /** The values of env0 with every relaxed variable at the lower end of its domain. */
  function Lowest(dom: DomMap, env0: Env): Env {
    map x <- env0.Keys + dom.Keys ::
      if x in dom then (if TwoEnds(dom[x]) then Eval(dom[x].min.e, env0) else 0) else Eval(Variable(x), env0)
  }

  lemma {:induction false} LowestRespects(dom: DomMap, env0: Env)
    requires TameDom(dom) && Filled(dom, env0)
    ensures AgreeOutside(env0, Lowest(dom, env0), dom.Keys) && Respects(Lowest(dom, env0), dom)
  {
    var env := Lowest(dom, env0);
    forall x <- dom ensures In(Eval(Variable(x), env), dom[x], env) {
      if TwoEnds(dom[x]) {
        DomainAgrees(x, dom, env0, env);
      }
    }
  }

  /** The relaxed variables of l as in env1, the others as in env2. */
  function Joined(l: Expr, env1: Env, env2: Env): Env {
    map x <- env1.Keys + env2.Keys :: if Count(x, l) > 0 then Eval(Variable(x), env1) else Eval(Variable(x), env2)
  }

  lemma {:induction false} JoinedRight(l: Expr, r: Expr, dom: DomMap, env0: Env, env1: Env, env2: Env)
    requires TameDom(dom) && (forall y <- dom :: Absent(y, dom)) && ApartIn(l, r, dom)
    requires AgreeOutside(env0, env1, dom.Keys) && Respects(env1, dom) && AgreeOutside(env0, env2, dom.Keys) && Respects(env2, dom)
    ensures var env := Joined(l, env1, env2);
      AgreeOutside(env0, env, dom.Keys) && Respects(env, dom) && Eval(l, env) == Eval(l, env1) && Eval(r, env) == Eval(r, env2)
  {
    hide In, Absent, Tame;
    var env := Joined(l, env1, env2);
    forall x: nat
      ensures Eval(Variable(x), env) == if Count(x, l) > 0 then Eval(Variable(x), env1) else Eval(Variable(x), env2)
    {
    }
    assert AgreeOutside(env0, env, dom.Keys);
    forall x <- dom ensures In(Eval(Variable(x), env), dom[x], env) {
      InAgrees(x, Eval(Variable(x), env), dom, env0, if Count(x, l) > 0 then env1 else env2, env);
    }
    EvalAgrees(l, env1, env, set x <- dom | Count(x, l) == 0);
    EvalAgrees(r, env2, env, set x <- dom | Count(x, l) > 0);
  }

  /** Each end of the set of e is the value of e for some values of the relaxed variables. */
  lemma {:induction false} RangeAttained(e: Expr, dom: DomMap, low: bool, env0: Env) returns (env: Env)
    requires TameDom(dom) && Filled(dom, env0) && Tight(e, dom)
    ensures AgreeOutside(env0, env, dom.Keys) && Respects(env, dom)
    ensures TwoEnds(EvalSet(e, dom)) && Eval(e, env) == Eval(EndOf(EvalSet(e, dom), low), env0)
  {
    hide Combine, KeepsEnds, ApartIn, Respects, TameDom, AgreeOutside;
    env := Lowest(dom, env0);
    LowestRespects(dom, env0);
    match e
    case Variable(x) => env := VariableAttained(x, dom, low, env0);
    case Bin(op, l, r) =>
      var a, b := EvalSet(l, dom), EvalSet(r, dom);
      if MatchPoint(a, l) && MatchPoint(b, r) {
        EndsAgree(e, dom, env0, env);
      } else {
        var la, lb := EndsAttained(op, a, b, low, env0);
        var env1 := RangeAttained(l, dom, la, env0);
        var env2 := RangeAttained(r, dom, lb, env0);
        JoinedRight(l, r, dom, env0, env1, env2);
        env := Joined(l, env1, env2);
      }
    case _ =>
  }

  lemma {:induction false} VariableAttained(x: nat, dom: DomMap, low: bool, env0: Env) returns (env: Env)
    requires TameDom(dom) && Filled(dom, env0) && Tight(Variable(x), dom)
    ensures AgreeOutside(env0, env, dom.Keys) && Respects(env, dom)
    ensures TwoEnds(EvalSet(Variable(x), dom)) && Eval(Variable(x), env) == Eval(EndOf(EvalSet(Variable(x), dom), low), env0)
  {
    var lowest := Lowest(dom, env0);
    LowestRespects(dom, env0);
    env := lowest;
    if x in dom {
      env := lowest[x := Eval(EndOf(dom[x], low), env0)];
      forall y: nat | y != x ensures Eval(Variable(y), env) == Eval(Variable(y), lowest) {
      }
      forall y <- dom ensures In(Eval(Variable(y), env), dom[y], env) {
        if TwoEnds(dom[y]) {
          DomainAgrees(y, dom, env0, env);
          DomainAgrees(y, dom, env0, lowest);
          assert In(Eval(Variable(y), lowest), dom[y], lowest);
        }
      }
    }
  }

  /** The condition is true for all values of the relaxed variables. */
  ghost predicate AlwaysTrue(cond: Expr, relax: DomMap, env0: Env) {
    forall env: Env | AgreeOutside(env0, env, relax.Keys) && Respects(env, relax) :: Eval(cond, env) != 0
  }

  /** The hardest values of the two sides meet for some values of the relaxed variables. */
  predicate TightCondition(cond: Expr, relax: DomMap) {
    cond.Bin? && Tight(cond.a, relax) && Tight(cond.b, relax) && ApartIn(cond.a, cond.b, relax)
  }

  /** The condition is true for all values of the relaxed variables exactly if it is true of the hardest ends. */
  lemma {:induction false} AlwaysTrueIff(cond: Expr, relax: DomMap, env0: Env)
    requires TameDom(relax) && Filled(relax, env0) && TightCondition(cond, relax)
    requires cond.op == LT || cond.op == LE || cond.op == GT || cond.op == GE
    ensures AlwaysTrue(cond, relax, env0) <==>
      Meets(cond.op == GT || cond.op == GE, cond.op in {LE, GE}, Eval(HardestSide(cond, relax), env0), Eval(HardestBound(cond, relax), env0))
  {
    hide EvalSet, Tight, ApartIn, Respects, AgreeOutside, TameDom;
    var greater := cond.op == GT || cond.op == GE;
    var a, b := EvalSet(cond.a, relax), EvalSet(cond.b, relax);
    var env1 := RangeAttained(cond.a, relax, greater, env0);
    var env2 := RangeAttained(cond.b, relax, !greater, env0);
    JoinedRight(cond.a, cond.b, relax, env0, env1, env2);
    var worst := Joined(cond.a, env1, env2);
    assert Eval(cond.a, worst) == Eval(HardestSide(cond, relax), env0) && Eval(cond.b, worst) == Eval(HardestBound(cond, relax), env0);
    forall env: Env | AgreeOutside(env0, env, relax.Keys) && Respects(env, relax)
      ensures Eval(a.min.e, env0) <= Eval(cond.a, env) <= Eval(a.max.e, env0) && Eval(b.min.e, env0) <= Eval(cond.b, env) <= Eval(b.max.e, env0)
    {
      EvalSetSound(cond.a, relax, env);
      EvalSetSound(cond.b, relax, env);
      EndsAgree(cond.a, relax, env0, env);
      EndsAgree(cond.b, relax, env0, env);
    }
  }

  /** What DeduceBound gives for a deducible condition. */
  function DeducedRange(v: nat, cond: Expr, hint: DomMap, relax: DomMap, simplify: Expr -> Expr): Interval
    requires cond.Bin?
  {
    var c := Deduced(v, cond, hint, relax, simplify);
    Range(c.greater, cond.op in {LE, GE}, c.r)
  }

  /** Without products, the interval holds exactly the values of the target for which the condition is true for all values of the
      relaxed variables. */
  lemma {:induction false} DeducedExact(v: nat, cond: Expr, hint: DomMap, relax: DomMap, simplify: Expr -> Expr, env0: Env)
    requires TameDom(relax) && Deducible(v, cond, hint, relax, simplify)
    requires Filled(relax, env0) && TightCondition(cond, relax) && Products(v, HardestSide(cond, relax)) == 0
    ensures In(Eval(Variable(v), env0), DeducedRange(v, cond, hint, relax, simplify), env0) <==> AlwaysTrue(cond, relax, env0)
  {
    hide EvalSet, TightCondition, Invertible, Inverted, AlwaysTrue, Filled, Products, Count, TameDom;
    var c := Against(cond.op == GT || cond.op == GE, HardestBound(cond, relax));
    var d := Deduced(v, cond, hint, relax, simplify);
    AlwaysTrueIff(cond, relax, env0);
    InvertedExact(v, HardestSide(cond, relax), c, hint, simplify, cond.op in {LE, GE}, env0);
    RangeMeets(d.greater, cond.op in {LE, GE}, d.r, Eval(Variable(v), env0), env0);
  }

  /** With products, each value for which the condition is true for all values of the relaxed variables is at most two values for each
      product away from the interval. */
  lemma {:induction false} DeducedClose(v: nat, cond: Expr, hint: DomMap, relax: DomMap, simplify: Expr -> Expr, env0: Env)
    requires SoundSimplifier(simplify) && TameDom(hint) && TameDom(relax) && Deducible(v, cond, hint, relax, simplify)
    requires Filled(relax, env0) && TightCondition(cond, relax) && Respects(env0, hint)
    requires !ZeroMultiplier(v, HardestSide(cond, relax), hint, simplify) && AlwaysTrue(cond, relax, env0)
    ensures var i, n := DeducedRange(v, cond, hint, relax, simplify), 2 * Products(v, HardestSide(cond, relax));
      In(Toward(i.max.PosInf?, Eval(Variable(v), env0), n), i, env0)
  {
    hide EvalSet, TightCondition, Invertible, Inverted, AlwaysTrue, Filled, Products, ZeroMultiplier, Count, SoundSimplifier, TameDom, Respects;
    var c := Against(cond.op == GT || cond.op == GE, HardestBound(cond, relax));
    var d := Deduced(v, cond, hint, relax, simplify);
    var n := 2 * Products(v, HardestSide(cond, relax));
    AlwaysTrueIff(cond, relax, env0);
    InvertedClose(v, HardestSide(cond, relax), c, hint, simplify, cond.op in {LE, GE}, 0, env0);
    RangeMeets(d.greater, cond.op in {LE, GE}, d.r, Toward(d.greater, Eval(Variable(v), env0), n), env0);
  }

  /** Without relaxed variables, every operator keeps its ends. */
  lemma {:induction false} UnrelaxedTight(e: Expr, nothing: DomMap)
    requires nothing == map[] && NoSelect(e)
    ensures Tight(e, nothing)
  {
    match e
    case Bin(_, a, b) =>
      OwnSet(a, nothing);
      OwnSet(b, nothing);
    case _ =>
  }

  /** Without products, selections and relaxed variables, the interval says what the condition says. */
  lemma {:induction false} UnrelaxedExact(v: nat, cond: Expr, hint: DomMap, nothing: DomMap, simplify: Expr -> Expr, env: Env)
    requires nothing == map[] && Deducible(v, cond, hint, nothing, simplify) && NoSelect(cond) && Products(v, cond.a) == 0
    ensures In(Eval(Variable(v), env), DeducedRange(v, cond, hint, nothing, simplify), env) <==> Eval(cond, env) != 0
  {
    assert cond.Bin? && cond.op in {LT, LE, GT, GE};
    hide Deducible, DeducedRange, Products, EvalSet;
    OwnSet(cond.a, nothing);
    UnrelaxedTight(cond.a, nothing);
    UnrelaxedTight(cond.b, nothing);
    assert HardestSide(cond, nothing) == cond.a;
    DeducedExact(v, cond, hint, nothing, simplify, env);
    forall env1: Env | AgreeOutside(env, env1, nothing.Keys) ensures Eval(cond, env) == Eval(cond, env1) {
      EvalAgrees(cond, env, env1, nothing.Keys);
    }
    assert AgreeOutside(env, env, nothing.Keys) && Respects(env, nothing);
  }

  /** The values of v that make cond true for all values of the relaxed variables; Nothing if the deduction fails. */
  method DeduceBound(v: nat, cond: Expr, hint: DomMap, relax: DomMap, simplify: Expr -> Expr) returns (i: Interval)
    requires SoundSimplifier(simplify) && TameDom(hint) && TameDom(relax)
    ensures i != Nothing <==> Deducible(v, cond, hint, relax, simplify)
    ensures Deducible(v, cond, hint, relax, simplify) ==> i == DeducedRange(v, cond, hint, relax, simplify)
    ensures forall env: Env | Respects(env, hint) && Respects(env, relax) && HasValue(i, env) ::
      In(Eval(Variable(v), env), i, env) ==> Eval(cond, env) != 0
    ensures ClosedDomain(v, relax) ==> SafeRange(v, cond, hint, relax, i)
    ensures i != Nothing && TightCondition(cond, relax) && Products(v, HardestSide(cond, relax)) == 0 ==>
      forall env: Env | Filled(relax, env) :: In(Eval(Variable(v), env), i, env) <==> AlwaysTrue(cond, relax, env)
    ensures i != Nothing && TightCondition(cond, relax) && !ZeroMultiplier(v, HardestSide(cond, relax), hint, simplify) ==>
      forall env: Env | Filled(relax, env) && Respects(env, hint) && AlwaysTrue(cond, relax, env) ::
        In(Toward(i.max.PosInf?, Eval(Variable(v), env), 2 * Products(v, HardestSide(cond, relax))), i, env)
  {
    hide Deducible, TightCondition, Products, ZeroMultiplier, HardestSide, Filled, AlwaysTrue, EvalSet;
    var d := new Deducer(v, cond, hint, relax, simplify);
    d.Deduce();
    if !d.success {
      return Nothing;
    }
    i := Interval(NegInf, PosInf);
    if d.isGreater {
      i := i.(min := Fin(if d.isEqual then d.result else Bin(Add, d.result, IntImm(1))));
    } else {
      i := i.(max := Fin(if d.isEqual then d.result else Bin(Sub, d.result, IntImm(1))));
    }
    forall env: Env, x: int {
      RangeMeets(d.isGreater, d.isEqual, d.result, x, env);
    }
    if ClosedDomain(v, relax) {
      RangeSafe(v, cond, hint, relax, d.isGreater, d.isEqual, d.result);
    }
    if TightCondition(cond, relax) {
      if Products(v, HardestSide(cond, relax)) == 0 {
        forall env: Env | Filled(relax, env) ensures In(Eval(Variable(v), env), i, env) <==> AlwaysTrue(cond, relax, env) {
          DeducedExact(v, cond, hint, relax, simplify, env);
        }
      }
      if !ZeroMultiplier(v, HardestSide(cond, relax), hint, simplify) {
        forall env: Env | Filled(relax, env) && Respects(env, hint) && AlwaysTrue(cond, relax, env)
          ensures In(Toward(i.max.PosInf?, Eval(Variable(v), env), 2 * Products(v, HardestSide(cond, relax))), i, env)
        {
          DeducedClose(v, cond, hint, relax, simplify, env);
        }
      }
    }
  }

  ghost predicate InversionSound(greater: bool, equal: bool, g1: bool, m: int, r: int, q: int) {
    forall x: int :: Meets(g1, equal, x, q + (if g1 then 1 else -1)) ==> Meets(greater, equal, x * m, r)
  }

  /** The source also divides by a multiplier whose set is the single point 0. Whatever quotient q that gives,
      the new comparison is a sound replacement for x * m against r exactly when m is not 0 or 0 itself meets r. */
  lemma {:induction false} MulInversionIff(greater: bool, equal: bool, m: int, r: int, q: int)
    requires m != 0 ==> q == TruncDiv(r, m)
    ensures InversionSound(greater, equal, if m < 0 then !greater else greater, m, r, q)
       <==> (m != 0 || Meets(greater, equal, 0, r))
  {
    var g1 := if m < 0 then !greater else greater;
    if m != 0 {
      forall x: int ensures Meets(g1, equal, x, q + (if g1 then 1 else -1)) ==> Meets(greater, equal, x * m, r) {
        MulInversion(greater, equal, x, m, r);
      }
    } else {
      var x := if g1 then q + 2 else q - 2;
      assert Meets(g1, equal, x, q + (if g1 then 1 else -1));
      assert x * m == 0;
    }
  }

  // ----- when the bound has a value -----

  /** A multiplier on the way down to the target is known to be 0. */
  predicate ZeroMultiplier(target: nat, e: Expr, hint: DomMap, simplify: Expr -> Expr) {
    e != Variable(target) && IsPathOp(e) &&
    var left := GetPath(target, e.a) != [];
    || (e.op == Mul && SignType(EvalSet(if left then e.b else e.a, hint), simplify) == Zero)
    || ZeroMultiplier(target, if left then e.a else e.b, hint, simplify)
  }

  /** What is moved into the bound has a value. */
  predicate OperandsDefined(target: nat, e: Expr, env: Env) {
    e == Variable(target) || !IsPathOp(e) ||
    var left := GetPath(target, e.a) != [];
    Defined(if left then e.b else e.a, env) && OperandsDefined(target, if left then e.a else e.b, env)
  }

  /** One inverted operator: only a multiplier of 0 takes the value away. */
  lemma {:induction false} InvertedOnceDefined(op: Op, left: bool, operand: Expr, c: Against, hint: DomMap, simplify: Expr -> Expr, env: Env)
    requires SoundSimplifier(simplify) && TameDom(hint) && Respects(env, hint) && op in {Add, Sub, Mul}
    requires op == Mul ==> SignType(EvalSet(operand, hint), simplify) != Unknown
    ensures Defined(InvertedOnce(op, left, operand, c, hint, simplify).r, env)
       <==> Defined(c.r, env) && Defined(operand, env) && !(op == Mul && SignType(EvalSet(operand, hint), simplify) == Zero)
  {
    SignSound(operand, hint, simplify, env);
    assert Defined(IntImm(0), env) && Defined(IntImm(1), env) && Defined(IntImm(-1), env);
  }

  /** Where the hints hold, the inverted comparison has a value exactly if what it is made of has one, and no multiplier is
      known to be 0. */
  lemma {:induction false} InvertedDefined(target: nat, e: Expr, c: Against, hint: DomMap, simplify: Expr -> Expr, env: Env)
    requires SoundSimplifier(simplify) && TameDom(hint) && Respects(env, hint) && Invertible(target, e, hint, simplify)
    ensures Defined(Inverted(target, e, c, hint, simplify).r, env)
       <==> Defined(c.r, env) && OperandsDefined(target, e, env) && !ZeroMultiplier(target, e, hint, simplify)
  {
    hide SoundSimplifier, Respects, SignType, InvertedOnce, Defined;
    if e != Variable(target) {
      var left := GetPath(target, e.a) != [];
      var child, operand := if left then e.a else e.b, if left then e.b else e.a;
      InvertedOnceDefined(e.op, left, operand, c, hint, simplify, env);
      InvertedDefined(target, child, InvertedOnce(e.op, left, operand, c, hint, simplify), hint, simplify, env);
    }
  }

  /** The deduced interval has a value, where the hints hold, exactly if what it is made of has one and no multiplier is known
      to be 0. Then DeduceBound promises the condition inside the interval, otherwise it promises nothing. */
  lemma {:induction false} BoundHasValue(target: nat, cond: Expr, hint: DomMap, relax: DomMap, simplify: Expr -> Expr, env: Env)
    requires SoundSimplifier(simplify) && TameDom(hint) && Respects(env, hint) && Deducible(target, cond, hint, relax, simplify)
    ensures var c, e := Deduced(target, cond, hint, relax, simplify), HardestSide(cond, relax);
      HasValue(Range(c.greater, cond.op in {LE, GE}, c.r), env) <==>
        Defined(HardestBound(cond, relax), env) && OperandsDefined(target, e, env) && !ZeroMultiplier(target, e, hint, simplify)
  {
    hide SoundSimplifier, Respects, SignType, Invertible, Inverted, ZeroMultiplier, OperandsDefined, EvalSet, Defined;
    var c := Deduced(target, cond, hint, relax, simplify);
    InvertedDefined(target, HardestSide(cond, relax), Against(cond.op == GT || cond.op == GE, HardestBound(cond, relax)), hint, simplify, env);
    RangeMeets(c.greater, cond.op in {LE, GE}, c.r, 0, env);
  }

  const X := Variable(0)
  const Y := Variable(1)
  const Y_IS_ZERO: DomMap := map[1 := SinglePoint(IntImm(0))]

  lemma {:induction false} ZeroKnown(simplify: Expr -> Expr)
    requires SoundSimplifier(simplify)
    ensures TameDom(Y_IS_ZERO) && SignType(EvalSet(Y, Y_IS_ZERO), simplify) == Zero
  {
    assert Eval(simplify(IntImm(0)), map[]) == Eval(IntImm(0), map[]) == 0;
  }

  /** Without relaxed variables the product and the number are what they are. */
  lemma {:induction false} ProductRelaxed(n: int, nothing: DomMap)
    requires nothing == map[]
    ensures EvalSet(Bin(Mul, X, Y), nothing) == SinglePoint(Bin(Mul, X, Y)) && EvalSet(IntImm(n), nothing) == SinglePoint(IntImm(n))
  {
    assert EvalSet(X, nothing) == SinglePoint(X) && EvalSet(Y, nothing) == SinglePoint(Y);
  }

  lemma {:induction false} ProductInverted(c: Against, simplify: Expr -> Expr)
    requires SoundSimplifier(simplify)
    ensures GetPath(0, Bin(Mul, X, Y)) != [] && Count(0, Bin(Mul, X, Y)) == 1
    ensures Invertible(0, Bin(Mul, X, Y), Y_IS_ZERO, simplify)
    ensures Inverted(0, Bin(Mul, X, Y), c, Y_IS_ZERO, simplify) ==
      Against(c.greater, Bin(Add, Bin(Div, c.r, Y), IntImm(if c.greater then 1 else -1)))
  {
    hide EvalSet, SignType;
    ZeroKnown(simplify);
    assert GetPath(0, X) == [X] && Count(0, X) == 1 && Count(0, Y) == 0;
    assert Invertible(0, X, Y_IS_ZERO, simplify);
    var c1 := InvertedOnce(Mul, true, Y, c, Y_IS_ZERO, simplify);
    assert Inverted(0, X, c1, Y_IS_ZERO, simplify) == c1;
  }

  /** x * y <= -5 with y known to be 0 is never true. Yet an interval is deduced for x; it never has a value. */
  lemma {:induction false} ZeroMultiplierDeduced(simplify: Expr -> Expr, env: Env, nothing: DomMap)
    requires SoundSimplifier(simplify) && Respects(env, Y_IS_ZERO) && nothing == map[]
    ensures var cond, r := Bin(LE, Bin(Mul, X, Y), IntImm(-5)), Bin(Add, Bin(Div, IntImm(-5), Y), IntImm(-1));
      && Deducible(0, cond, Y_IS_ZERO, nothing, simplify) && Deduced(0, cond, Y_IS_ZERO, nothing, simplify) == Against(false, r)
      && Eval(cond, env) == 0 && !HasValue(Range(false, true, r), env)
  {
    hide EvalSet, SignType, SoundSimplifier;
    ProductRelaxed(-5, nothing);
    ProductInverted(Against(false, IntImm(-5)), simplify);
    assert Count(0, IntImm(-5)) == 0;
    assert In(Eval(Y, env), SinglePoint(IntImm(0)), env) && Eval(IntImm(0), env) == 0;
    assert Eval(Y, env) == 0;
    var r := Bin(Add, Bin(Div, IntImm(-5), Y), IntImm(-1));
    assert !Defined(Bin(Div, IntImm(-5), Y), env);
    assert !Defined(r, env);
    assert Eval(Bin(Mul, X, Y), env) == Eval(X, env) * Eval(Y, env) == 0;
    assert Eval(IntImm(-5), env) == -5;
  }
}
