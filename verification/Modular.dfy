/** Congruences of integer expressions: base + coeff * x (src/arithmetic/modular.cc), and their use for vector allocations
    (src/pass/storage_rewrite.cc, VectorAllocRewriter). */
module Modular {
  import opened Wrappers
  import opened IntSet

  /** The set of base + coeff * x over all integers x. */
  datatype ModularEntry = ModularEntry(base: int, coeff: int)

  const EVERYTHING := ModularEntry(0, 1)
  const INT_MAX := 0x7fff_ffff

  predicate Divides(d: int, n: int) {
    if d == 0 then n == 0 else n % d == 0
  }

  predicate Has(m: ModularEntry, v: int) {
    Divides(m.coeff, v - m.base)
  }

  // ----- divisibility -----

  lemma {:induction false} Factor(d: int, n: int) returns (k: int)
    requires Divides(d, n)
    ensures n == d * k
  {
    k := if d == 0 then 0 else n / d;
  }

  lemma {:induction false} Multiple(d: int, k: int)
    ensures Divides(d, d * k)
  {
    if d != 0 {
      MultipleMod(d, k);
    }
  }

  lemma {:induction false} MultipleMod(d: int, k: int)
    requires d != 0
    ensures d * k % d == 0
  {
    var n, q, m := d * k, d * k / d, d * k % d;
    assert n == q * d + m;
    assert (k - q) * d == m;
    if k - q >= 1 || k - q <= -1 {
      Large(k - q, d);
    }
  }

  lemma {:induction false} Large(k: int, d: int)
    requires k != 0 && d != 0
    ensures Abs(k * d) >= Abs(d)
  {
    if k > 0 && d > 0 {
      assert k * d >= d;
    } else if k > 0 {
      assert k * d <= d;
    } else if d > 0 {
      assert k * d <= -d;
    } else {
      assert k * d >= -d;
    }
  }

  lemma {:induction false} DividesSum(d: int, x: int, y: int)
    requires Divides(d, x) && Divides(d, y)
    ensures Divides(d, x + y) && Divides(d, x - y)
  {
    var k := Factor(d, x);
    var l := Factor(d, y);
    Multiple(d, k + l);
    Multiple(d, k - l);
    assert d * (k + l) == d * k + d * l && d * (k - l) == d * k - d * l;
  }

  lemma {:induction false} DividesTimes(d: int, x: int, y: int)
    requires Divides(d, x)
    ensures Divides(d, x * y)
  {
    var k := Factor(d, x);
    Multiple(d, k * y);
    assert d * (k * y) == d * k * y;
  }

  lemma {:induction false} DividesTrans(d: int, e: int, n: int)
    requires Divides(d, e) && Divides(e, n)
    ensures Divides(d, n)
  {
    var k := Factor(e, n);
    DividesTimes(d, e, k);
  }

  // ----- the greatest common divisor -----

  function Gcd(a: nat, b: nat): nat
    decreases b
  {
    if b == 0 then a else Gcd(b, a % b)
  }

  lemma {:induction false} GcdDivides(a: nat, b: nat)
    ensures Divides(Gcd(a, b), a) && Divides(Gcd(a, b), b)
    decreases b
  {
    if b == 0 {
      Multiple(a, 1);
      Multiple(a, 0);
    } else {
      hide Divides;
      GcdDivides(b, a % b);
      DividesTimes(Gcd(b, a % b), b, a / b);
      DividesSum(Gcd(b, a % b), b * (a / b), a % b);
      DivisionSplit(a, b);
    }
  }

  lemma {:induction false} DivisionSplit(a: nat, b: nat)
    requires b > 0
    ensures a == b * (a / b) + a % b
  {
  }

  /** Every common divisor divides it. */
  lemma {:induction false} GcdGreatest(a: nat, b: nat, d: int)
    requires Divides(d, a) && Divides(d, b)
    ensures Divides(d, Gcd(a, b))
    decreases b
  {
    if b != 0 {
      DividesTimes(d, b, a / b);
      DividesSum(d, a, b * (a / b));
      assert a % b == a - b * (a / b);
      GcdGreatest(b, a % b, d);
    }
  }

  lemma {:induction false} GcdSwap(a: nat, b: nat)
    requires a < b
    ensures Gcd(a, b) == Gcd(b, a)
  {
    assert a % b == a;
  }

  /** The greatest common divisor, where zero is divided by everything; fails on negative numbers. */
  method ZeroAwareGCD(a0: int, b0: int) returns (ok: bool, g: int)
    ensures ok <==> a0 >= 0 && b0 >= 0
    ensures ok ==> g == Gcd(a0, b0)
  {
    if a0 < 0 || b0 < 0 {
      return false, 0;
    }
    var a, b := a0, b0;
    if a < b {
      GcdSwap(a, b);
      a, b := b, a;
    }
    if b == 0 {
      return true, a;
    }
    while a % b != 0
      invariant a >= 0 && b > 0 && Gcd(a, b) == Gcd(a0, b0)
      decreases b
    {
      a := a % b;
      a, b := b, a;
    }
    assert Gcd(b, a % b) == b;
    return true, b;
  }

  function GcdOf(a: int, b: int): Option<nat> {
    if a < 0 || b < 0 then None else Some(Gcd(a, b))
  }

  /** The base in the range of the coefficient. */
  function BaseSimplify(base: int, coeff: int): int {
    if coeff == 0 then base
    else
      var r := base - TruncDiv(base, coeff) * coeff;
      if r < 0 then r + coeff else r
  }

  lemma {:induction false} BaseSimplifyRight(base: int, coeff: int)
    ensures Divides(coeff, BaseSimplify(base, coeff) - base)
    ensures coeff > 0 ==> 0 <= BaseSimplify(base, coeff) < coeff
  {
    if coeff == 0 {
    } else {
      var q := TruncDiv(base, coeff);
      Multiple(coeff, -q);
      Multiple(coeff, -q + 1);
      assert coeff * -q == -(q * coeff) && coeff * (-q + 1) == -(q * coeff) + coeff;
      if coeff > 0 {
        RemainderSmall(base, coeff);
      }
    }
  }

  lemma {:induction false} RemainderSmall(x: int, n: int)
    requires n > 0
    ensures -n < x - TruncDiv(x, n) * n < n
  {
  }

  // ----- evaluation -----

  type ModMap = map<nat, ModularEntry>

  function CombineAddSub(a: ModularEntry, b: ModularEntry, sign: int): Option<ModularEntry> {
    var g := GcdOf(a.coeff, b.coeff);
    if g == None then None else Some(ModularEntry(BaseSimplify(a.base + sign * b.base, g.value), g.value))
  }

  function CombineMul(a: ModularEntry, b: ModularEntry): Option<ModularEntry> {
    var g := GcdOf(a.coeff * b.base, a.base * b.coeff);
    var h := if g == None then None else GcdOf(a.coeff * b.coeff, g.value);
    if h == None then None else Some(ModularEntry(BaseSimplify(a.base * b.base, h.value), h.value))
  }

  /** Only exact division of multiples by a constant; fails on division by zero. */
  function CombineDiv(a: ModularEntry, b: ModularEntry): Option<ModularEntry> {
    if b.coeff == 0 && a.base == 0 then
      if b.base == 0 then None
      else if a.coeff - TruncDiv(a.coeff, b.base) * b.base == 0 then Some(ModularEntry(0, TruncDiv(a.coeff, b.base)))
      else Some(EVERYTHING)
    else Some(EVERYTHING)
  }

  function EvalModular(e: Expr, m: ModMap): Option<ModularEntry> {
    match e
    case IntImm(v) => Some(if v < INT_MAX then ModularEntry(v, 0) else EVERYTHING)
    case Variable(x) => Some(if x in m then m[x] else EVERYTHING)
    case Bin(op, a, b) =>
      if op in {Add, Sub, Mul, Div} then
        var ma, mb := EvalModular(a, m), EvalModular(b, m);
        if ma == None || mb == None then None
        else if op == Add then CombineAddSub(ma.value, mb.value, 1)
        else if op == Sub then CombineAddSub(ma.value, mb.value, -1)
        else if op == Mul then CombineMul(ma.value, mb.value)
        else CombineDiv(ma.value, mb.value)
      else Some(EVERYTHING)
    case Select(_, _, _) => Some(EVERYTHING)
  }

  lemma {:induction false} EverythingHas(v: int)
    ensures Has(EVERYTHING, v)
  {
  }

  lemma {:induction false} AddSubSound(a: ModularEntry, b: ModularEntry, sign: int, x: int, y: int)
    requires Has(a, x) && Has(b, y) && sign in {1, -1} && CombineAddSub(a, b, sign).Some?
    ensures Has(CombineAddSub(a, b, sign).value, x + sign * y)
  {
    hide Divides, BaseSimplify, Gcd;
    var g := Gcd(a.coeff, b.coeff);
    var base := a.base + sign * b.base;
    GcdDivides(a.coeff, b.coeff);
    DividesTrans(g, a.coeff, x - a.base);
    DividesTrans(g, b.coeff, y - b.base);
    DividesSum(g, x - a.base, y - b.base);
    BaseSimplifyRight(base, g);
    assert x + sign * y - base == if sign == 1 then x - a.base + (y - b.base) else x - a.base - (y - b.base);
    DividesSum(g, x + sign * y - base, BaseSimplify(base, g) - base);
  }

  lemma {:induction false} MulSound(a: ModularEntry, b: ModularEntry, x: int, y: int)
    requires Has(a, x) && Has(b, y) && CombineMul(a, b).Some?
    ensures Has(CombineMul(a, b).value, x * y)
  {
    hide Divides, BaseSimplify;
    var h := CombineMul(a, b).value.coeff;
    var p := Factor(a.coeff, x - a.base);
    var q := Factor(b.coeff, y - b.base);
    MulGcd(a, b);
    DividesTimes(h, a.coeff * b.coeff, p * q);
    DividesTimes(h, a.coeff * b.base, p);
    DividesTimes(h, a.base * b.coeff, q);
    DividesSum(h, a.coeff * b.coeff * (p * q), a.coeff * b.base * p);
    DividesSum(h, a.coeff * b.coeff * (p * q) + a.coeff * b.base * p, a.base * b.coeff * q);
    Expand(a.base, a.coeff, p, b.base, b.coeff, q);
    BaseSimplifyRight(a.base * b.base, h);
    DividesSum(h, x * y - a.base * b.base, BaseSimplify(a.base * b.base, h) - a.base * b.base);
  }

  lemma {:induction false} MulGcd(a: ModularEntry, b: ModularEntry)
    requires CombineMul(a, b).Some?
    ensures var h := CombineMul(a, b).value.coeff;
      Divides(h, a.coeff * b.coeff) && Divides(h, a.coeff * b.base) && Divides(h, a.base * b.coeff)
  {
    hide Divides, BaseSimplify;
    var g := Gcd(a.coeff * b.base, a.base * b.coeff);
    GcdDivides(a.coeff * b.base, a.base * b.coeff);
    GcdDivides(a.coeff * b.coeff, g);
    DividesTrans(Gcd(a.coeff * b.coeff, g), g, a.coeff * b.base);
    DividesTrans(Gcd(a.coeff * b.coeff, g), g, a.base * b.coeff);
  }

  lemma {:induction false} Expand(n: int, c: int, p: int, m: int, d: int, q: int)
    ensures (n + c * p) * (m + d * q) - n * m == c * d * (p * q) + c * m * p + n * d * q
  {
    assert (n + c * p) * (m + d * q) == n * m + n * (d * q) + c * p * m + c * p * (d * q);
    assert c * p * (d * q) == c * d * (p * q) && c * p * m == c * m * p && n * (d * q) == n * d * q;
  }

  lemma {:induction false} DivSound(a: ModularEntry, b: ModularEntry, x: int, y: int)
    requires Has(a, x) && Has(b, y) && CombineDiv(a, b).Some?
    ensures Has(CombineDiv(a, b).value, TruncDiv(x, y))
  {
    if b.coeff == 0 && a.base == 0 && a.coeff - TruncDiv(a.coeff, b.base) * b.base == 0 {
      var c := TruncDiv(a.coeff, b.base);
      var k := Factor(a.coeff, x);
      assert y == b.base && x == c * b.base * k;
      MulSwapped(c, b.base, k);
      ExactDiv(c * k, b.base);
      Multiple(c, k);
    } else {
      EverythingHas(TruncDiv(x, y));
    }
  }

  lemma {:induction false} MulSwapped(x: int, y: int, z: int)
    ensures x * y * z == x * z * y
  {
  }

  lemma {:induction false} ExactDiv(n: int, d: int)
    requires d != 0
    ensures TruncDiv(n * d, d) == n
  {
    MultipleMod(Abs(d), Abs(n));
    AbsProduct(n, d);
    assert Abs(n) * Abs(d) / Abs(d) == Abs(n) by {
      DivExact(Abs(n), Abs(d));
    }
  }

  lemma {:induction false} DivExact(n: nat, d: nat)
    requires d > 0
    ensures n * d / d == n
  {
    MultipleMod(d, n);
    var q := n * d / d;
    assert n * d == q * d + n * d % d;
    assert (n - q) * d == 0;
    if n != q {
      Large(n - q, d);
    }
  }

  lemma {:induction false} AbsProduct(n: int, d: int)
    ensures Abs(n * d) == Abs(n) * Abs(d) && (d != 0 ==> ((n * d < 0) == (d < 0) || n <= 0)) && (n < 0 && d != 0 ==> (n * d < 0) != (d < 0))
  {
    if n >= 0 && d >= 0 {
      assert n * d >= 0;
    } else if n >= 0 {
      assert n * -d >= 0 && n * -d == -(n * d);
    } else if d >= 0 {
      assert -n * d >= 0 && -n * d == -(n * d);
    } else {
      assert -n * -d >= 0 && -n * -d == n * d;
    }
    if n != 0 && d != 0 {
      Large(n, d);
    }
  }

  /** If every mapped variable is in its set, every expression is in the set that is computed for it. */
  lemma {:induction false} EvalModularSound(e: Expr, m: ModMap, env: Env)
    requires forall x <- m :: Has(m[x], Eval(Variable(x), env))
    requires EvalModular(e, m).Some?
    ensures Has(EvalModular(e, m).value, Eval(e, env))
  {
    hide Has, CombineAddSub, CombineMul, CombineDiv, TruncDiv;
    match e
    case IntImm(v) => ConstantHas(v);
    case Variable(x) => EverythingHas(Eval(e, env));
    case Bin(op, a, b) =>
      if op in {Add, Sub, Mul, Div} {
        EvalModularSound(a, m, env);
        EvalModularSound(b, m, env);
        var ma, mb, x, y := EvalModular(a, m).value, EvalModular(b, m).value, Eval(a, env), Eval(b, env);
        if op == Add {
          AddSubSound(ma, mb, 1, x, y);
        } else if op == Sub {
          AddSubSound(ma, mb, -1, x, y);
        } else if op == Mul {
          MulSound(ma, mb, x, y);
        } else {
          DivSound(ma, mb, x, y);
        }
      } else {
        EverythingHas(Eval(e, env));
      }
    case Select(_, _, _) => EverythingHas(Eval(e, env));
  }

  lemma {:induction false} ConstantHas(v: int)
    ensures Has(ModularEntry(v, 0), v) && Has(EVERYTHING, v)
  {
    EverythingHas(v);
  }

  // ----- the class is the least one -----

  /** The divisor is a combination of the two numbers. */
  lemma {:induction false} Bezout(a: nat, b: nat) returns (u: int, w: int)
    ensures a * u + b * w == Gcd(a, b)
    decreases b
  {
    if b == 0 {
      u, w := 1, 0;
    } else {
      var u1, w1 := Bezout(b, a % b);
      u, w := w1, u1 - a / b * w1;
      BezoutStep(a, b, a / b, a % b, u1, w1);
    }
  }

  lemma {:induction false} BezoutStep(a: int, b: int, q: int, r: int, u: int, w: int)
    requires a == b * q + r
    ensures a * w + b * (u - q * w) == b * u + r * w
  {
    assert a * w == b * q * w + r * w;
    assert b * (u - q * w) == b * u - b * (q * w);
    assert b * (q * w) == b * q * w;
  }

  /** The members of the class of a sum or a difference are exactly the sums or differences of members. */
  lemma {:induction false} AddSubExact(a: ModularEntry, b: ModularEntry, sign: int, v: int)
    requires sign in {1, -1} && CombineAddSub(a, b, sign).Some?
    ensures Has(CombineAddSub(a, b, sign).value, v) <==> exists x, y :: Has(a, x) && Has(b, y) && v == x + sign * y
  {
    hide Divides, BaseSimplify, Gcd;
    if Has(CombineAddSub(a, b, sign).value, v) {
      var x, y := AddSubMembers(a, b, sign, v);
      assert Has(a, x) && Has(b, y) && v == x + sign * y;
    } else if x, y :| Has(a, x) && Has(b, y) && v == x + sign * y {
      AddSubSound(a, b, sign, x, y);
    }
  }

  lemma {:induction false} AddSubMembers(a: ModularEntry, b: ModularEntry, sign: int, v: int) returns (x: int, y: int)
    requires sign in {1, -1} && CombineAddSub(a, b, sign).Some? && Has(CombineAddSub(a, b, sign).value, v)
    ensures Has(a, x) && Has(b, y) && v == x + sign * y
  {
    hide Divides, BaseSimplify, Gcd;
    var r := CombineAddSub(a, b, sign).value;
    BaseSimplifyRight(a.base + sign * b.base, r.coeff);
    DividesSum(r.coeff, v - r.base, r.base - (a.base + sign * b.base));
    var n := Factor(r.coeff, v - (a.base + sign * b.base));
    var u, w := Bezout(a.coeff, b.coeff);
    Multiple(a.coeff, u * n);
    Multiple(b.coeff, sign * (w * n));
    x, y := a.base + a.coeff * (u * n), b.base + b.coeff * (sign * (w * n));
    Spread(a.coeff, u, b.coeff, w, n);
    SignTwice(b.coeff, w * n, sign);
  }

  lemma {:induction false} Spread(c: int, u: int, d: int, w: int, n: int)
    ensures (c * u + d * w) * n == c * (u * n) + d * (w * n)
  {
  }

  lemma {:induction false} SignTwice(d: int, k: int, sign: int)
    requires sign in {1, -1}
    ensures sign * (d * (sign * k)) == d * k
  {
  }

  /** What divides multiples of two numbers divides the multiple of their greatest common divisor. */
  lemma {:induction false} DividesScaledGcd(d: int, k: int, a: nat, b: nat)
    requires Divides(d, k * a) && Divides(d, k * b)
    ensures Divides(d, k * Gcd(a, b))
  {
    hide Divides, Gcd;
    var u, w := Bezout(a, b);
    DividesTimes(d, k * a, u);
    DividesTimes(d, k * b, w);
    DividesSum(d, k * a * u, k * b * w);
    assert k * (a * u + b * w) == k * a * u + k * b * w;
  }

  /** Every member of r is a member of c. */
  ghost predicate Within(r: ModularEntry, c: ModularEntry) {
    forall v :: Has(r, v) ==> Has(c, v)
  }

  lemma {:induction false} WithinCoeff(r: ModularEntry, c: ModularEntry, x: int)
    requires Has(r, x) && Has(c, x) && Divides(c.coeff, r.coeff)
    ensures Within(r, c)
  {
    hide Divides;
    forall v | Has(r, v) ensures Has(c, v) {
      DividesSum(r.coeff, v - r.base, x - r.base);
      DividesTrans(c.coeff, r.coeff, v - x);
      DividesSum(c.coeff, v - x, x - c.base);
    }
  }

  /** The class of a product is in every class that holds all products of members. */
  lemma {:induction false} MulLeast(a: ModularEntry, b: ModularEntry, c: ModularEntry)
    requires CombineMul(a, b).Some?
    requires forall x, y | Has(a, x) && Has(b, y) :: Has(c, x * y)
    ensures Within(CombineMul(a, b).value, c)
  {
    hide Divides, BaseSimplify, Gcd, CombineMul;
    var n, m, p, q, d := a.base, b.base, a.coeff, b.coeff, c.coeff;
    NextMembers(a);
    NextMembers(b);
    assert Has(c, n * m) && Has(c, (n + p) * m) && Has(c, n * (m + q)) && Has(c, (n + p) * (m + q));
    MemberStep(c, (n + p) * m, n * m, p * m);
    MemberStep(c, n * (m + q), n * m, n * q);
    Corner(n, p, m, q);
    MemberStep(c, (n + p) * (m + q), n * m, p * q + p * m + n * q);
    DividesSum(d, p * q + p * m + n * q, p * m);
    DividesSum(d, p * q + n * q, n * q);
    MulCoeff(a, b, 1, d);
    MulSound(a, b, n, m);
    WithinCoeff(CombineMul(a, b).value, c, n * m);
  }

  lemma {:induction false} MemberStep(c: ModularEntry, x: int, y: int, step: int)
    requires Has(c, x) && Has(c, y) && x - y == step
    ensures Divides(c.coeff, step)
  {
    DividesSum(c.coeff, x - c.base, y - c.base);
  }

  lemma {:induction false} Corner(n: int, p: int, m: int, q: int)
    ensures (n + p) * m - n * m == p * m && n * (m + q) - n * m == n * q
    ensures (n + p) * (m + q) - n * m == p * q + p * m + n * q
  {
    assert (n + p) * (m + q) == (n + p) * m + (n + p) * q;
    assert (n + p) * q == n * q + p * q && (n + p) * m == n * m + p * m;
    assert n * (m + q) == n * m + n * q;
  }

  lemma {:induction false} NextMembers(a: ModularEntry)
    ensures Has(a, a.base) && Has(a, a.base + a.coeff)
  {
    Multiple(a.coeff, 0);
    Multiple(a.coeff, 1);
  }

  lemma {:induction false} MulCoeff(a: ModularEntry, b: ModularEntry, k: int, d: int)
    requires CombineMul(a, b).Some?
    requires Divides(d, k * (a.coeff * b.coeff)) && Divides(d, k * (a.coeff * b.base)) && Divides(d, k * (a.base * b.coeff))
    ensures Divides(d, k * CombineMul(a, b).value.coeff)
  {
    hide Divides, BaseSimplify, Gcd;
    DividesScaledGcd(d, k, a.coeff * b.base, a.base * b.coeff);
    DividesScaledGcd(d, k, a.coeff * b.coeff, Gcd(a.coeff * b.base, a.base * b.coeff));
  }

  /** Each mapped variable has a value in its class. */
  ghost predicate Fits(env: Env, m: ModMap) {
    forall x <- m :: Has(m[x], Eval(Variable(x), env))
  }

  ghost predicate Apart(a: Expr, b: Expr) {
    forall x: nat :: Count(x, a) == 0 || Count(x, b) == 0
  }

  /** A quotient of multiples by a constant that divides them all. */
  predicate ExactQuotient(a: Expr, b: Expr, m: ModMap) {
    var ma, mb := EvalModular(a, m), EvalModular(b, m);
    ma.Some? && mb.Some? && mb.value.coeff == 0 && ma.value.base == 0 && TruncMod(ma.value.coeff, mb.value.base) == 0
  }

  /** Sums, differences, products and exact quotients in which no variable occurs twice. */
  ghost predicate ReadOnce(e: Expr, m: ModMap) {
    match e
    case IntImm(v) => v < INT_MAX
    case Variable(_) => true
    case Bin(op, a, b) =>
      if op == Div then ReadOnce(a, m) && ExactQuotient(a, b, m)
      else op in {Add, Sub, Mul} && ReadOnce(a, m) && ReadOnce(b, m) && Apart(a, b)
    case Select(_, _, _) => false
  }

  lemma {:induction false} EvalLocal(e: Expr, env1: Env, env2: Env)
    requires forall x: nat | Count(x, e) > 0 :: Eval(Variable(x), env1) == Eval(Variable(x), env2)
    ensures Eval(e, env1) == Eval(e, env2)
  {
    match e
    case IntImm(_) =>
    case Variable(x) => assert Count(x, e) == 1;
    case Bin(_, a, b) =>
      forall x: nat | Count(x, a) > 0 || Count(x, b) > 0 ensures Count(x, e) > 0 {
      }
      EvalLocal(a, env1, env2);
      EvalLocal(b, env1, env2);
    case Select(c, t, f) =>
      forall x: nat | Count(x, c) > 0 || Count(x, t) > 0 || Count(x, f) > 0 ensures Count(x, e) > 0 {
      }
      EvalLocal(c, env1, env2);
      EvalLocal(t, env1, env2);
      EvalLocal(f, env1, env2);
  }

  /** The variables of a as in env1, all others as in env2. */
  function Mixed(a: Expr, env1: Env, env2: Env): Env {
    map x <- env1.Keys + env2.Keys :: if Count(x, a) > 0 then Eval(Variable(x), env1) else Eval(Variable(x), env2)
  }

  lemma {:induction false} MixedEval(a: Expr, b: Expr, m: ModMap, env1: Env, env2: Env)
    requires Apart(a, b) && Fits(env1, m) && Fits(env2, m)
    ensures var env := Mixed(a, env1, env2);
      Fits(env, m) && Eval(a, env) == Eval(a, env1) && Eval(b, env) == Eval(b, env2)
  {
    hide Has;
    var env := Mixed(a, env1, env2);
    forall x: nat
      ensures Eval(Variable(x), env) == if Count(x, a) > 0 then Eval(Variable(x), env1) else Eval(Variable(x), env2)
    {
    }
    assert Fits(env, m);
    EvalLocal(a, env, env1);
    EvalLocal(b, env, env2);
  }

  /** All differences of values of e, multiplied with k, are multiples of d. */
  ghost predicate StepsDivided(e: Expr, m: ModMap, k: int, d: int) {
    forall env1: Env, env2: Env | Fits(env1, m) && Fits(env2, m) :: Divides(d, k * (Eval(e, env1) - Eval(e, env2)))
  }

  /** A variable can take a step of its coefficient. */
  lemma {:induction false} VariableStep(x: nat, m: ModMap, k: int, d: int)
    requires StepsDivided(Variable(x), m, k, d)
    ensures Divides(d, k * (if x in m then m[x] else EVERYTHING).coeff)
  {
    hide Divides;
    var c := if x in m then m[x] else EVERYTHING;
    var env := BaseEnv(m);
    BaseFits(m);
    var env1, env2 := env[x := c.base + c.coeff], env[x := c.base];
    NextMembers(c);
    forall y <- m ensures Has(m[y], Eval(Variable(y), env1)) && Has(m[y], Eval(Variable(y), env2)) {
      assert y != x ==> Eval(Variable(y), env1) == Eval(Variable(y), env);
    }
    assert Eval(Variable(x), env1) - Eval(Variable(x), env2) == c.coeff;
  }

  function BaseEnv(m: ModMap): Env {
    map x <- m :: m[x].base
  }

  lemma {:induction false} BaseFits(m: ModMap)
    ensures Fits(BaseEnv(m), m)
  {
    forall x <- m ensures Has(m[x], Eval(Variable(x), BaseEnv(m))) {
      NextMembers(m[x]);
    }
  }

  lemma {:induction false} DividesNegated(d: int, n: int)
    requires Divides(d, n)
    ensures Divides(d, -n)
  {
    DividesTimes(d, n, -1);
  }

  lemma {:induction false} SumSteps(op: Op, a: Expr, b: Expr, m: ModMap, k: int, d: int)
    requires op in {Add, Sub} && Apart(a, b) && StepsDivided(Bin(op, a, b), m, k, d)
    ensures StepsDivided(a, m, k, d) && StepsDivided(b, m, k, d)
  {
    hide Divides, Apart, Fits;
    var e := Bin(op, a, b);
    forall env1: Env, env2: Env | Fits(env1, m) && Fits(env2, m)
      ensures Divides(d, k * (Eval(a, env1) - Eval(a, env2))) && Divides(d, k * (Eval(b, env1) - Eval(b, env2)))
    {
      MixedEval(a, b, m, env1, env2);
      var mixed := Mixed(a, env1, env2);
      assert Eval(e, mixed) - Eval(e, env2) == Eval(a, env1) - Eval(a, env2);
      var step := Eval(e, env1) - Eval(e, mixed);
      assert step == if op == Add then Eval(b, env1) - Eval(b, env2) else -(Eval(b, env1) - Eval(b, env2));
      DividesNegated(d, k * step);
      assert k * -step == -(k * step);
    }
  }

  /** All differences of products of values of a and b, multiplied with k, are multiples of d. */
  ghost predicate ProductSteps(a: Expr, b: Expr, m: ModMap, k: int, d: int) {
    forall env1: Env, env2: Env | Fits(env1, m) && Fits(env2, m) ::
      Divides(d, k * (Eval(a, env1) * Eval(b, env1) - Eval(a, env2) * Eval(b, env2)))
  }

  lemma {:induction false} ProductStepsSwap(a: Expr, b: Expr, m: ModMap, k: int, d: int)
    requires ProductSteps(a, b, m, k, d)
    ensures ProductSteps(b, a, m, k, d)
  {
    hide Divides, Fits;
    forall env1: Env, env2: Env | Fits(env1, m) && Fits(env2, m)
      ensures Divides(d, k * (Eval(b, env1) * Eval(a, env1) - Eval(b, env2) * Eval(a, env2)))
    {
      TimesCommutes(Eval(a, env1), Eval(b, env1));
      TimesCommutes(Eval(a, env2), Eval(b, env2));
    }
  }

  /** With the value of b fixed, the product steps with a. */
  lemma {:induction false} FactorSteps(a: Expr, b: Expr, m: ModMap, k: int, d: int, fixed: Env)
    requires Apart(a, b) && ProductSteps(a, b, m, k, d) && Fits(fixed, m)
    ensures StepsDivided(a, m, k * Eval(b, fixed), d)
  {
    hide Divides, Apart, Fits;
    var y := Eval(b, fixed);
    forall env1: Env, env2: Env | Fits(env1, m) && Fits(env2, m) ensures Divides(d, k * y * (Eval(a, env1) - Eval(a, env2))) {
      MixedEval(a, b, m, env1, fixed);
      MixedEval(a, b, m, env2, fixed);
      var x1, x2 := Eval(a, env1), Eval(a, env2);
      var mixed1, mixed2 := Mixed(a, env1, fixed), Mixed(a, env2, fixed);
      assert Divides(d, k * (Eval(a, mixed1) * Eval(b, mixed1) - Eval(a, mixed2) * Eval(b, mixed2)));
      assert k * (x1 * y - x2 * y) == k * y * (x1 - x2) by {
        Distribute(k, x1, x2, y);
      }
    }
  }

  lemma {:induction false} Distribute(k: int, x1: int, x2: int, y: int)
    ensures k * (x1 * y - x2 * y) == k * y * (x1 - x2)
  {
    assert x1 * y - x2 * y == y * (x1 - x2);
  }

  lemma {:induction false} CoeffDivided(e: Expr, m: ModMap, k: int, d: int)
    requires ReadOnce(e, m) && EvalModular(e, m).Some? && StepsDivided(e, m, k, d)
    ensures Divides(d, k * EvalModular(e, m).value.coeff)
    decreases e, 2
  {
    hide Divides, Fits, Apart, CombineAddSub, CombineMul, CombineDiv, StepsDivided, ExactQuotient, BaseSimplify;
    match e
    case IntImm(_) => Multiple(d, 0);
    case Variable(x) => VariableStep(x, m, k, d);
    case Bin(op, a, b) =>
      if op == Div {
        QuotientCoeff(a, b, m, k, d);
      } else if op == Mul {
        ProductCoeff(a, b, m, k, d);
      } else {
        SumSteps(op, a, b, m, k, d);
        CoeffDivided(a, m, k, d);
        CoeffDivided(b, m, k, d);
        var ma, mb := EvalModular(a, m).value, EvalModular(b, m).value;
        AddSubGives(ma, mb, if op == Add then 1 else -1);
        DividesScaledGcd(d, k, ma.coeff, mb.coeff);
        SumCoeff(ma, mb, if op == Add then 1 else -1);
      }
  }

  lemma {:induction false} SumCoeff(a: ModularEntry, b: ModularEntry, sign: int)
    requires CombineAddSub(a, b, sign).Some? && a.coeff >= 0 && b.coeff >= 0
    ensures CombineAddSub(a, b, sign).value.coeff == Gcd(a.coeff, b.coeff)
  {
  }

  lemma {:induction false} ProductCoeff(a: Expr, b: Expr, m: ModMap, k: int, d: int)
    requires ReadOnce(a, m) && ReadOnce(b, m) && Apart(a, b) && EvalModular(Bin(Mul, a, b), m).Some?
    requires StepsDivided(Bin(Mul, a, b), m, k, d)
    ensures Divides(d, k * EvalModular(Bin(Mul, a, b), m).value.coeff)
    decreases Bin(Mul, a, b), 1
  {
    hide Divides, Fits, Apart, CombineMul;
    var ma, mb := EvalModular(a, m).value, EvalModular(b, m).value;
    assert ProductSteps(a, b, m, k, d) by {
      forall env1: Env, env2: Env | Fits(env1, m) && Fits(env2, m)
        ensures Divides(d, k * (Eval(a, env1) * Eval(b, env1) - Eval(a, env2) * Eval(b, env2)))
      {
        assert Divides(d, k * (Eval(Bin(Mul, a, b), env1) - Eval(Bin(Mul, a, b), env2)));
      }
    }
    ProductStepsSwap(a, b, m, k, d);
    assert Apart(b, a) by {
      ApartSwap(a, b);
    }
    FactorCoeff(Bin(Mul, a, b), a, b, m, k, d);
    FactorCoeff(Bin(Mul, a, b), b, a, m, k, d);
    TimesCommutes(ma.coeff, mb.coeff);
    TimesCommutes(mb.coeff, ma.base);
    MulCoeff(ma, mb, k, d);
  }

  lemma {:induction false} ApartSwap(a: Expr, b: Expr)
    requires Apart(a, b)
    ensures Apart(b, a)
  {
  }

  lemma {:induction false} FactorCoeff(e: Expr, a: Expr, b: Expr, m: ModMap, k: int, d: int)
    requires e == Bin(Mul, a, b) || e == Bin(Mul, b, a)
    requires ReadOnce(a, m) && ReadOnce(b, m) && Apart(a, b) && EvalModular(a, m).Some? && EvalModular(b, m).Some?
    requires ProductSteps(a, b, m, k, d)
    ensures Divides(d, k * (EvalModular(a, m).value.coeff * EvalModular(b, m).value.coeff))
    ensures Divides(d, k * (EvalModular(a, m).value.coeff * EvalModular(b, m).value.base))
    decreases e, 0
  {
    hide Divides, Apart, ProductSteps, EvalModular, ReadOnce;
    var ma, mb := EvalModular(a, m).value, EvalModular(b, m).value;
    var p := ma.coeff;
    forall env: Env | Fits(env, m) ensures Divides(d, k * Eval(b, env) * p) {
      FactorSteps(a, b, m, k, d, env);
      CoeffDivided(a, m, k * Eval(b, env), d);
    }
    forall env1: Env, env2: Env | Fits(env1, m) && Fits(env2, m) ensures Divides(d, k * p * (Eval(b, env1) - Eval(b, env2))) {
      var y1, y2 := Eval(b, env1), Eval(b, env2);
      DividesSum(d, k * y1 * p, k * y2 * p);
      assert k * y1 * p - k * y2 * p == k * p * (y1 - y2) by {
        Rearrange(k, y1, y2, p);
      }
    }
    CoeffDivided(b, m, k * p, d);
    BaseFits(m);
    var y := Eval(b, BaseEnv(m));
    EvalModularSound(b, m, BaseEnv(m));
    var q := Factor(mb.coeff, y - mb.base);
    DividesTimes(d, k * p * mb.coeff, q);
    DividesSum(d, k * y * p, k * p * mb.coeff * q);
    BaseLeft(k, p, y, mb.base, mb.coeff, q);
    assert k * (p * mb.coeff) == k * p * mb.coeff;
  }

  lemma {:induction false} Rearrange(k: int, y1: int, y2: int, p: int)
    ensures k * y1 * p - k * y2 * p == k * p * (y1 - y2)
  {
    assert k * y1 * p == k * p * y1 && k * y2 * p == k * p * y2;
  }

  lemma {:induction false} BaseLeft(k: int, p: int, y: int, n: int, c: int, q: int)
    requires y - n == c * q
    ensures k * y * p - k * p * c * q == k * (p * n)
  {
    assert k * p * c * q == k * p * (c * q);
    assert k * y * p == k * p * y;
    assert k * p * y - k * p * (y - n) == k * p * n;
  }

  lemma {:induction false} QuotientCoeff(a: Expr, b: Expr, m: ModMap, k: int, d: int)
    requires ReadOnce(a, m) && ExactQuotient(a, b, m) && EvalModular(Bin(Div, a, b), m).Some?
    requires StepsDivided(Bin(Div, a, b), m, k, d)
    ensures Divides(d, k * EvalModular(Bin(Div, a, b), m).value.coeff)
    decreases Bin(Div, a, b), 1
  {
    hide Divides, TruncDiv, EvalModular;
    var ma, mb := EvalModular(a, m).value, EvalModular(b, m).value;
    var n := mb.base;
    QuotientClass(a, b, m);
    var c := EvalModular(Bin(Div, a, b), m).value.coeff;
    forall env1: Env, env2: Env | Fits(env1, m) && Fits(env2, m) ensures Divides(d * n, k * (Eval(a, env1) - Eval(a, env2))) {
      QuotientValue(a, b, m, env1);
      QuotientValue(a, b, m, env2);
      var q1, q2 := Eval(Bin(Div, a, b), env1), Eval(Bin(Div, a, b), env2);
      assert Divides(d, k * (q1 - q2));
      var t := Factor(d, k * (q1 - q2));
      Multiple(d * n, t);
      TimesBoth(k, q1, q2, n, d, t);
    }
    CoeffDivided(a, m, k, d * n);
    var t := Factor(d * n, k * (c * n));
    CancelBoth(k, c, n, d, t);
    Multiple(d, t);
  }

  lemma {:induction false} TimesBoth(k: int, q1: int, q2: int, n: int, d: int, t: int)
    requires k * (q1 - q2) == d * t
    ensures k * (q1 * n - q2 * n) == d * n * t
  {
    assert k * (q1 * n - q2 * n) == k * (q1 - q2) * n;
    assert d * t * n == d * n * t;
  }

  lemma {:induction false} CancelBoth(k: int, c: int, n: int, d: int, t: int)
    requires n != 0 && k * (c * n) == d * n * t
    ensures k * c == d * t
  {
    assert (k * c - d * t) * n == 0 by {
      assert k * c * n == k * (c * n) && d * t * n == d * n * t;
    }
    if k * c != d * t {
      Large(k * c - d * t, n);
    }
  }

  lemma {:induction false} QuotientClass(a: Expr, b: Expr, m: ModMap)
    requires ExactQuotient(a, b, m) && EvalModular(Bin(Div, a, b), m).Some?
    ensures var ma, mb, r := EvalModular(a, m).value, EvalModular(b, m).value, EvalModular(Bin(Div, a, b), m).value;
      mb.base != 0 && r.base == 0 && ma.coeff == r.coeff * mb.base
  {
    hide TruncDiv;
    var ma, mb := EvalModular(a, m), EvalModular(b, m);
    assert EvalModular(Bin(Div, a, b), m) == CombineDiv(ma.value, mb.value);
    QuotientCase(ma.value, mb.value);
  }

  lemma {:induction false} QuotientCase(a: ModularEntry, b: ModularEntry)
    requires b.coeff == 0 && a.base == 0 && TruncMod(a.coeff, b.base) == 0 && CombineDiv(a, b).Some?
    ensures b.base != 0 && CombineDiv(a, b).value.base == 0 && a.coeff == CombineDiv(a, b).value.coeff * b.base
  {
    hide TruncDiv;
  }

  /** The value of an exact quotient, times the divisor, is the value of the dividend. */
  lemma {:induction false} QuotientValue(a: Expr, b: Expr, m: ModMap, env: Env)
    requires ExactQuotient(a, b, m) && EvalModular(Bin(Div, a, b), m).Some? && Fits(env, m)
    ensures Eval(a, env) == Eval(Bin(Div, a, b), env) * EvalModular(b, m).value.base
  {
    hide TruncDiv, EvalModular;
    var ma, mb := EvalModular(a, m).value, EvalModular(b, m).value;
    QuotientClass(a, b, m);
    var c := EvalModular(Bin(Div, a, b), m).value.coeff;
    EvalModularSound(a, m, env);
    EvalModularSound(b, m, env);
    var q := Factor(ma.coeff, Eval(a, env));
    var t := Factor(0, Eval(b, env) - mb.base);
    MulSwapped(c, mb.base, q);
    ExactDiv(c * q, mb.base);
  }

  /** Where no variable occurs twice, the class of an expression is in every class that holds all its values. */
  lemma {:induction false} EvalModularLeast(e: Expr, m: ModMap, c: ModularEntry)
    requires ReadOnce(e, m) && EvalModular(e, m).Some?
    requires forall env: Env | Fits(env, m) :: Has(c, Eval(e, env))
    ensures Within(EvalModular(e, m).value, c)
  {
    hide Divides, EvalModular, ReadOnce;
    forall env1: Env, env2: Env | Fits(env1, m) && Fits(env2, m) ensures Divides(c.coeff, 1 * (Eval(e, env1) - Eval(e, env2))) {
      DividesSum(c.coeff, Eval(e, env1) - c.base, Eval(e, env2) - c.base);
    }
    CoeffDivided(e, m, 1, c.coeff);
    BaseFits(m);
    EvalModularSound(e, m, BaseEnv(m));
    WithinCoeff(EvalModular(e, m).value, c, Eval(e, BaseEnv(m)));
  }

  // ----- when there is a result -----

  /** Of sums there is a result exactly for non-negative coefficients. */
  lemma {:induction false} AddSubGives(a: ModularEntry, b: ModularEntry, sign: int)
    ensures CombineAddSub(a, b, sign).Some? <==> a.coeff >= 0 && b.coeff >= 0
    ensures CombineAddSub(a, b, sign).Some? ==>
      var r := CombineAddSub(a, b, sign).value;
      && r.coeff >= 0 && (r.coeff == 0 <==> a.coeff == 0 && b.coeff == 0)
      && (if r.coeff == 0 then r.base == a.base + sign * b.base else r.base >= 0)
  {
    if a.coeff >= 0 && b.coeff >= 0 {
      GcdZero(a.coeff, b.coeff);
      BaseSimplifyRight(a.base + sign * b.base, Gcd(a.coeff, b.coeff));
    }
  }

  /** Of products there is a result exactly if all three parts that depend on a variable are non-negative. */
  lemma {:induction false} MulGives(a: ModularEntry, b: ModularEntry)
    ensures CombineMul(a, b).Some? <==> a.coeff * b.coeff >= 0 && a.coeff * b.base >= 0 && a.base * b.coeff >= 0
    ensures CombineMul(a, b).Some? ==>
      var r := CombineMul(a, b).value;
      && r.coeff >= 0 && (r.coeff == 0 <==> a.coeff * b.coeff == 0 && a.coeff * b.base == 0 && a.base * b.coeff == 0)
      && (if r.coeff == 0 then r.base == a.base * b.base else r.base >= 0)
  {
    var pq, pm, qn := a.coeff * b.coeff, a.coeff * b.base, a.base * b.coeff;
    if pq >= 0 && pm >= 0 && qn >= 0 {
      GcdZero(pm, qn);
      GcdZero(pq, Gcd(pm, qn));
      BaseSimplifyRight(a.base * b.base, Gcd(pq, Gcd(pm, qn)));
    }
  }

  lemma {:induction false} GcdZero(a: nat, b: nat)
    ensures Gcd(a, b) == 0 <==> a == 0 && b == 0
  {
    GcdDivides(a, b);
    if a == 0 && b == 0 {
      assert Gcd(0, 0) == 0;
    }
  }

  /** Anything variable times a negative constant has no result. */
  lemma {:induction false} NegativeFactorFails(e: Expr, v: int, m: ModMap)
    requires EvalModular(e, m).Some? && EvalModular(e, m).value.coeff > 0 && v < 0
    ensures EvalModular(Bin(Mul, e, IntImm(v)), m) == None
    ensures var twice := Bin(Add, Variable(0), Variable(0)); EvalModular(Bin(Mul, twice, IntImm(-3)), map[0 := ModularEntry(0, 2)]) == None
  {
    SignOf(EvalModular(e, m).value.coeff, v);
    MulGives(EvalModular(e, m).value, ModularEntry(v, 0));
    var m1, x := map[0 := ModularEntry(0, 2)], Variable(0);
    assert EvalModular(x, m1) == Some(ModularEntry(0, 2));
    assert Gcd(2, 2) == Gcd(2, 0) == 2;
    assert EvalModular(Bin(Add, x, x), m1) == CombineAddSub(ModularEntry(0, 2), ModularEntry(0, 2), 1);
    MulGives(ModularEntry(BaseSimplify(0, 2), 2), ModularEntry(-3, 0));
  }

  /** An exact quotient by a negative constant has a negative coefficient, with which no sum and no product with a
      positive constant has a result. */
  lemma {:induction false} NegativeDivisorFails(k: int, d: int, other: ModularEntry, sign: int, c: int)
    requires k < 0 && d < 0 && c > 0
    ensures CombineDiv(ModularEntry(0, k * d), ModularEntry(d, 0)) == Some(ModularEntry(0, k))
    ensures CombineAddSub(ModularEntry(0, k), other, sign) == None && CombineAddSub(other, ModularEntry(0, k), sign) == None
    ensures CombineMul(ModularEntry(0, k), ModularEntry(c, 0)) == None
  {
    hide TruncDiv;
    ExactDiv(k, d);
    SignOf(c, k);
    MulGives(ModularEntry(0, k), ModularEntry(c, 0));
  }

  /** The value of an expression that does not depend on a variable, as far as the evaluation finds that out. */
  function ConstantOf(e: Expr, m: ModMap): Option<int> {
    match e
    case IntImm(v) => if v < INT_MAX then Some(v) else None
    case Variable(x) => if x in m && m[x].coeff == 0 then Some(m[x].base) else None
    case Bin(op, a, b) =>
      var ca, cb := ConstantOf(a, m), ConstantOf(b, m);
      if op in {Add, Sub} then
        if ca == None || cb == None then None else Some(if op == Add then ca.value + cb.value else ca.value - cb.value)
      else if op == Mul then
        if ca == Some(0) || cb == Some(0) then Some(0)
        else if ca == None || cb == None then None else Some(ca.value * cb.value)
      else if op == Div && ca == Some(0) && cb.Some? then Some(0)
      else None
    case Select(_, _, _) => None
  }

  predicate NegativeConstant(e: Expr, m: ModMap) {
    ConstantOf(e, m).Some? && ConstantOf(e, m).value < 0
  }

  /** No factor of something variable is a negative constant. */
  predicate NoNegativeFactor(e: Expr, m: ModMap) {
    match e
    case Bin(op, a, b) =>
      op in {Add, Sub, Mul, Div} ==>
        && NoNegativeFactor(a, m) && NoNegativeFactor(b, m)
        && (op == Mul && ConstantOf(a, m) == None ==> !NegativeConstant(b, m))
        && (op == Mul && ConstantOf(b, m) == None ==> !NegativeConstant(a, m))
    case _ => true
  }

  /** Constant divisors are positive. */
  predicate PositiveDivisors(e: Expr, m: ModMap) {
    match e
    case Bin(op, a, b) =>
      op in {Add, Sub, Mul, Div} ==>
        && PositiveDivisors(a, m) && PositiveDivisors(b, m)
        && (op == Div && ConstantOf(b, m).Some? ==> ConstantOf(b, m).value > 0)
    case _ => true
  }

  /** Entries as the evaluation makes them: the coefficient is not negative, and nor is the base of something variable. */
  predicate Normal(r: ModularEntry) {
    r.coeff >= 0 && (r.coeff > 0 ==> r.base >= 0)
  }

  ghost predicate IsConstant(r: ModularEntry, c: Option<int>) {
    (r.coeff == 0 <==> c.Some?) && (c.Some? ==> r.base == c.value)
  }

  /** In every sum both coefficients are non-negative, in every product the three parts that depend on a variable, and nothing
      without a base is divided by the constant 0. */
  predicate Evaluable(e: Expr, m: ModMap) {
    match e
    case Bin(op, a, b) =>
      op in {Add, Sub, Mul, Div} ==>
        && Evaluable(a, m) && Evaluable(b, m)
        && EvalModular(a, m).Some? && EvalModular(b, m).Some?
        && var x, y := EvalModular(a, m).value, EvalModular(b, m).value;
          if op == Mul then x.coeff * y.coeff >= 0 && x.coeff * y.base >= 0 && x.base * y.coeff >= 0
          else if op == Div then !(x.base == 0 && y == ModularEntry(0, 0))
          else x.coeff >= 0 && y.coeff >= 0
    case _ => true
  }

  /** For all divisors and all entries, there is a result exactly if that is so at every operator. */
  lemma {:induction false} EvalModularIff(e: Expr, m: ModMap)
    ensures EvalModular(e, m).Some? <==> Evaluable(e, m)
  {
    hide CombineAddSub, CombineMul;
    match e
    case Bin(op, a, b) =>
      EvalModularIff(a, m);
      EvalModularIff(b, m);
      if op in {Add, Sub, Mul, Div} && EvalModular(a, m).Some? && EvalModular(b, m).Some? {
        AddSubGives(EvalModular(a, m).value, EvalModular(b, m).value, if op == Add then 1 else -1);
        MulGives(EvalModular(a, m).value, EvalModular(b, m).value);
      }
    case _ =>
  }

  /** Without constant divisors that are not positive, there is a result exactly if no factor of something variable is a
      negative constant. */
  lemma {:induction false} EvalModularGives(e: Expr, m: ModMap)
    requires (forall x <- m :: Normal(m[x])) && PositiveDivisors(e, m)
    ensures EvalModular(e, m).Some? <==> NoNegativeFactor(e, m)
    ensures EvalModular(e, m).Some? ==> Normal(EvalModular(e, m).value) && IsConstant(EvalModular(e, m).value, ConstantOf(e, m))
  {
    hide CombineAddSub, CombineMul, CombineDiv;
    match e
    case IntImm(_) =>
    case Variable(_) =>
    case Bin(op, a, b) =>
      if op in {Add, Sub, Mul, Div} {
        EvalModularGives(a, m);
        EvalModularGives(b, m);
        if EvalModular(a, m).Some? && EvalModular(b, m).Some? {
          var ma, mb := EvalModular(a, m).value, EvalModular(b, m).value;
          if op == Mul {
            MulGives(ma, mb);
            MulSigns(ma, mb, ConstantOf(a, m), ConstantOf(b, m));
          } else if op == Div {
            DivGives(ma, mb, ConstantOf(a, m), ConstantOf(b, m));
          } else {
            AddSubGives(ma, mb, if op == Add then 1 else -1);
          }
        }
      }
    case Select(_, _, _) =>
  }

  /** The signs of the parts of a product, in terms of the constants among the factors. */
  lemma {:induction false} MulSigns(a: ModularEntry, b: ModularEntry, ca: Option<int>, cb: Option<int>)
    requires Normal(a) && Normal(b) && IsConstant(a, ca) && IsConstant(b, cb)
    ensures a.coeff * b.coeff >= 0 && (a.coeff * b.coeff == 0 <==> ca.Some? || cb.Some?)
    ensures a.coeff * b.base >= 0 <==> !(ca == None && cb.Some? && cb.value < 0)
    ensures a.base * b.coeff >= 0 <==> !(cb == None && ca.Some? && ca.value < 0)
    ensures cb.Some? ==> (a.coeff * b.base == 0 <==> ca.Some? || cb.value == 0)
    ensures ca.Some? ==> (a.base * b.coeff == 0 <==> cb.Some? || ca.value == 0)
    ensures ca == Some(0) || cb == Some(0) ==> a.base * b.base == 0
  {
    SignOf(a.coeff, b.coeff);
    SignOf(a.coeff, b.base);
    SignOf(b.coeff, a.base);
    SignOf(a.base, b.base);
  }

  lemma {:induction false} SignOf(x: int, y: int)
    ensures x * y == 0 <==> x == 0 || y == 0
    ensures x > 0 ==> (x * y >= 0 <==> y >= 0)
    ensures x * y == y * x
  {
    if x > 0 && y > 0 {
      assert x * y > 0;
    } else if x > 0 && y < 0 {
      assert x * -y > 0;
    } else if x < 0 && y > 0 {
      assert -x * y > 0;
    } else if x < 0 && y < 0 {
      assert -x * -y > 0;
    }
  }

  /** Quotients by positive constants or by something variable always have a result. */
  lemma {:induction false} DivGives(a: ModularEntry, b: ModularEntry, ca: Option<int>, cb: Option<int>)
    requires Normal(a) && Normal(b) && IsConstant(a, ca) && IsConstant(b, cb) && (cb.Some? ==> cb.value > 0)
    ensures CombineDiv(a, b).Some?
    ensures var r := CombineDiv(a, b).value; Normal(r) && r.base == 0 && (r.coeff == 0 <==> ca == Some(0) && cb.Some?)
  {
    if b.coeff == 0 && a.base == 0 {
      var q := TruncDiv(a.coeff, b.base);
      if a.coeff - q * b.base == 0 {
        SignOf(b.base, q);
      }
    }
  }

  lemma {:induction false} DividedMember(me: ModularEntry, factor: nat, v: int)
    requires Has(me, v) && Divides(factor, me.base) && Divides(factor, me.coeff)
    ensures Divides(factor, v)
  {
    DividesTrans(factor, me.coeff, v - me.base);
    DividesSum(factor, v - me.base, me.base);
  }

  /** An extent is only divided by a factor that divides it, so the allocation keeps its number of scalar elements. */
  lemma {:induction false} VectorExtentExact(extent: Expr, factor: nat, lanes: nat, env: Env)
    requires factor > 0 && EvalModular(extent, map[]).Some?
    requires var me := EvalModular(extent, map[]).value; Divides(factor, me.base) && Divides(factor, me.coeff)
    ensures TruncDiv(Eval(extent, env), factor) * (lanes * factor) == Eval(extent, env) * lanes
  {
    hide EvalModular, TruncDiv, Divides;
    var me, v := EvalModular(extent, map[]).value, Eval(extent, env);
    EvalModularSound(extent, map[], env);
    DividedMember(me, factor, v);
    var k := Factor(factor, v);
    assert v == k * factor;
    ExactDiv(k, factor);
    assert k * (lanes * factor) == k * factor * lanes;
  }

  // ----- allocations as vectors -----

  datatype Type = Type(element: nat, lanes: nat)

  datatype Allocation = Allocation(dtype: Type, extents: seq<Expr>)

  /** Adds the type of an access to those seen before. */
  function UpdateTypeMap(tvec: seq<Type>, t: Type): (r: seq<Type>)
    ensures t in r && (forall u: Type :: u in r <==> u in tvec || u == t)
    ensures tvec <= r && (t in tvec ==> r == tvec)
  {
    if t in tvec then tvec else tvec + [t]
  }

  function Product(extents: seq<Expr>, env: Env): int {
    if extents == [] then 1 else Product(extents[..|extents| - 1], env) * Eval(extents[|extents| - 1], env)
  }

  /** The number of scalar elements. */
  function Elements(op: Allocation, env: Env): int {
    Product(op.extents, env) * op.dtype.lanes
  }

  /** All accesses have one type, which is a wider vector of the element type. */
  predicate Widens(tvec: seq<Type>, dtype: Type)
    requires dtype.lanes > 0
  {
    |tvec| == 1 && tvec[0].element == dtype.element && tvec[0].lanes % dtype.lanes == 0 && tvec[0].lanes != dtype.lanes
  }

  /** The allocation for accesses of the types tvec; None if the last extent is not evaluated. */
  function Widened(op: Allocation, tvec: seq<Type>): Option<Allocation>
    requires op.dtype.lanes > 0 && op.extents != []
  {
    if !Widens(tvec, op.dtype) then Some(op)
    else
      var n, factor := |op.extents| - 1, tvec[0].lanes / op.dtype.lanes;
      var entry := EvalModular(op.extents[n], map[]);
      if entry == None then None
      else if Divides(factor, entry.value.base) && Divides(factor, entry.value.coeff) then
        Some(Allocation(tvec[0], op.extents[n := Bin(Div, op.extents[n], IntImm(factor))]))
      else Some(op)
  }

  /** An allocation that is only accessed as wider vectors becomes one of such vectors, if the last extent is seen to be
      divisible, with the same number of scalar elements. Fails if the last extent is not evaluated. */
  method VectorAlloc(op: Allocation, tvec: seq<Type>) returns (ok: bool, r: Allocation)
    requires op.dtype.lanes > 0 && (forall t <- tvec :: t.lanes > 0) && op.extents != []
    ensures Widened(op, tvec) == if ok then Some(r) else None
    ensures !ok <==> Widens(tvec, op.dtype) && EvalModular(op.extents[|op.extents| - 1], map[]) == None
    ensures ok ==> forall env: Env :: Elements(r, env) == Elements(op, env)
    ensures ok && r != op ==> tvec == [r.dtype] && r.dtype.element == op.dtype.element && r.dtype.lanes > op.dtype.lanes
    ensures ok && r != op ==> |r.extents| == |op.extents| && r.extents[..|r.extents| - 1] == op.extents[..|r.extents| - 1]
    ensures ok && Widens(tvec, op.dtype) ==>
      var me, factor := EvalModular(op.extents[|op.extents| - 1], map[]).value, tvec[0].lanes / op.dtype.lanes;
      r != op <==> Divides(factor, me.base) && Divides(factor, me.coeff)
  {
    ok, r := true, op;
    if Widens(tvec, op.dtype) {
      var n, factor := |op.extents| - 1, tvec[0].lanes / op.dtype.lanes;
      var entry := EvalModular(op.extents[n], map[]);
      if entry == None {
        return false, op;
      }
      LanesFactor(tvec[0].lanes, op.dtype.lanes);
      if Divides(factor, entry.value.base) && Divides(factor, entry.value.coeff) {
        r := Allocation(tvec[0], op.extents[n := Bin(Div, op.extents[n], IntImm(factor))]);
        forall env: Env ensures Elements(r, env) == Elements(op, env) {
          VectorExtentExact(op.extents[n], factor, op.dtype.lanes, env);
          SameElements(op, r, factor, env);
        }
      }
    }
  }

  lemma {:induction false} LanesFactor(wide: nat, lanes: nat)
    requires lanes > 0 && wide % lanes == 0 && wide > 0 && wide != lanes
    ensures wide == lanes * (wide / lanes) && wide / lanes > 1 && wide > lanes
  {
    assert wide == lanes * (wide / lanes) + wide % lanes;
    SignOf(lanes, wide / lanes);
    SignOf(lanes, wide / lanes - 1);
  }

  lemma {:induction false} SameElements(op: Allocation, r: Allocation, factor: nat, env: Env)
    requires op.extents != [] && factor > 0 && r.dtype.lanes == op.dtype.lanes * factor
    requires var n := |op.extents| - 1;
      && r.extents == op.extents[n := Bin(Div, op.extents[n], IntImm(factor))]
      && TruncDiv(Eval(op.extents[n], env), factor) * (op.dtype.lanes * factor) == Eval(op.extents[n], env) * op.dtype.lanes
    ensures Elements(r, env) == Elements(op, env)
  {
    hide TruncDiv;
    var n := |op.extents| - 1;
    assert r.extents[..n] == op.extents[..n];
    var x, y, z := Product(op.extents[..n], env), Eval(op.extents[n], env), Eval(r.extents[n], env);
    assert Eval(IntImm(factor), env) == factor;
    assert z == Apply(Div, y, factor);
    TimesAssoc(x, z, r.dtype.lanes);
    TimesAssoc(x, y, op.dtype.lanes);
  }

  lemma {:induction false} TimesAssoc(x: int, y: int, z: int)
    ensures x * y * z == x * (y * z)
  {
  }

  // ----- allocations in a program -----

  /** A program as the rewriter sees it: accesses with their types, in the order of the visit, and allocations. */
  datatype Stmt =
    | Access(buffer: nat, dtype: Type)
    | Block(first: Stmt, rest: Stmt)
    | Allocate(buffer: nat, alloc: Allocation, body: Stmt)

  predicate WellTyped(s: Stmt) {
    match s
    case Access(_, dtype) => dtype.lanes > 0
    case Block(first, rest) => WellTyped(first) && WellTyped(rest)
    case Allocate(_, op, body) => op.dtype.lanes > 0 && op.extents != [] && WellTyped(body)
  }

  type TypeMap = map<nat, seq<Type>>

  function TypesOf(types: TypeMap, b: nat): seq<Type> {
    if b in types then types[b] else []
  }

  /** The types of the accesses of s added to those seen before. */
  function Collected(s: Stmt, types: TypeMap): TypeMap {
    match s
    case Access(b, dtype) => types[b := UpdateTypeMap(TypesOf(types, b), dtype)]
    case Block(first, rest) => Collected(rest, Collected(first, types))
    case Allocate(_, _, body) => Collected(body, types)
  }

  predicate Accesses(s: Stmt, b: nat, t: Type) {
    match s
    case Access(c, dtype) => c == b && dtype == t
    case Block(first, rest) => Accesses(first, b, t) || Accesses(rest, b, t)
    case Allocate(_, _, body) => Accesses(body, b, t)
  }

  /** The types that are collected are those of the accesses, each once. */
  lemma {:induction false} CollectedTypes(s: Stmt, types: TypeMap, b: nat, t: Type)
    ensures t in TypesOf(Collected(s, types), b) <==> t in TypesOf(types, b) || Accesses(s, b, t)
  {
    match s
    case Access(_, _) =>
    case Block(first, rest) =>
      CollectedTypes(first, types, b, t);
      CollectedTypes(rest, Collected(first, types), b, t);
    case Allocate(_, _, body) => CollectedTypes(body, types, b, t);
  }

  predicate Distinct(tvec: seq<Type>) {
    forall i, j | 0 <= i < j < |tvec| :: tvec[i] != tvec[j]
  }

  ghost predicate AllDistinct(types: TypeMap) {
    forall b <- types :: Distinct(types[b])
  }

  lemma {:induction false} CollectedDistinct(s: Stmt, types: TypeMap)
    requires AllDistinct(types)
    ensures AllDistinct(Collected(s, types))
  {
    match s
    case Access(_, _) =>
    case Block(first, rest) =>
      CollectedDistinct(first, types);
      CollectedDistinct(rest, Collected(first, types));
    case Allocate(_, _, body) => CollectedDistinct(body, types);
  }

  predicate Wider(t: Type, dtype: Type)
    requires dtype.lanes > 0
  {
    t.element == dtype.element && t.lanes % dtype.lanes == 0 && t.lanes != dtype.lanes
  }

  /** t is the type of all accesses to b. */
  ghost predicate OnlyType(s: Stmt, b: nat, t: Type) {
    Accesses(s, b, t) && forall u: Type | Accesses(s, b, u) :: u == t
  }

  /** A buffer that was not seen before is widened exactly if all accesses to it have one type, which is wider. */
  lemma {:induction false} WidensIff(s: Stmt, types: TypeMap, b: nat, dtype: Type)
    requires AllDistinct(types) && b !in types && dtype.lanes > 0
    ensures Widens(TypesOf(Collected(s, types), b), dtype) <==> exists t: Type :: OnlyType(s, b, t) && Wider(t, dtype)
  {
    hide Collected, Accesses;
    var tvec := TypesOf(Collected(s, types), b);
    CollectedDistinct(s, types);
    forall t: Type ensures t in tvec <==> Accesses(s, b, t) {
      CollectedTypes(s, types, b, t);
    }
    if Widens(tvec, dtype) {
      assert tvec[0] in tvec;
      assert OnlyType(s, b, tvec[0]);
    }
    if t: Type :| OnlyType(s, b, t) && Wider(t, dtype) {
      assert t in tvec;
      if |tvec| > 1 {
        assert tvec[0] in tvec && tvec[1] in tvec;
      }
    }
  }

  /** Every allocation for the types collected up to the end of its body; None if the last extent of one is not evaluated. */
  function Rewritten(s: Stmt, types: TypeMap): Option<Stmt>
    requires WellTyped(s)
  {
    match s
    case Access(_, _) => Some(s)
    case Block(first, rest) =>
      var r1 := Rewritten(first, types);
      var r2 := Rewritten(rest, Collected(first, types));
      if r1.Some? && r2.Some? then Some(Block(r1.value, r2.value)) else None
    case Allocate(b, op, body) =>
      var r := Rewritten(body, types);
      var op1 := Widened(op, TypesOf(Collected(body, types), b));
      if r.Some? && op1.Some? then Some(Allocate(b, op1.value, r.value)) else None
  }

  /** r is s with other allocations, of as many scalar elements; a buffer with another element type is accessed in that type
      only. */
  ghost predicate Refits(s: Stmt, r: Stmt) {
    match s
    case Access(_, _) => r == s
    case Block(first, rest) => r.Block? && Refits(first, r.first) && Refits(rest, r.rest)
    case Allocate(b, op, body) =>
      && r.Allocate? && r.buffer == b && Refits(body, r.body)
      && (forall env: Env :: Elements(r.alloc, env) == Elements(op, env))
      && (r.alloc != op ==> forall t: Type | Accesses(body, b, t) :: t == r.alloc.dtype)
  }

  class VectorAllocRewriter {
    /** The types of the accesses to each buffer so far. */
    var accMap: TypeMap

    constructor ()
      ensures accMap == map[]
    {
      accMap := map[];
    }

    /** Rewrites the allocations; the types of the accesses are collected on the way. */
    method Mutate(s: Stmt) returns (ok: bool, r: Stmt)
      requires WellTyped(s) && forall b <- accMap, t <- accMap[b] :: t.lanes > 0
      modifies this
      ensures forall b <- accMap, t <- accMap[b] :: t.lanes > 0
      ensures Rewritten(s, old(accMap)) == if ok then Some(r) else None
      ensures ok ==> accMap == Collected(s, old(accMap)) && Refits(s, r)
      decreases s
    {
      hide Widened, Elements;
      r := s;
      match s
      case Access(b, dtype) =>
        accMap := accMap[b := UpdateTypeMap(TypesOf(accMap, b), dtype)];
        ok := true;
      case Block(first, rest) =>
        var r1, r2;
        ok, r1 := Mutate(first);
        if !ok {
          return;
        }
        ok, r2 := Mutate(rest);
        r := Block(r1, r2);
      case Allocate(b, op, body) =>
        var r1, op1;
        ghost var before := accMap;
        ok, r1 := Mutate(body);
        if !ok {
          return;
        }
        ok, op1 := VectorAlloc(op, TypesOf(accMap, b));
        r := Allocate(b, op1, r1);
        if ok && op1 != op {
          forall t: Type | Accesses(body, b, t) ensures t == op1.dtype {
            CollectedTypes(body, before, b, t);
          }
        }
    }
  }
}
