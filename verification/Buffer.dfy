/** Index expressions of buffers: the simplification of division and remainder pairs, and the offset of an element (src/lang/buffer.cc). */
module Buffer {
  import opened Wrappers
  import Arithmetic
  import IntSet

  datatype Op = Add | Sub | Mul | Div | Mod

  /** Leaf stands for an expression of any other kind. */
  datatype Expr =
    | IntImm(value: int)
    | Leaf(name: nat)
    | Bin(op: Op, a: Expr, b: Expr)

  type Env = map<nat, int>

  function Apply(op: Op, x: int, y: int): int {
    match op
    case Add => x + y
    case Sub => x - y
    case Mul => x * y
    case Div => IntSet.TruncDiv(x, y)
    case Mod => IntSet.TruncMod(x, y)
  }

  function Eval(e: Expr, env: Env): int {
    match e
    case IntImm(v) => v
    case Leaf(x) => if x in env then env[x] else 0
    case Bin(op, a, b) => Apply(op, Eval(a, env), Eval(b, env))
  }

  /** No divisor is zero. */
  predicate Defined(e: Expr, env: Env) {
    match e
    case Bin(op, a, b) => Defined(a, env) && Defined(b, env) && (op in {Div, Mod} ==> Eval(b, env) != 0)
    case _ => true
  }

  function Size(e: Expr): nat {
    match e
    case Bin(_, a, b) => 1 + Size(a) + Size(b)
    case _ => 1
  }

  /** Where e has a value, so has r, and it is the same. */
  ghost predicate Refines(e: Expr, r: Expr) {
    forall env: Env | Defined(e, env) :: Defined(r, env) && Eval(r, env) == Eval(e, env)
  }

  // ----- sums -----

  function SplitAdd(e: Expr): (es: seq<Expr>)
    ensures es != []
  {
    if e.Bin? && e.op == Add then SplitAdd(e.a) + SplitAdd(e.b) else [e]
  }

  function SumOf(es: seq<Expr>, env: Env): int {
    if es == [] then 0 else SumOf(es[..|es| - 1], env) + Eval(es[|es| - 1], env)
  }

  predicate AllDefined(es: seq<Expr>, env: Env) {
    forall k | 0 <= k < |es| :: Defined(es[k], env)
  }

  /** The sizes of the expressions and of the additions that join them. */
  function Weight(es: seq<Expr>): nat {
    if es == [] then 0 else Weight(es[..|es| - 1]) + Size(es[|es| - 1]) + 1
  }

  lemma {:induction false} SumAppend(es: seq<Expr>, fs: seq<Expr>, env: Env)
    ensures SumOf(es + fs, env) == SumOf(es, env) + SumOf(fs, env)
    ensures Weight(es + fs) == Weight(es) + Weight(fs)
    decreases |fs|
  {
    if fs == [] {
      assert es + fs == es;
    } else {
      var n := |fs| - 1;
      assert (es + fs)[..|es| + n] == es + fs[..n];
      SumAppend(es, fs[..n], env);
    }
  }

  lemma {:induction false} SumOne(e: Expr, env: Env)
    ensures SumOf([e], env) == Eval(e, env) && Weight([e]) == Size(e) + 1
  {
    assert [e][..0] == [];
    assert SumOf([e][..0], env) == 0 && Weight([e][..0]) == 0;
  }

  lemma {:induction false} SplitAddRight(e: Expr, env: Env)
    ensures SumOf(SplitAdd(e), env) == Eval(e, env) && Weight(SplitAdd(e)) == Size(e) + 1
    ensures Defined(e, env) ==> AllDefined(SplitAdd(e), env)
  {
    if e.Bin? && e.op == Add {
      SplitAddRight(e.a, env);
      SplitAddRight(e.b, env);
      SumAppend(SplitAdd(e.a), SplitAdd(e.b), env);
    } else {
      SumOne(e, env);
    }
  }

  function SplitStack(stack: seq<Expr>): seq<Expr> {
    if stack == [] then [] else SplitAdd(stack[|stack| - 1]) + SplitStack(stack[..|stack| - 1])
  }

  lemma {:induction false} StackTop(stack: seq<Expr>)
    requires stack != [] && stack[|stack| - 1].Bin? && stack[|stack| - 1].op == Add
    ensures var rest, top := stack[..|stack| - 1], stack[|stack| - 1];
      SplitStack(rest + [top.b, top.a]) == SplitStack(stack) && Weight(rest + [top.b, top.a]) < Weight(stack) + 1
  {
    var rest, top := stack[..|stack| - 1], stack[|stack| - 1];
    var two := rest + [top.b, top.a];
    assert two[..|two| - 1] == rest + [top.b];
    assert (rest + [top.b])[..|rest|] == rest;
    assert SplitStack(two) == SplitAdd(top.a) + (SplitAdd(top.b) + SplitStack(rest));
  }

  function StackSize(stack: seq<Expr>): nat {
    if stack == [] then 0 else StackSize(stack[..|stack| - 1]) + Size(stack[|stack| - 1])
  }

  lemma {:induction false} StackSizeTop(rest: seq<Expr>, x: Expr, y: Expr)
    ensures StackSize(rest + [x, y]) == StackSize(rest) + Size(x) + Size(y)
  {
    assert (rest + [x, y])[..|rest| + 1] == rest + [x];
    assert (rest + [x])[..|rest|] == rest;
  }

  /** The summands of an expression, from left to right. */
  method ExprSplitAddition(e: Expr) returns (ret: seq<Expr>)
    ensures ret == SplitAdd(e)
  {
    ret := [];
    var stack := [e];
    assert [e][..0] == [];
    assert SplitStack([e]) == SplitAdd(e) + SplitStack([e][..0]);
    while stack != []
      invariant ret + SplitStack(stack) == SplitAdd(e)
      decreases StackSize(stack)
    {
      var top := stack[|stack| - 1];
      var rest := stack[..|stack| - 1];
      if top.Bin? && top.op == Add {
        StackTop(stack);
        StackSizeTop(rest, top.b, top.a);
        stack := rest + [top.b, top.a];
      } else {
        assert ret + SplitStack(stack) == (ret + [top]) + SplitStack(rest);
        ret := ret + [top];
        stack := rest;
      }
    }
  }

  // ----- the pattern -----

  /** The factors that a product has on the right, and what is left of them. */
  function Factors(e: Expr): seq<Expr> {
    if e.Bin? && e.op == Mul then Factors(e.a) + [e.b] else []
  }

  function Base(e: Expr): Expr {
    if e.Bin? && e.op == Mul then Base(e.a) else e
  }

  /** The summands that a sum has on the left, and what is right of them. */
  function Addends(e: Expr): seq<Expr> {
    if e.Bin? && e.op == Add then [e.a] + Addends(e.b) else []
  }

  function Tail(e: Expr): Expr {
    if e.Bin? && e.op == Add then Tail(e.b) else e
  }

  function Product(fs: seq<Expr>): Expr
    requires fs != []
  {
    if |fs| == 1 then fs[0] else Bin(Mul, fs[0], Product(fs[1..]))
  }

  function Sum(es: seq<Expr>): Expr
    requires es != []
  {
    if |es| == 1 then es[0] else Bin(Add, Sum(es[..|es| - 1]), es[|es| - 1])
  }

  /** e is (a1 + (a2 + ... (c / k * inner factors))) * outer factors, where k is the product of the inner and the outer factors. */
  predicate Matches(e: Expr, c: Expr, k: Expr) {
    Factors(e) != [] &&
    var x := Tail(Base(e));
    && Base(x) == Bin(Div, c, k)
    && k == if Factors(x) == [] then Product(Factors(e)) else Bin(Mul, Product(Factors(x)), Product(Factors(e)))
  }

  /** (a1 + a2 + ...) * outer factors + c. */
  function Merged(e: Expr, c: Expr): Expr
    requires Factors(e) != []
  {
    var adds := Addends(Base(e));
    if adds == [] then c else Bin(Add, Bin(Mul, Sum(adds), Product(Factors(e))), c)
  }

  /** A product is its base times the product of its factors. */
  lemma {:induction false} FactorsRight(e: Expr, env: Env)
    requires Factors(e) != []
    ensures Eval(e, env) == Eval(Base(e), env) * Eval(Product(Factors(e)), env)
    ensures Size(e) == Size(Base(e)) + 1 + Size(Product(Factors(e)))
    ensures Defined(e, env) ==> Defined(Base(e), env) && Defined(Product(Factors(e)), env)
  {
    if Factors(e.a) == [] {
      assert Factors(e) == [e.b];
    } else {
      FactorsRight(e.a, env);
      ProductSnoc(Factors(e.a), e.b, env);
      Arithmetic.MulAssoc(Eval(Base(e), env), Eval(Product(Factors(e.a)), env), Eval(e.b, env));
    }
  }

  lemma {:induction false} ProductSnoc(fs: seq<Expr>, f: Expr, env: Env)
    requires fs != []
    ensures Eval(Product(fs + [f]), env) == Eval(Product(fs), env) * Eval(f, env)
    ensures Size(Product(fs + [f])) == Size(Product(fs)) + 1 + Size(f)
    ensures Defined(Product(fs), env) && Defined(f, env) ==> Defined(Product(fs + [f]), env)
  {
    assert (fs + [f])[1..] == fs[1..] + [f];
    if |fs| == 1 {
      assert [f][1..] == [];
      assert Product(fs + [f]) == Bin(Mul, fs[0], Product([f]));
    } else {
      ProductSnoc(fs[1..], f, env);
      Arithmetic.MulAssoc(Eval(fs[0], env), Eval(Product(fs[1..]), env), Eval(f, env));
    }
  }

  /** A sum is its addends and its tail. */
  lemma {:induction false} AddendsRight(e: Expr, env: Env)
    requires Addends(e) != []
    ensures Eval(e, env) == Eval(Sum(Addends(e)), env) + Eval(Tail(e), env)
    ensures Size(e) == Size(Sum(Addends(e))) + 1 + Size(Tail(e))
    ensures Defined(e, env) ==> Defined(Sum(Addends(e)), env) && Defined(Tail(e), env)
  {
    if Addends(e.b) != [] {
      AddendsRight(e.b, env);
      SumCons(e.a, Addends(e.b), env);
    } else {
      assert Addends(e) == [e.a];
    }
  }

  lemma {:induction false} SumCons(e: Expr, es: seq<Expr>, env: Env)
    requires es != []
    ensures Eval(Sum([e] + es), env) == Eval(e, env) + Eval(Sum(es), env)
    ensures Size(Sum([e] + es)) == Size(e) + 1 + Size(Sum(es))
    ensures Defined(Sum(es), env) && Defined(e, env) ==> Defined(Sum([e] + es), env)
    decreases |es|
  {
    var n := |es| - 1;
    assert ([e] + es)[..|es|] == [e] + es[..n];
    if n > 0 {
      SumCons(e, es[..n], env);
    } else {
      assert [e] + es[..n] == [e];
    }
  }

  lemma {:induction false} DivModSum(x: int, k: int)
    ensures IntSet.TruncDiv(x, k) * k + IntSet.TruncMod(x, k) == x
  {
  }

  /** Merging keeps the value of product plus remainder, and makes them smaller. */
  lemma {:induction false} MergedRight(e: Expr, c: Expr, k: Expr, env: Env)
    requires Matches(e, c, k)
    ensures Eval(Merged(e, c), env) == Eval(e, env) + Eval(Bin(Mod, c, k), env)
    ensures Size(Merged(e, c)) < Size(e) + Size(Bin(Mod, c, k))
    ensures Defined(e, env) && Defined(Bin(Mod, c, k), env) ==> Defined(Merged(e, c), env)
  {
    hide Merged, Eval, Size, Base, Tail, Product, Addends;
    MergedValue(e, c, k, env);
    MergedSmaller(e, c, k);
    if Defined(e, env) && Defined(Bin(Mod, c, k), env) {
      MergedDefined(e, c, k, env);
    }
  }

  lemma {:induction false} MergedValue(e: Expr, c: Expr, k: Expr, env: Env)
    requires Matches(e, c, k)
    ensures Eval(Merged(e, c), env) == Eval(e, env) + Eval(Bin(Mod, c, k), env)
  {
    hide Sum, Product, Factors, Addends, Tail, Base, IntSet.TruncDiv, IntSet.TruncMod;
    var base, x := Base(e), Tail(Base(e));
    var outer := Eval(Product(Factors(e)), env);
    FactorsRight(e, env);
    DivModSum(Eval(c, env), Eval(k, env));
    TailRight(x, c, k, outer, env);
    if Addends(base) != [] {
      AddendsRight(base, env);
      Arithmetic.Distribute(Eval(Sum(Addends(base)), env), Eval(x, env), outer);
    } else {
      NoAddends(base);
    }
  }

  lemma {:induction false} MergedSmaller(e: Expr, c: Expr, k: Expr)
    requires Matches(e, c, k)
    ensures Size(Merged(e, c)) < Size(e) + Size(Bin(Mod, c, k))
  {
    hide Sum, Product, Factors, Addends, Tail, Base;
    var base, x := Base(e), Tail(Base(e));
    FactorsRight(e, map[]);
    if Addends(base) != [] {
      AddendsRight(base, map[]);
    } else {
      NoAddends(base);
    }
    QuotientSize(x, c, k);
  }

  lemma {:induction false} QuotientSize(x: Expr, c: Expr, k: Expr)
    requires Base(x) == Bin(Div, c, k)
    ensures Size(x) >= 1 + Size(c)
  {
    if Factors(x) != [] {
      FactorsRight(x, map[]);
    }
  }

  lemma {:induction false} MergedDefined(e: Expr, c: Expr, k: Expr, env: Env)
    requires Matches(e, c, k) && Defined(e, env) && Defined(Bin(Mod, c, k), env)
    ensures Defined(Merged(e, c), env)
  {
    hide Sum, Product, Factors, Addends, Tail, Base;
    FactorsRight(e, env);
    if Addends(Base(e)) != [] {
      AddendsRight(Base(e), env);
    }
  }

  lemma {:induction false} NoAddends(e: Expr)
    requires Addends(e) == []
    ensures Tail(e) == e
  {
  }

  /** The tail times the outer factors is the quotient times the divisor. */
  lemma {:induction false} TailRight(x: Expr, c: Expr, k: Expr, outer: int, env: Env)
    requires Base(x) == Bin(Div, c, k)
    requires Eval(k, env) == if Factors(x) == [] then outer else Eval(Product(Factors(x)), env) * outer
    ensures Eval(x, env) * outer == IntSet.TruncDiv(Eval(c, env), Eval(k, env)) * Eval(k, env)
  {
    if Factors(x) != [] {
      FactorsRight(x, env);
      Arithmetic.MulAssoc(IntSet.TruncDiv(Eval(c, env), Eval(k, env)), Eval(Product(Factors(x)), env), outer);
    }
  }

  /** Recognises the pattern. */
  method MergeMulModInner(multExpr: Expr, modL: Expr, modR: Expr) returns (found: bool, ret: Expr)
    ensures found <==> Matches(multExpr, modL, modR)
    ensures found ==> ret == Merged(multExpr, modL)
  {
    ret := multExpr;
    if !(multExpr.Bin? && multExpr.op == Mul) {
      return false, ret;
    }
    var multOuter, inner := multExpr.b, multExpr.a;
    ghost var outer := [multExpr.b];
    while inner.Bin? && inner.op == Mul
      invariant outer != [] && Factors(multExpr) == Factors(inner) + outer && Base(multExpr) == Base(inner) && multOuter == Product(outer)
      decreases inner
    {
      outer := [inner.b] + outer;
      multOuter := Bin(Mul, inner.b, multOuter);
      inner := inner.a;
    }
    assert [] + outer == outer;
    var found1, noOptSum := SearchInner(multExpr, inner, multOuter, modL, modR);
    if found1 {
      return true, if noOptSum.Some? then Bin(Add, Bin(Mul, noOptSum.value, multOuter), modL) else modL;
    }
    return false, ret;
  }

  /** The place of the search: below the addends and factors that were seen, which are those of the whole. */
  ghost predicate SearchAt(inner: Expr, search: Expr, adds: seq<Expr>, factors: seq<Expr>) {
    if factors == [] then Addends(inner) == adds + Addends(search) && Tail(inner) == Tail(search)
    else
      && Addends(inner) == adds && Base(Tail(inner)) == Base(search)
      && Factors(Tail(inner)) == Factors(search) + factors
  }

  lemma {:induction false} SearchStart(inner: Expr)
    ensures SearchAt(inner, inner, [], [])
  {
    assert [] + Addends(inner) == Addends(inner);
  }

  lemma {:induction false} ProductCons(f: Expr, fs: seq<Expr>)
    ensures Product([f] + fs) == if fs == [] then f else Bin(Mul, f, Product(fs))
  {
    assert ([f] + fs)[1..] == fs;
  }

  lemma {:induction false} SumAdds(es: seq<Expr>, e: Expr)
    ensures Sum(es + [e]) == if es == [] then e else Bin(Add, Sum(es), e)
  {
    assert (es + [e])[..|es|] == es;
  }

  lemma {:induction false} SearchFactor(inner: Expr, search: Expr, adds: seq<Expr>, factors: seq<Expr>)
    requires SearchAt(inner, search, adds, factors) && search.Bin? && search.op == Mul
    ensures SearchAt(inner, search.a, adds, [search.b] + factors)
  {
    assert Factors(search.a) + [search.b] + factors == Factors(search.a) + ([search.b] + factors);
    assert adds + [] == adds && [search.b] + [] == [search.b];
  }

  lemma {:induction false} SearchAddend(inner: Expr, search: Expr, adds: seq<Expr>)
    requires SearchAt(inner, search, adds, []) && search.Bin? && search.op == Add
    ensures SearchAt(inner, search.b, adds + [search.a], [])
  {
    assert adds + ([search.a] + Addends(search.b)) == adds + [search.a] + Addends(search.b);
  }

  /** At a quotient, the search is at its end. */
  lemma {:induction false} SearchQuotient(e: Expr, search: Expr, adds: seq<Expr>, factors: seq<Expr>, c: Expr, k: Expr)
    requires Factors(e) != [] && SearchAt(Base(e), search, adds, factors) && search.Bin? && search.op == Div
    ensures Addends(Base(e)) == adds
    ensures var k1 := if factors == [] then Product(Factors(e)) else Bin(Mul, Product(factors), Product(Factors(e)));
      Matches(e, c, k) <==> search == Bin(Div, c, k) && k == k1
  {
    assert [] + factors == factors && adds + [] == adds;
  }

  /** Anything else than a quotient below factors, or an addition, a product or a quotient, does not match. */
  lemma {:induction false} SearchFails(e: Expr, search: Expr, adds: seq<Expr>, factors: seq<Expr>, c: Expr, k: Expr)
    requires Factors(e) != [] && SearchAt(Base(e), search, adds, factors)
    requires !search.Bin? || search.op !in {Div, Mul, Add} || (search.op == Add && factors != [])
    ensures !Matches(e, c, k)
  {
    hide Product;
  }

  /** Searches the quotient below additions and then below multiplications. */
  method SearchInner(ghost e: Expr, inner: Expr, multOuter: Expr, modL: Expr, modR: Expr) returns (found: bool, noOptSum: Option<Expr>)
    requires Factors(e) != [] && inner == Base(e) && multOuter == Product(Factors(e))
    ensures found <==> Matches(e, modL, modR)
    ensures found ==> noOptSum == if Addends(inner) == [] then None else Some(Sum(Addends(inner)))
  {
    hide Matches, Factors, Addends, Base, Tail, SearchAt, Sum, Product;
    var search := inner;
    var multInner: Option<Expr> := None;
    noOptSum := None;
    ghost var adds: seq<Expr>, factors: seq<Expr> := [], [];
    SearchStart(inner);
    while true
      invariant SearchAt(inner, search, adds, factors)
      invariant multInner == if factors == [] then None else Some(Product(factors))
      invariant noOptSum == if adds == [] then None else Some(Sum(adds))
      decreases search
    {
      if !search.Bin? || search.op !in {Div, Mul, Add} {
        SearchFails(e, search, adds, factors, modL, modR);
        return false, noOptSum;
      } else if search.op == Div {
        var overall := if multInner.Some? then Bin(Mul, multInner.value, multOuter) else multOuter;
        SearchQuotient(e, search, adds, factors, modL, modR);
        return overall == search.b && overall == modR && search.a == modL, noOptSum;
      } else if search.op == Mul {
        SearchFactor(inner, search, adds, factors);
        ProductCons(search.b, factors);
        multInner := Some(if multInner.Some? then Bin(Mul, search.b, multInner.value) else search.b);
        factors := [search.b] + factors;
        search := search.a;
      } else {
        if multInner.Some? {
          SearchFails(e, search, adds, factors, modL, modR);
          return false, noOptSum;
        }
        SearchAddend(inner, search, adds);
        SumAdds(adds, search.a);
        noOptSum := Some(if noOptSum.Some? then Bin(Add, noOptSum.value, search.a) else search.a);
        adds := adds + [search.a];
        search := search.b;
      }
    }
  }

  // ----- merging all pairs -----

  datatype Pair = Pair(first: Expr, second: Expr)

  function Remainder(m: Pair): Expr {
    Bin(Mod, m.first, m.second)
  }

  function Remainders(ms: seq<Pair>): seq<Expr> {
    seq(|ms|, k requires 0 <= k < |ms| => Remainder(ms[k]))
  }

  function Optional(o: Option<Expr>): seq<Expr> {
    if o.Some? then [o.value] else []
  }

  /** All that is still to be added up: products, remainders and the sum of the rest. */
  function Parts(mults: seq<Expr>, mods: seq<Pair>, noOptSum: Option<Expr>): seq<Expr> {
    Optional(noOptSum) + mults + Remainders(mods)
  }

  /** Other parts of the same sum: the same value, and not larger. */
  ghost predicate SameSum(es: seq<Expr>, fs: seq<Expr>) {
    && Weight(fs) <= Weight(es)
    && forall env: Env :: SumOf(fs, env) == SumOf(es, env) && (AllDefined(es, env) ==> AllDefined(fs, env))
  }

  predicate AMatch(mults: seq<Expr>, mods: seq<Pair>) {
    exists i, j :: 0 <= i < |mults| && 0 <= j < |mods| && Matches(mults[i], mods[j].first, mods[j].second)
  }

  lemma {:induction false} DefinedAppend(es: seq<Expr>, fs: seq<Expr>, env: Env)
    ensures AllDefined(es + fs, env) <==> AllDefined(es, env) && AllDefined(fs, env)
  {
    if AllDefined(es + fs, env) {
      assert forall k | 0 <= k < |es| :: es[k] == (es + fs)[k];
      assert forall k | 0 <= k < |fs| :: fs[k] == (es + fs)[|es| + k];
    }
  }

  lemma {:induction false} PartsRight(mults: seq<Expr>, mods: seq<Pair>, noOptSum: Option<Expr>, env: Env)
    ensures SumOf(Parts(mults, mods, noOptSum), env) == SumOf(Optional(noOptSum), env) + SumOf(mults, env) + SumOf(Remainders(mods), env)
    ensures Weight(Parts(mults, mods, noOptSum)) == Weight(Optional(noOptSum)) + Weight(mults) + Weight(Remainders(mods))
    ensures AllDefined(Parts(mults, mods, noOptSum), env) <==>
      AllDefined(Optional(noOptSum), env) && AllDefined(mults, env) && AllDefined(Remainders(mods), env)
  {
    SumAppend(Optional(noOptSum) + mults, Remainders(mods), env);
    SumAppend(Optional(noOptSum), mults, env);
    DefinedAppend(Optional(noOptSum) + mults, Remainders(mods), env);
    DefinedAppend(Optional(noOptSum), mults, env);
  }

  lemma {:induction false} SnocRight(es: seq<Expr>, e: Expr, env: Env)
    ensures SumOf(es + [e], env) == SumOf(es, env) + Eval(e, env) && Weight(es + [e]) == Weight(es) + Size(e) + 1
    ensures AllDefined(es + [e], env) <==> AllDefined(es, env) && Defined(e, env)
  {
    assert (es + [e])[..|es|] == es;
    DefinedAppend(es, [e], env);
  }

  lemma {:induction false} RemaindersSnoc(ms: seq<Pair>, m: Pair)
    ensures Remainders(ms + [m]) == Remainders(ms) + [Remainder(m)]
  {
  }

  function AddTo(o: Option<Expr>, e: Expr): Option<Expr> {
    Some(if o.Some? then Bin(Add, o.value, e) else e)
  }

  lemma {:induction false} AddToRight(o: Option<Expr>, e: Expr, env: Env)
    ensures SumOf(Optional(AddTo(o, e)), env) == SumOf(Optional(o), env) + Eval(e, env)
    ensures Weight(Optional(AddTo(o, e))) == Weight(Optional(o)) + Size(e) + 1
    ensures AllDefined(Optional(AddTo(o, e)), env) <==> AllDefined(Optional(o), env) && Defined(e, env)
  {
    SumOne(AddTo(o, e).value, env);
    if o.Some? {
      SumOne(o.value, env);
    }
  }

  predicate IsMul(e: Expr) {
    e.Bin? && e.op == Mul
  }

  predicate IsMod(e: Expr) {
    e.Bin? && e.op == Mod
  }

  /** The parts with the summand e put where it belongs. */
  function Inserted(e: Expr, mults: seq<Expr>, mods: seq<Pair>, noOptSum: Option<Expr>): seq<Expr> {
    if IsMod(e) then Parts(mults, mods + [Pair(e.a, e.b)], noOptSum)
    else if IsMul(e) then Parts(mults + [e], mods, noOptSum)
    else Parts(mults, mods, AddTo(noOptSum, e))
  }

  lemma {:induction false} InsertRight(mults: seq<Expr>, mods: seq<Pair>, noOptSum: Option<Expr>, e: Expr, env: Env)
    ensures var ps, qs := Parts(mults, mods, noOptSum), Inserted(e, mults, mods, noOptSum);
      && SumOf(qs, env) == SumOf(ps, env) + Eval(e, env) && Weight(qs) == Weight(ps) + Size(e) + 1
      && (AllDefined(qs, env) <==> AllDefined(ps, env) && Defined(e, env))
  {
    hide Parts, AllDefined, Defined;
    PartsRight(mults, mods, noOptSum, env);
    if IsMod(e) {
      PartsRight(mults, mods + [Pair(e.a, e.b)], noOptSum, env);
      RemaindersSnoc(mods, Pair(e.a, e.b));
      SnocRight(Remainders(mods), e, env);
    } else if IsMul(e) {
      PartsRight(mults + [e], mods, noOptSum, env);
      SnocRight(mults, e, env);
    } else {
      PartsRight(mults, mods, AddTo(noOptSum, e), env);
      AddToRight(noOptSum, e, env);
    }
  }

  function MulsOf(es: seq<Expr>): seq<Expr> {
    if es == [] then []
    else
      var e := es[|es| - 1];
      MulsOf(es[..|es| - 1]) + if IsMul(e) then [e] else []
  }

  function ModsOf(es: seq<Expr>): seq<Pair> {
    if es == [] then []
    else
      var e := es[|es| - 1];
      ModsOf(es[..|es| - 1]) + if IsMod(e) then [Pair(e.a, e.b)] else []
  }

  function RestOf(o: Option<Expr>, es: seq<Expr>): Option<Expr> {
    if es == [] then o
    else
      var e, o1 := es[|es| - 1], RestOf(o, es[..|es| - 1]);
      if IsMul(e) || IsMod(e) then o1 else AddTo(o1, e)
  }

  lemma {:induction false} Distributed(es: seq<Expr>, e: Expr, o: Option<Expr>)
    ensures MulsOf(es + [e]) == MulsOf(es) + if IsMul(e) then [e] else []
    ensures ModsOf(es + [e]) == ModsOf(es) + if IsMod(e) then [Pair(e.a, e.b)] else []
    ensures RestOf(o, es + [e]) == if IsMul(e) || IsMod(e) then RestOf(o, es) else AddTo(RestOf(o, es), e)
  {
    assert (es + [e])[..|es|] == es;
  }

  /** The lists after the summands are distributed over them. */
  function PartsWith(es: seq<Expr>, mults: seq<Expr>, mods: seq<Pair>, noOptSum: Option<Expr>): seq<Expr> {
    Parts(mults + MulsOf(es), mods + ModsOf(es), RestOf(noOptSum, es))
  }

  lemma {:induction false} PartsWithRight(es: seq<Expr>, mults: seq<Expr>, mods: seq<Pair>, noOptSum: Option<Expr>, env: Env)
    ensures var ps, qs := Parts(mults, mods, noOptSum), PartsWith(es, mults, mods, noOptSum);
      && SumOf(qs, env) == SumOf(ps, env) + SumOf(es, env) && Weight(qs) == Weight(ps) + Weight(es)
      && (AllDefined(ps, env) && AllDefined(es, env) ==> AllDefined(qs, env))
    decreases |es|
  {
    hide Parts, AllDefined, Defined, PartsWith, Inserted, MulsOf, ModsOf, RestOf, Eval, Size;
    if es == [] {
      NothingAdded(mults, mods, noOptSum);
    } else {
      var init, e := es[..|es| - 1], es[|es| - 1];
      assert es == init + [e];
      PartsWithRight(init, mults, mods, noOptSum, env);
      PartsWithSnoc(init, e, mults, mods, noOptSum);
      PartsWithUnfold(init, mults, mods, noOptSum);
      SnocRight(init, e, env);
      InsertRight(mults + MulsOf(init), mods + ModsOf(init), RestOf(noOptSum, init), e, env);
    }
  }

  lemma {:induction false} PartsWithUnfold(es: seq<Expr>, mults: seq<Expr>, mods: seq<Pair>, noOptSum: Option<Expr>)
    ensures PartsWith(es, mults, mods, noOptSum) == Parts(mults + MulsOf(es), mods + ModsOf(es), RestOf(noOptSum, es))
  {
  }

  lemma {:induction false} NothingAdded(mults: seq<Expr>, mods: seq<Pair>, noOptSum: Option<Expr>)
    ensures PartsWith([], mults, mods, noOptSum) == Parts(mults, mods, noOptSum)
  {
    assert mults + [] == mults && mods + [] == mods;
  }

  lemma {:induction false} PartsWithSnoc(es: seq<Expr>, e: Expr, mults: seq<Expr>, mods: seq<Pair>, noOptSum: Option<Expr>)
    ensures PartsWith(es + [e], mults, mods, noOptSum) == Inserted(e, mults + MulsOf(es), mods + ModsOf(es), RestOf(noOptSum, es))
  {
    hide Parts, MulsOf, ModsOf, RestOf;
    Distributed(es, e, noOptSum);
    assert mults + (MulsOf(es) + [e]) == mults + MulsOf(es) + [e] && mults + (MulsOf(es) + []) == mults + MulsOf(es);
    assert IsMod(e) ==> mods + (ModsOf(es) + [Pair(e.a, e.b)]) == mods + ModsOf(es) + [Pair(e.a, e.b)];
    assert mods + (ModsOf(es) + []) == mods + ModsOf(es);
  }

  /** The lists of a search: products, remainders and the sum of the rest. */
  datatype Lists = Lists(mults: seq<Expr>, mods: seq<Pair>, rest: Option<Expr>)

  /** The first product that matches a remainder, or the number of products. */
  function FirstMatch(mults: seq<Expr>, m: Pair): (k: nat)
    ensures k <= |mults| && forall i | 0 <= i < k :: !Matches(mults[i], m.first, m.second)
    ensures k < |mults| ==> Matches(mults[k], m.first, m.second)
  {
    if mults == [] || Matches(mults[0], m.first, m.second) then 0
    else
      var k := FirstMatch(mults[1..], m);
      assert forall i | 0 < i < k + 1 :: mults[i] == mults[1..][i - 1];
      k + 1
  }

  predicate MatchAt(l: Lists, k: nat, j: nat) {
    k < |l.mults| && j < |l.mods| && Matches(l.mults[k], l.mods[j].first, l.mods[j].second)
  }

  function Inserting(l: Lists, k: nat, j: nat): seq<Expr>
    requires MatchAt(l, k, j)
  {
    SplitAdd(Merged(l.mults[k], l.mods[j].first))
  }

  /** A product and a remainder are taken out, and the summands of what they merge to put in. */
  function Replaced(l: Lists, k: nat, j: nat): Lists
    requires MatchAt(l, k, j)
  {
    var eles := Inserting(l, k, j);
    Lists(l.mults[..k] + l.mults[k + 1..] + MulsOf(eles), l.mods[..j] + l.mods[j + 1..] + ModsOf(eles), RestOf(l.rest, eles))
  }

  /** Where the search goes on: from the start when a product came in, else behind the remainder taken out, but
      at the last remainder when that was the last one and others came in. */
  function NextAt(l: Lists, k: nat, j: nat): (next: nat)
    requires MatchAt(l, k, j)
    ensures next <= |Replaced(l, k, j).mods|
  {
    var eles, n := Inserting(l, k, j), |Replaced(l, k, j).mods|;
    if MulsOf(eles) != [] then 0
    else if j + 1 < |l.mods| then j
    else if ModsOf(eles) != [] then n - 1
    else n
  }

  function PartsIn(l: Lists): seq<Expr> {
    Parts(l.mults, l.mods, l.rest)
  }

  lemma {:induction false} ReplacedShrinks(l: Lists, k: nat, j: nat)
    requires MatchAt(l, k, j)
    ensures Shrinks(PartsIn(l), PartsIn(Replaced(l, k, j)))
  {
    hide Parts, Matches, Shrinks, Merged;
    ReplaceRight(l.mults, l.mods, l.rest, k, j);
  }

  /** The lists at the end of the search from remainder s on. */
  function Search(l: Lists, s: nat): Lists
    requires s <= |l.mods|
    decreases Weight(PartsIn(l)), |l.mods| - s
  {
    if s == |l.mods| then l
    else
      var k := FirstMatch(l.mults, l.mods[s]);
      if k == |l.mults| then Search(l, s + 1)
      else
        ReplacedShrinks(l, k, s);
        ShrinksLess(PartsIn(l), PartsIn(Replaced(l, k, s)));
        Search(Replaced(l, k, s), NextAt(l, k, s))
  }

  function StartLists(e: Expr): Lists {
    Lists(MulsOf(SplitAdd(e)), ModsOf(SplitAdd(e)), RestOf(None, SplitAdd(e)))
  }

  function AddedUp(l: Lists): Option<Expr> {
    AddAll(AddAll(l.rest, l.mults), Remainders(l.mods))
  }

  /** e with its pairs merged. */
  function MergedAll(e: Expr): Expr {
    var l := StartLists(e);
    if !AMatch(l.mults, l.mods) then e
    else
      var r := AddedUp(Search(l, 0));
      if r.Some? then r.value else e
  }

  class MulModMerger {
    var multExprs: seq<Expr>
    var modExprs: seq<Pair>
    var noOptSum: Option<Expr>

    constructor ()
      ensures multExprs == [] && modExprs == [] && noOptSum == None
    {
      multExprs, modExprs, noOptSum := [], [], None;
    }

    function All(): seq<Expr>
      reads this
    {
      Parts(multExprs, modExprs, noOptSum)
    }

    /** Distributes summands over the lists. */
    method InsertElements(eles: seq<Expr>) returns (hasMult: bool, hasMod: bool)
      modifies this
      ensures multExprs == old(multExprs) + MulsOf(eles) && modExprs == old(modExprs) + ModsOf(eles)
      ensures noOptSum == RestOf(old(noOptSum), eles)
      ensures hasMult <==> MulsOf(eles) != []
      ensures hasMod <==> ModsOf(eles) != []
    {
      hasMult, hasMod := false, false;
      for i := 0 to |eles|
        invariant multExprs == old(multExprs) + MulsOf(eles[..i]) && modExprs == old(modExprs) + ModsOf(eles[..i])
        invariant noOptSum == RestOf(old(noOptSum), eles[..i])
        invariant hasMult <==> MulsOf(eles[..i]) != []
        invariant hasMod <==> ModsOf(eles[..i]) != []
      {
        var ele := eles[i];
        assert eles[..i + 1] == eles[..i] + [ele];
        Distributed(eles[..i], ele, old(noOptSum));
        if ele.Bin? && ele.op == Mod {
          hasMod := true;
          modExprs := modExprs + [Pair(ele.a, ele.b)];
        } else if ele.Bin? && ele.op == Mul {
          hasMult := true;
          multExprs := multExprs + [ele];
        } else {
          noOptSum := AddTo(noOptSum, ele);
        }
      }
      assert eles[..|eles|] == eles;
    }

    function Here(): Lists
      reads this
    {
      Lists(multExprs, modExprs, noOptSum)
    }

    /** The first product that matches a remainder. */
    method FindMult(m: Pair) returns (found: bool, k: nat, ret: Expr)
      ensures k == FirstMatch(multExprs, m) && (found <==> k < |multExprs|)
      ensures found ==> ret == Merged(multExprs[k], m.first)
    {
      k, ret := 0, m.first;
      while k < |multExprs|
        invariant k <= |multExprs|
        invariant forall i | 0 <= i < k :: !Matches(multExprs[i], m.first, m.second)
      {
        found, ret := MergeMulModInner(multExprs[k], m.first, m.second);
        if found {
          return;
        }
        k := k + 1;
      }
      return false, k, ret;
    }

    /** Replaces a product and a remainder by what they merge to; the search goes on at it. */
    method Replace(k: nat, j: nat, ret: Expr) returns (next: nat)
      requires k < |multExprs| && j < |modExprs| && Matches(multExprs[k], modExprs[j].first, modExprs[j].second)
      requires ret == Merged(multExprs[k], modExprs[j].first)
      modifies this
      ensures Shrinks(old(All()), All()) && next <= |modExprs|
      ensures Here() == Replaced(old(Here()), k, j) && next == NextAt(old(Here()), k, j)
    {
      ghost var mult, m, mults, mods, rest := multExprs[k], modExprs[j], multExprs, modExprs, noOptSum;
      var atEnd := j + 1 == |modExprs|;
      modExprs := modExprs[..j] + modExprs[j + 1..];
      multExprs := multExprs[..k] + multExprs[k + 1..];
      var eles := ExprSplitAddition(ret);
      ghost var mults1, mods1 := multExprs, modExprs;
      var hasMult, hasMod := InsertElements(eles);
      ReplaceRight(mults, mods, rest, k, j);
      assert All() == PartsWith(SplitAdd(Merged(mult, m.first)), mults1, mods1, rest);
      next := if atEnd then |modExprs| else j;
      if hasMult {
        next := 0;
      } else if hasMod && atEnd {
        next := |modExprs| - 1;
      }
    }
  }

  /** The same sum, and smaller. */
  ghost predicate Shrinks(es: seq<Expr>, fs: seq<Expr>) {
    SameSum(es, fs) && Weight(fs) < Weight(es) && fs != []
  }

  lemma {:induction false} RemoveRight(es: seq<Expr>, k: nat, env: Env)
    requires k < |es|
    ensures var fs := es[..k] + es[k + 1..];
      && SumOf(es, env) == SumOf(fs, env) + Eval(es[k], env) && Weight(es) == Weight(fs) + Size(es[k]) + 1
      && (AllDefined(es, env) <==> AllDefined(fs, env) && Defined(es[k], env))
  {
    assert es == es[..k] + [es[k]] + es[k + 1..];
    SumAppend(es[..k] + [es[k]], es[k + 1..], env);
    SumAppend(es[..k], es[k + 1..], env);
    SnocRight(es[..k], es[k], env);
    DefinedAppend(es[..k] + [es[k]], es[k + 1..], env);
    DefinedAppend(es[..k], es[k + 1..], env);
  }

  lemma {:induction false} RemaindersRemove(mods: seq<Pair>, j: nat)
    requires j < |mods|
    ensures |Remainders(mods)| == |mods| && Remainders(mods)[j] == Remainder(mods[j])
    ensures Remainders(mods[..j] + mods[j + 1..]) == Remainders(mods)[..j] + Remainders(mods)[j + 1..]
  {
  }

  lemma {:induction false} ReplaceRight(mults: seq<Expr>, mods: seq<Pair>, rest: Option<Expr>, k: nat, j: nat)
    requires k < |mults| && j < |mods| && Matches(mults[k], mods[j].first, mods[j].second)
    ensures Shrinks(Parts(mults, mods, rest),
                    PartsWith(SplitAdd(Merged(mults[k], mods[j].first)), mults[..k] + mults[k + 1..], mods[..j] + mods[j + 1..], rest))
  {
    var ps := Parts(mults, mods, rest);
    var qs := PartsWith(SplitAdd(Merged(mults[k], mods[j].first)), mults[..k] + mults[k + 1..], mods[..j] + mods[j + 1..], rest);
    ReplaceUnder(mults, mods, rest, k, j, map[]);
    forall env: Env ensures SumOf(qs, env) == SumOf(ps, env) && (AllDefined(ps, env) ==> AllDefined(qs, env)) {
      ReplaceUnder(mults, mods, rest, k, j, env);
    }
  }

  lemma {:induction false} ReplaceUnder(mults: seq<Expr>, mods: seq<Pair>, rest: Option<Expr>, k: nat, j: nat, env: Env)
    requires k < |mults| && j < |mods| && Matches(mults[k], mods[j].first, mods[j].second)
    ensures var ps, qs := Parts(mults, mods, rest),
        PartsWith(SplitAdd(Merged(mults[k], mods[j].first)), mults[..k] + mults[k + 1..], mods[..j] + mods[j + 1..], rest);
      SumOf(qs, env) == SumOf(ps, env) && (AllDefined(ps, env) ==> AllDefined(qs, env)) && Weight(qs) < Weight(ps) && qs != []
  {
    hide Parts, PartsWith, AllDefined, Defined, Merged, Eval, Remainders;
    var mults1, mods1, ret := mults[..k] + mults[k + 1..], mods[..j] + mods[j + 1..], Merged(mults[k], mods[j].first);
    PartsRight(mults, mods, rest, env);
    PartsRight(mults1, mods1, rest, env);
    RemoveRight(mults, k, env);
    RemaindersRemove(mods, j);
    RemoveRight(Remainders(mods), j, env);
    MergedRight(mults[k], mods[j].first, mods[j].second, env);
    SplitAddRight(ret, env);
    PartsWithRight(SplitAdd(ret), mults1, mods1, rest, env);
    WeightZero(PartsWith(SplitAdd(ret), mults1, mods1, rest));
  }

  lemma {:induction false} ShrinksTrans(es: seq<Expr>, fs: seq<Expr>, gs: seq<Expr>)
    requires SameSum(es, fs) && Shrinks(fs, gs)
    ensures Shrinks(es, gs)
  {
  }

  /** What is left at the end, added up. */
  method AddUp(merger: MulModMerger) returns (r: Option<Expr>)
    ensures r == AddedUp(merger.Here())
    ensures r.Some? <==> merger.All() != []
    ensures r.Some? ==> AddsUp(r.value, merger.All())
  {
    var mults, mods, rest := merger.multExprs, merger.modExprs, merger.noOptSum;
    r := rest;
    for i := 0 to |mults|
      invariant r == AddAll(rest, mults[..i])
    {
      assert mults[..i + 1] == mults[..i] + [mults[i]];
      r := AddTo(r, mults[i]);
    }
    assert mults[..|mults|] == mults;
    ghost var r1 := r;
    for i := 0 to |mods|
      invariant r == AddAll(r1, Remainders(mods[..i]))
    {
      assert mods[..i + 1] == mods[..i] + [mods[i]];
      RemaindersSnoc(mods[..i], mods[i]);
      r := AddTo(r, Bin(Mod, mods[i].first, mods[i].second));
    }
    assert mods[..|mods|] == mods;
    AddUpRight(mults, mods, rest, map[]);
    forall env: Env
      ensures r.Some? ==> Eval(r.value, env) == SumOf(merger.All(), env) && (AllDefined(merger.All(), env) ==> Defined(r.value, env))
    {
      AddUpRight(mults, mods, rest, env);
    }
  }

  function AddAll(o: Option<Expr>, es: seq<Expr>): Option<Expr> {
    if es == [] then o else AddTo(AddAll(o, es[..|es| - 1]), es[|es| - 1])
  }

  lemma {:induction false} AddAllRight(o: Option<Expr>, es: seq<Expr>, env: Env)
    ensures SumOf(Optional(AddAll(o, es)), env) == SumOf(Optional(o), env) + SumOf(es, env)
    ensures Weight(Optional(AddAll(o, es))) == Weight(Optional(o)) + Weight(es)
    ensures AllDefined(Optional(AddAll(o, es)), env) <==> AllDefined(Optional(o), env) && AllDefined(es, env)
    decreases |es|
  {
    hide AllDefined, Optional, Defined;
    if es == [] {
      NothingDefined(env);
    } else {
      var init, e := es[..|es| - 1], es[|es| - 1];
      assert es == init + [e];
      AddAllRight(o, init, env);
      AddToRight(AddAll(o, init), e, env);
      SnocRight(init, e, env);
    }
  }

  lemma {:induction false} NothingDefined(env: Env)
    ensures AllDefined([], env)
  {
  }

  lemma {:induction false} AddUpRight(mults: seq<Expr>, mods: seq<Pair>, rest: Option<Expr>, env: Env)
    ensures var r, ps := AddAll(AddAll(rest, mults), Remainders(mods)), Parts(mults, mods, rest);
      && (r.Some? <==> ps != [])
      && (r.Some? ==> Size(r.value) + 1 == Weight(ps) && Eval(r.value, env) == SumOf(ps, env) && (AllDefined(ps, env) ==> Defined(r.value, env)))
  {
    hide Parts, Remainders;
    var r := AddAll(AddAll(rest, mults), Remainders(mods));
    PartsRight(mults, mods, rest, env);
    AddAllRight(rest, mults, env);
    AddAllRight(AddAll(rest, mults), Remainders(mods), env);
    WeightZero(Parts(mults, mods, rest));
    if r.Some? {
      SumOne(r.value, env);
      assert AllDefined([r.value], env) ==> Defined([r.value][0], env);
    } else {
      WeightZero(Optional(r));
    }
  }

  lemma {:induction false} WeightZero(es: seq<Expr>)
    ensures Weight(es) == 0 <==> es == []
  {
  }

  lemma {:induction false} ShrinksLess(es: seq<Expr>, fs: seq<Expr>)
    requires Shrinks(es, fs)
    ensures Weight(fs) < Weight(es) && SameSum(es, fs) && fs != []
  {
  }

  /** No product matches one of the first n remainders. */
  predicate NoMatchBefore(mults: seq<Expr>, mods: seq<Pair>, n: nat) {
    forall i, j | 0 <= i < |mults| && 0 <= j < n && j < |mods| :: !Matches(mults[i], mods[j].first, mods[j].second)
  }

  lemma {:induction false} NextMatch(mults: seq<Expr>, mods: seq<Pair>, n: nat)
    requires n < |mods| && NoMatchBefore(mults, mods, n)
    requires forall i | 0 <= i < |mults| :: !Matches(mults[i], mods[n].first, mods[n].second)
    ensures NoMatchBefore(mults, mods, n + 1)
  {
  }

  lemma {:induction false} NoMatchAtAll(mults: seq<Expr>, mods: seq<Pair>)
    ensures NoMatchBefore(mults, mods, 0) && (NoMatchBefore(mults, mods, |mods|) ==> !AMatch(mults, mods))
  {
  }

  lemma {:induction false} FoundMatch(mults: seq<Expr>, mods: seq<Pair>, k: nat, j: nat)
    requires k < |mults| && j < |mods| && Matches(mults[k], mods[j].first, mods[j].second)
    ensures AMatch(mults, mods)
  {
  }

  /** The parts add up to the expression. */
  ghost predicate PartsOf(e: Expr, es: seq<Expr>) {
    && Weight(es) == Size(e) + 1
    && forall env: Env :: SumOf(es, env) == Eval(e, env) && (Defined(e, env) ==> AllDefined(es, env))
  }

  lemma {:induction false} StartSum(e: Expr)
    ensures PartsOf(e, PartsWith(SplitAdd(e), [], [], None))
    ensures SameSum(PartsWith(SplitAdd(e), [], [], None), PartsWith(SplitAdd(e), [], [], None))
  {
    hide PartsWith, AllDefined, Defined, Eval, Size, SplitAdd;
    var es := PartsWith(SplitAdd(e), [], [], None);
    StartUnder(e, map[]);
    forall env: Env ensures SumOf(es, env) == Eval(e, env) && (Defined(e, env) ==> AllDefined(es, env)) {
      StartUnder(e, env);
    }
  }

  lemma {:induction false} StartUnder(e: Expr, env: Env)
    ensures var es := PartsWith(SplitAdd(e), [], [], None);
      Weight(es) == Size(e) + 1 && SumOf(es, env) == Eval(e, env) && (Defined(e, env) ==> AllDefined(es, env))
  {
    hide PartsWith, Defined, Eval, Size, SplitAdd;
    SplitAddRight(e, env);
    PartsWithRight(SplitAdd(e), [], [], None, env);
    assert Parts([], [], None) == [];
  }

  ghost predicate AddsUp(r: Expr, es: seq<Expr>) {
    Size(r) + 1 == Weight(es) && forall env: Env :: Eval(r, env) == SumOf(es, env) && (AllDefined(es, env) ==> Defined(r, env))
  }

  lemma {:induction false} MergedResult(base: Expr, simplified: Expr, all: seq<Expr>, rest: seq<Expr>, r: Expr)
    requires Refines(base, simplified) && PartsOf(simplified, all) && Shrinks(all, rest) && AddsUp(r, rest)
    ensures Refines(base, r) && Size(r) < Size(simplified)
  {
    hide AllDefined, Defined, Eval, Size, SumOf, Weight;
    forall env: Env | Defined(base, env) ensures Defined(r, env) && Eval(r, env) == Eval(base, env) {
      assert Eval(r, env) == SumOf(rest, env) == SumOf(all, env) == Eval(simplified, env) == Eval(base, env);
      assert AllDefined(rest, env);
    }
  }

  lemma {:induction false} SearchEnd(l: Lists)
    ensures Search(l, |l.mods|) == l
  {
  }

  lemma {:induction false} SearchStep(l: Lists, s: nat)
    requires s < |l.mods|
    ensures var k := FirstMatch(l.mults, l.mods[s]);
      Search(l, s) == if k == |l.mults| then Search(l, s + 1) else Search(Replaced(l, k, s), NextAt(l, k, s))
  {
    hide Parts, Matches, Shrinks, Replaced, NextAt;
  }

  // ----- when no pair is left -----

  /** Among the summands of e is at most one remainder, or a product. */
  predicate OneRemainder(e: Expr) {
    |ModsOf(SplitAdd(e))| <= 1 || MulsOf(SplitAdd(e)) != []
  }

  /** Whatever a summand of e takes the remainder of has at most one remainder among its own summands, or a
      product; and so on inside. */
  predicate FewRemainders(e: Expr) {
    && (e.Bin? && e.op == Add ==> FewRemainders(e.a) && FewRemainders(e.b))
    && (e.Bin? && e.op == Mod ==> OneRemainder(e.a) && FewRemainders(e.a))
  }

  predicate FewAll(mods: seq<Pair>) {
    forall m <- mods :: OneRemainder(m.first) && FewRemainders(m.first)
  }

  lemma {:induction false} MulsModsAppend(es: seq<Expr>, fs: seq<Expr>)
    ensures MulsOf(es + fs) == MulsOf(es) + MulsOf(fs) && ModsOf(es + fs) == ModsOf(es) + ModsOf(fs)
    decreases |fs|
  {
    if fs == [] {
      assert es + fs == es;
    } else {
      var n, f := |fs| - 1, fs[|fs| - 1];
      assert fs == fs[..n] + [f] && es + fs == es + fs[..n] + [f];
      MulsModsAppend(es, fs[..n]);
      Distributed(es + fs[..n], f, None);
      Distributed(fs[..n], f, None);
    }
  }

  lemma {:induction false} FewSplit(e: Expr)
    requires FewRemainders(e)
    ensures FewAll(ModsOf(SplitAdd(e)))
  {
    hide MulsOf, ModsOf, OneRemainder;
    NothingOf();
    if e.Bin? && e.op == Add {
      FewSplit(e.a);
      FewSplit(e.b);
      MulsModsAppend(SplitAdd(e.a), SplitAdd(e.b));
    } else {
      Distributed([], e, None);
      assert [] + [e] == [e];
    }
  }

  lemma {:induction false} MergedSplit(e: Expr, c: Expr)
    requires Factors(e) != []
    ensures SplitAdd(Merged(e, c)) == SplitAdd(c) ||
      exists f: Expr :: IsMul(f) && SplitAdd(Merged(e, c)) == [f] + SplitAdd(c)
  {
    hide Factors, Addends, Base, Product, Sum;
    var adds := Addends(Base(e));
    if adds != [] {
      var f := Bin(Mul, Sum(adds), Product(Factors(e)));
      assert SplitAdd(f) == [f];
      assert IsMul(f) && SplitAdd(Merged(e, c)) == [f] + SplitAdd(c);
    }
  }

  /** What comes in for a pair has a product, or at most one remainder. */
  lemma {:induction false} FewMerged(e: Expr, c: Expr)
    requires Factors(e) != [] && OneRemainder(c) && FewRemainders(c)
    ensures OneRemainder(Merged(e, c)) && FewAll(ModsOf(SplitAdd(Merged(e, c))))
  {
    hide MulsOf, ModsOf, FewRemainders, Factors, Merged, SplitAdd;
    FewSplit(c);
    MergedSplit(e, c);
    if SplitAdd(Merged(e, c)) != SplitAdd(c) {
      var f: Expr :| IsMul(f) && SplitAdd(Merged(e, c)) == [f] + SplitAdd(c);
      Distributed([], f, None);
      NothingOf();
      assert [] + [f] == [f];
      MulsModsAppend([f], SplitAdd(c));
      assert [] + ModsOf(SplitAdd(c)) == ModsOf(SplitAdd(c));
    }
  }

  lemma {:induction false} MatchFactors(e: Expr, c: Expr, k: Expr)
    requires Matches(e, c, k)
    ensures Factors(e) != []
  {
  }

  lemma {:induction false} NoMatchFewer(mults: seq<Expr>, mults1: seq<Expr>, mods: seq<Pair>, mods1: seq<Pair>, n: nat)
    requires NoMatchBefore(mults, mods, n) && n <= |mods1| && n <= |mods|
    requires forall e <- mults1 :: e in mults
    requires mods1[..n] == mods[..n]
    ensures NoMatchBefore(mults1, mods1, n)
  {
    forall i, j | 0 <= i < |mults1| && 0 <= j < n ensures !Matches(mults1[i], mods1[j].first, mods1[j].second) {
      assert mults1[i] in mults;
      var k :| 0 <= k < |mults| && mults[k] == mults1[i];
      assert mods1[..n][j] == mods[..n][j];
    }
  }

  /** After a replacement, no product matches a remainder before the place where the search goes on. */
  lemma {:induction false} ReplacedNoMatch(l: Lists, k: nat, j: nat)
    requires MatchAt(l, k, j) && FewAll(l.mods) && NoMatchBefore(l.mults, l.mods, j)
    ensures var l1 := Replaced(l, k, j); FewAll(l1.mods) && NoMatchBefore(l1.mults, l1.mods, NextAt(l, k, j))
  {
    hide Matches, MulsOf, ModsOf, RestOf, Merged, FewRemainders, SplitAdd, NoMatchBefore;
    MatchFactors(l.mults[k], l.mods[j].first, l.mods[j].second);
    FewMerged(l.mults[k], l.mods[j].first);
    var eles, l1 := Inserting(l, k, j), Replaced(l, k, j);
    if MulsOf(eles) == [] {
      assert l1.mults == l.mults[..k] + l.mults[k + 1..];
      assert l1.mods[..j] == l.mods[..j];
      NoMatchFewer(l.mults, l1.mults, l.mods, l1.mods, j);
      assert NextAt(l, k, j) == j;
    } else {
      NoMatchAtAll(l1.mults, l1.mods);
    }
  }

  lemma {:induction false} SearchDone(l: Lists, s: nat)
    requires s <= |l.mods| && FewAll(l.mods) && NoMatchBefore(l.mults, l.mods, s)
    ensures var l1 := Search(l, s); !AMatch(l1.mults, l1.mods)
    decreases Weight(PartsIn(l)), |l.mods| - s
  {
    hide Parts, Matches, Replaced, NextAt, NoMatchBefore, AMatch, FewAll, Shrinks, Weight;
    NoMatchAtAll(l.mults, l.mods);
    if s < |l.mods| {
      var k := FirstMatch(l.mults, l.mods[s]);
      SearchStep(l, s);
      if k == |l.mults| {
        NextMatch(l.mults, l.mods, s);
        SearchDone(l, s + 1);
      } else {
        ReplacedNoMatch(l, k, s);
        ReplacedShrinks(l, k, s);
        ShrinksLess(PartsIn(l), PartsIn(Replaced(l, k, s)));
        SearchDone(Replaced(l, k, s), NextAt(l, k, s));
      }
    } else {
      SearchEnd(l);
    }
  }

  /** The lists hold what their names say, and the sum of the rest neither products nor remainders. */
  predicate Sorted(l: Lists) {
    && (forall e <- l.mults :: IsMul(e))
    && (l.rest.Some? ==> MulsOf(SplitAdd(l.rest.value)) == [] && ModsOf(SplitAdd(l.rest.value)) == [])
  }

  predicate NoSums(es: seq<Expr>) {
    forall e <- es :: !(e.Bin? && e.op == Add)
  }

  lemma {:induction false} SplitNoSums(e: Expr)
    ensures NoSums(SplitAdd(e))
  {
    if e.Bin? && e.op == Add {
      SplitNoSums(e.a);
      SplitNoSums(e.b);
    }
  }

  lemma {:induction false} MulsAreMuls(es: seq<Expr>)
    ensures forall e <- MulsOf(es) :: IsMul(e)
  {
    if es != [] {
      MulsAreMuls(es[..|es| - 1]);
    }
  }

  lemma {:induction false} RestKept(o: Option<Expr>, es: seq<Expr>)
    requires NoSums(es) && Sorted(Lists([], [], o))
    ensures Sorted(Lists([], [], RestOf(o, es)))
    decreases |es|
  {
    hide MulsOf, ModsOf;
    NothingOf();
    if es != [] {
      var n, e := |es| - 1, es[|es| - 1];
      assert e in es && forall f <- es[..n] :: f in es;
      RestKept(o, es[..n]);
      var o1 := RestOf(o, es[..n]);
      if !IsMul(e) && !IsMod(e) {
        Distributed([], e, None);
        assert [] + [e] == [e] && SplitAdd(e) == [e];
        if o1.Some? {
          MulsModsAppend(SplitAdd(o1.value), [e]);
        }
      }
    }
  }

  lemma {:induction false} InsertingNoSums(l: Lists, k: nat, j: nat)
    requires MatchAt(l, k, j)
    ensures NoSums(Inserting(l, k, j))
  {
    SplitNoSums(Merged(l.mults[k], l.mods[j].first));
  }

  lemma {:induction false} ReplacedSorted(l: Lists, k: nat, j: nat)
    requires MatchAt(l, k, j) && Sorted(l)
    ensures Sorted(Replaced(l, k, j))
  {
    hide Matches, Merged, SplitAdd, MulsOf, ModsOf, RestOf;
    var eles := Inserting(l, k, j);
    InsertingNoSums(l, k, j);
    MulsAreMuls(eles);
    RestKept(l.rest, eles);
  }

  lemma {:induction false} SearchSorted(l: Lists, s: nat)
    requires s <= |l.mods| && Sorted(l)
    ensures Sorted(Search(l, s)) && (PartsIn(l) != [] ==> PartsIn(Search(l, s)) != [])
    decreases Weight(PartsIn(l)), |l.mods| - s
  {
    hide Parts, Matches, Replaced, NextAt, Sorted, Shrinks, Weight;
    if s < |l.mods| {
      var k := FirstMatch(l.mults, l.mods[s]);
      SearchStep(l, s);
      if k == |l.mults| {
        SearchSorted(l, s + 1);
      } else {
        ReplacedSorted(l, k, s);
        ReplacedShrinks(l, k, s);
        ShrinksLess(PartsIn(l), PartsIn(Replaced(l, k, s)));
        SearchSorted(Replaced(l, k, s), NextAt(l, k, s));
      }
    } else {
      SearchEnd(l);
    }
  }

  function SplitOptional(o: Option<Expr>): seq<Expr> {
    if o.Some? then SplitAdd(o.value) else []
  }

  lemma {:induction false} SplitAddAll(o: Option<Expr>, es: seq<Expr>)
    requires NoSums(es)
    ensures SplitOptional(AddAll(o, es)) == SplitOptional(o) + es
    decreases |es|
  {
    if es != [] {
      var n, e := |es| - 1, es[|es| - 1];
      assert es == es[..n] + [e];
      assert e in es && forall f <- es[..n] :: f in es;
      SplitAddAll(o, es[..n]);
      assert SplitAdd(e) == [e];
    }
  }

  lemma {:induction false} MulsOnly(es: seq<Expr>)
    requires forall e <- es :: IsMul(e)
    ensures MulsOf(es) == es && ModsOf(es) == []
  {
    if es != [] {
      var n, e := |es| - 1, es[|es| - 1];
      assert es == es[..n] + [e] && e in es;
      assert forall f <- es[..n] :: f in es;
      MulsOnly(es[..n]);
    }
  }

  lemma {:induction false} ModsOnly(ms: seq<Pair>)
    ensures MulsOf(Remainders(ms)) == [] && ModsOf(Remainders(ms)) == ms
  {
    if ms != [] {
      var n, m := |ms| - 1, ms[|ms| - 1];
      assert ms == ms[..n] + [m];
      RemaindersSnoc(ms[..n], m);
      ModsOnly(ms[..n]);
      Distributed(Remainders(ms[..n]), Remainder(m), None);
      assert Remainder(m).a == m.first && Remainder(m).b == m.second;
    }
  }

  /** The products and remainders of what the lists add up to are those of the lists. */
  lemma {:induction false} AddedUpSplit(l: Lists)
    requires Sorted(l) && AddedUp(l).Some?
    ensures MulsOf(SplitAdd(AddedUp(l).value)) == l.mults && ModsOf(SplitAdd(AddedUp(l).value)) == l.mods
  {
    hide MulsOf, ModsOf, AddAll, SplitAdd;
    var first := AddAll(l.rest, l.mults);
    assert NoSums(Remainders(l.mods));
    assert NoSums(l.mults);
    SplitAddAll(l.rest, l.mults);
    SplitAddAll(first, Remainders(l.mods));
    MulsModsAppend(SplitOptional(l.rest), l.mults);
    MulsModsAppend(SplitOptional(l.rest) + l.mults, Remainders(l.mods));
    MulsOnly(l.mults);
    ModsOnly(l.mods);
    NothingOf();
  }

  lemma {:induction false} NothingOf()
    ensures MulsOf([]) == [] && ModsOf([]) == []
  {
  }

  /** Some product and some remainder among the summands match. */
  predicate PairIn(e: Expr) {
    AMatch(MulsOf(SplitAdd(e)), ModsOf(SplitAdd(e)))
  }

  lemma {:induction false} StartSorted(e: Expr)
    ensures Sorted(StartLists(e))
  {
    SplitNoSums(e);
    MulsAreMuls(SplitAdd(e));
    RestKept(None, SplitAdd(e));
  }

  lemma {:induction false} MatchNotEmpty(l: Lists)
    requires AMatch(l.mults, l.mods)
    ensures PartsIn(l) != []
  {
    hide Matches;
    assert |PartsIn(l)| == |Optional(l.rest)| + |l.mults| + |l.mods|;
  }

  lemma {:induction false} AddedUpSome(l: Lists)
    requires PartsIn(l) != []
    ensures AddedUp(l).Some?
  {
    hide Parts, AddAll;
    AddUpRight(l.mults, l.mods, l.rest, map[]);
  }

  /** No pair is left when every remainder is taken of something with at most one remainder, or with a product. */
  lemma {:induction false} NoPairLeft(e: Expr)
    requires FewRemainders(e)
    ensures !PairIn(MergedAll(e))
  {
    hide AMatch, Search, AddedUp, Sorted, MulsOf, ModsOf, RestOf, FewAll, FewRemainders, Matches;
    var l := StartLists(e);
    if AMatch(l.mults, l.mods) {
      MatchNotEmpty(l);
      FewSplit(e);
      NoMatchAtAll(l.mults, l.mods);
      SearchDone(l, 0);
      StartSorted(e);
      SearchSorted(l, 0);
      var l1 := Search(l, 0);
      AddedUpSome(l1);
      AddedUpSplit(l1);
    }
  }

  const X := Leaf(0)

  /** x / 3 * 3. */
  const OUTER := Bin(Mul, Bin(Div, X, IntImm(3)), IntImm(3))

  /** x % 3 + y % 5. */
  const TWO := Bin(Add, Bin(Mod, X, IntImm(3)), Bin(Mod, Leaf(1), IntImm(5)))

  /** TWO / 7 * 7. */
  const INNER := Bin(Mul, Bin(Div, TWO, IntImm(7)), IntImm(7))

  const NESTED := Bin(Add, Bin(Add, OUTER, INNER), Bin(Mod, TWO, IntImm(7)))

  lemma {:induction false} SplitOfTwo()
    ensures MulsOf(SplitAdd(TWO)) == [] && ModsOf(SplitAdd(TWO)) == [Pair(X, IntImm(3)), Pair(Leaf(1), IntImm(5))]
    ensures forall o: Option<Expr> :: RestOf(o, SplitAdd(TWO)) == o
  {
    var m, n := TWO.a, TWO.b;
    assert SplitAdd(TWO) == [m] + [n] && [] + [m] == [m];
    forall o: Option<Expr> ensures RestOf(o, SplitAdd(TWO)) == o {
      Distributed([], m, o);
      Distributed([m], n, o);
    }
    Distributed([], m, None);
    Distributed([m], n, None);
  }

  lemma {:induction false} NestedStart()
    ensures StartLists(NESTED) == Lists([OUTER, INNER], [Pair(TWO, IntImm(7))], None)
  {
    var r := NESTED.b;
    assert SplitAdd(NESTED) == [OUTER] + [INNER] + [r] && [] + [OUTER] == [OUTER];
    Distributed([], OUTER, None);
    Distributed([OUTER], INNER, None);
    Distributed([OUTER] + [INNER], r, None);
  }

  lemma {:induction false} OuterInner()
    ensures !Matches(OUTER, TWO, IntImm(7)) && Matches(INNER, TWO, IntImm(7)) && Merged(INNER, TWO) == TWO
    ensures Matches(OUTER, X, IntImm(3)) && !Matches(OUTER, Leaf(1), IntImm(5))
  {
    assert Factors(OUTER) == [IntImm(3)] && Factors(INNER) == [IntImm(7)];
    assert Base(OUTER) == OUTER.a && Base(INNER) == INNER.a;
  }

  lemma {:induction false} NestedSearch()
    ensures Search(StartLists(NESTED), 0) == Lists([OUTER], [Pair(X, IntImm(3)), Pair(Leaf(1), IntImm(5))], None)
  {
    hide Matches, Merged, MulsOf, ModsOf, RestOf, StartLists;
    NestedStart();
    OuterInner();
    SplitOfTwo();
    var l, l1 := StartLists(NESTED), Lists([OUTER], [Pair(X, IntImm(3)), Pair(Leaf(1), IntImm(5))], None);
    SearchStep(l, 0);
    assert FirstMatch(l.mults, l.mods[0]) == 1;
    assert l.mults[..1] + l.mults[2..] == [OUTER] && l.mods[..0] + l.mods[1..] == [];
    assert Replaced(l, 1, 0) == l1 && NextAt(l, 1, 0) == 1;
    SearchStep(l1, 1);
    assert FirstMatch(l1.mults, l1.mods[1]) == 1;
    SearchEnd(l1);
  }

  /** A pair may be left: of two remainders that come in for the last one, only the second is looked at.
      (x / 3 * 3 + (x % 3 + y % 5) / 7 * 7) + (x % 3 + y % 5) % 7 becomes (x / 3 * 3 + x % 3) + y % 5. */
  lemma {:induction false} PairStays()
    ensures MergedAll(NESTED) == Bin(Add, Bin(Add, OUTER, Bin(Mod, X, IntImm(3))), Bin(Mod, Leaf(1), IntImm(5)))
    ensures PairIn(MergedAll(NESTED)) && !FewRemainders(NESTED)
  {
    hide Matches, MulsOf, ModsOf, StartLists, Search;
    NestedSearch();
    NestedStart();
    OuterInner();
    SplitOfTwo();
    var l, l1 := StartLists(NESTED), Search(StartLists(NESTED), 0);
    FoundMatch(l.mults, l.mods, 1, 0);
    var ms := Remainders(l1.mods);
    assert ms[..1] == [Bin(Mod, X, IntImm(3))] && [OUTER][..0] == [] && ms[..1][..0] == [];
    assert AddAll(None, l1.mults) == Some(OUTER);
    assert AddAll(Some(OUTER), ms[..1]) == Some(Bin(Add, OUTER, Bin(Mod, X, IntImm(3))));
    StartSorted(NESTED);
    SearchSorted(l, 0);
    AddedUpSplit(l1);
    FoundMatch(l1.mults, l1.mods, 0, 0);
  }

  lemma {:induction false} MergedAllIs(e: Expr)
    ensures var l := StartLists(e);
      MergedAll(e) == if AMatch(l.mults, l.mods) && AddedUp(Search(l, 0)).Some? then AddedUp(Search(l, 0)).value else e
  {
    hide AMatch, Search, AddedUp;
  }

  /** Merges product and remainder pairs until none is found. simplify is taken to keep values.
      The result has the value of the expression wherever that is defined; it is smaller than the
      simplified expression if some product and some remainder among its summands match, and the same otherwise.
      No pair is left when remainders are taken of few remainders only. */
  method MergeMulMod(base: Expr, simplify: Expr -> Expr) returns (r: Expr)
    requires Refines(base, simplify(base))
    ensures Refines(base, r)
    ensures var eles := SplitAdd(simplify(base));
      if AMatch(MulsOf(eles), ModsOf(eles)) then Size(r) < Size(simplify(base)) else r == simplify(base)
    ensures r == MergedAll(simplify(base))
    ensures FewRemainders(simplify(base)) ==> !PairIn(r)
  {
    hide Eval, Defined, AllDefined, SumOf, MergedAll, FewRemainders, PairIn, Search, Replaced, NextAt, AddedUp, RestOf, Parts, Matches, Refines, Size, SameSum, Shrinks, PartsOf, AddsUp, NoMatchBefore, AMatch, Weight, Merged, SplitAdd, MulsOf, ModsOf, RestOf;
    var simplified := simplify(base);
    var eles := ExprSplitAddition(simplified);
    MergedAllIs(simplified);
    if FewRemainders(simplified) {
      NoPairLeft(simplified);
    }
    var merger := new MulModMerger();
    var hasMult, hasMod := merger.InsertElements(eles);
    StartSum(simplified);
    ghost var all := merger.All();
    assert [] + MulsOf(eles) == MulsOf(eles) && [] + ModsOf(eles) == ModsOf(eles);
    NoMatchAtAll(MulsOf(eles), ModsOf(eles));
    var findOpt := false;
    var searchMod: nat := 0;
    while searchMod < |merger.modExprs|
      invariant searchMod <= |merger.modExprs|
      invariant SameSum(all, merger.All()) && (findOpt ==> Shrinks(all, merger.All()))
      invariant Search(merger.Here(), searchMod) == Search(StartLists(simplified), 0)
      invariant findOpt ==> AMatch(MulsOf(eles), ModsOf(eles))
      invariant !findOpt ==> merger.multExprs == MulsOf(eles) && merger.modExprs == ModsOf(eles) && NoMatchBefore(MulsOf(eles), ModsOf(eles), searchMod)
      decreases Weight(merger.All()), |merger.modExprs| - searchMod
    {
      SearchStep(merger.Here(), searchMod);
      var found, k, ret := merger.FindMult(merger.modExprs[searchMod]);
      if found {
        ghost var before := merger.All();
        FoundMatch(merger.multExprs, merger.modExprs, k, searchMod);
        searchMod := merger.Replace(k, searchMod, ret);
        ShrinksTrans(all, before, merger.All());
        ShrinksLess(before, merger.All());
        ShrinksLess(all, merger.All());
        findOpt := true;
      } else {
        if !findOpt {
          NextMatch(MulsOf(eles), ModsOf(eles), searchMod);
        }
        searchMod := searchMod + 1;
      }
    }
    SearchEnd(merger.Here());
    if !findOpt {
      return simplified;
    }
    var sum := AddUp(merger);
    ShrinksLess(all, merger.All());
    r := sum.value;
    MergedResult(base, simplified, all, merger.All(), r);
  }

  // ----- the offset of an element -----

  datatype BufferNode = BufferNode(elemOffset: Expr, shape: seq<Expr>, strides: seq<Expr>)

  function Values(es: seq<Expr>, env: Env): (vs: seq<int>)
    ensures |vs| == |es|
  {
    seq(|es|, k requires 0 <= k < |es| => Eval(es[k], env))
  }

  function Prod(vs: seq<int>): int {
    if vs == [] then 1 else vs[0] * Prod(vs[1..])
  }

  function Dot(xs: seq<int>, ys: seq<int>): int
    requires |xs| == |ys|
  {
    if xs == [] then 0 else xs[0] * ys[0] + Dot(xs[1..], ys[1..])
  }

  /** The strides of a compact row-major layout. */
  function RowStrides(shape: seq<int>): (strides: seq<int>)
    ensures |strides| == |shape|
  {
    if shape == [] then [] else [Prod(shape[1..])] + RowStrides(shape[1..])
  }

  predicate IndexFits(n: BufferNode, index: seq<Expr>) {
    index != [] && |index| == if n.strides == [] then |n.shape| else |n.strides|
  }

  /** The offset before any simplification, up to dimension k. */
  function PlainOffset(n: BufferNode, index: seq<Expr>, k: nat): Expr
    requires IndexFits(n, index) && 1 <= k <= |index|
  {
    if k == 1 then
      var first := if n.strides == [] then index[0] else Bin(Mul, index[0], n.strides[0]);
      if n.elemOffset == IntImm(0) then first else Bin(Add, n.elemOffset, first)
    else if n.strides == [] then Bin(Add, Bin(Mul, PlainOffset(n, index, k - 1), n.shape[k - 1]), index[k - 1])
    else Bin(Add, PlainOffset(n, index, k - 1), Bin(Mul, index[k - 1], n.strides[k - 1]))
  }

  lemma {:induction false} RefinesTrans(e: Expr, f: Expr, g: Expr)
    requires Refines(e, f) && Refines(f, g)
    ensures Refines(e, g)
  {
    hide Defined, Eval;
  }

  lemma {:induction false} RefinesInside(e: Expr, f: Expr, shape: Expr, x: Expr)
    requires Refines(e, f)
    ensures Refines(Bin(Add, Bin(Mul, e, shape), x), Bin(Add, Bin(Mul, f, shape), x)) && Refines(Bin(Add, e, x), Bin(Add, f, x))
  {
    var e1, f1 := Bin(Add, Bin(Mul, e, shape), x), Bin(Add, Bin(Mul, f, shape), x);
    forall env: Env | Defined(e1, env) ensures Defined(f1, env) && Eval(f1, env) == Eval(e1, env) {
      assert Defined(Bin(Mul, e, shape), env);
      assert Defined(e, env);
    }
    forall env: Env | Defined(Bin(Add, e, x), env) ensures Defined(Bin(Add, f, x), env) && Eval(Bin(Add, f, x), env) == Eval(Bin(Add, e, x), env) {
      assert Defined(e, env);
    }
  }

  /** The offset of an element, simplified after every dimension; fails when the number of indices is wrong. */
  method ElemOffset(n: BufferNode, index: seq<Expr>, simplify: Expr -> Expr) returns (ok: bool, base: Expr)
    requires forall e: Expr :: Refines(e, simplify(e))
    ensures ok <==> IndexFits(n, index)
    ensures ok ==> Refines(PlainOffset(n, index, |index|), base)
  {
    hide Refines;
    base := n.elemOffset;
    if |index| != (if n.strides == [] then |n.shape| else |n.strides|) || index == [] {
      return false, base;
    }
    if n.strides == [] {
      base := if base == IntImm(0) then index[0] else Bin(Add, base, index[0]);
      base := MergeMulMod(base, simplify);
      for i := 1 to |index|
        invariant Refines(PlainOffset(n, index, i), base)
      {
        RefinesInside(PlainOffset(n, index, i), base, n.shape[i], index[i]);
        var next := MergeMulMod(Bin(Add, Bin(Mul, base, n.shape[i]), index[i]), simplify);
        RefinesTrans(PlainOffset(n, index, i + 1), Bin(Add, Bin(Mul, base, n.shape[i]), index[i]), next);
        base := next;
      }
    } else {
      base := if base == IntImm(0) then Bin(Mul, index[0], n.strides[0]) else Bin(Add, base, Bin(Mul, index[0], n.strides[0]));
      base := MergeMulMod(base, simplify);
      for i := 1 to |index|
        invariant Refines(PlainOffset(n, index, i), base)
      {
        RefinesInside(PlainOffset(n, index, i), base, IntImm(1), Bin(Mul, index[i], n.strides[i]));
        var next := MergeMulMod(Bin(Add, base, Bin(Mul, index[i], n.strides[i])), simplify);
        RefinesTrans(PlainOffset(n, index, i + 1), Bin(Add, base, Bin(Mul, index[i], n.strides[i])), next);
        base := next;
      }
    }
    return true, base;
  }

  /** acc is the number of elements of the inner dimensions, temp their strides from the last to the first. */
  ghost predicate StridesOf(shape: seq<Expr>, acc: Expr, temp: seq<Expr>, env: Env) {
    Eval(acc, env) == Prod(Values(shape, env)) && Values(Reversed(temp), env) == RowStrides(Values(shape, env))
  }

  /** The buffer with the strides of its compact layout written out. */
  method MakeStrideView(n: BufferNode) returns (view: BufferNode)
    requires n.shape != []
    ensures view.elemOffset == n.elemOffset && view.shape == n.shape
    ensures n.strides != [] ==> view == n
    ensures n.strides == [] ==> |view.strides| == |n.shape| && forall env: Env :: Values(view.strides, env) == RowStrides(Values(n.shape, env))
  {
    if n.strides != [] {
      return n;
    }
    var temp: seq<Expr> := [];
    var acc := IntImm(1);
    var i := |n.shape|;
    while i != 0
      invariant 0 <= i <= |n.shape| && |temp| == |n.shape| - i
      invariant forall env: Env :: StridesOf(n.shape[i..], acc, temp, env)
    {
      ghost var acc1, inner := Bin(Mul, acc, n.shape[i - 1]), n.shape[i - 1..];
      ghost var temp1 := temp + [acc];
      forall env: Env ensures StridesOf(inner, acc1, temp1, env) {
        assert StridesOf(n.shape[i..], acc, temp, env);
        StrideStep(n.shape, i, acc, temp, env);
      }
      temp := temp + [acc];
      acc := Bin(Mul, acc, n.shape[i - 1]);
      i := i - 1;
    }
    assert n.shape[0..] == n.shape && temp[..|temp|] == temp;
    forall env: Env ensures Values(Reversed(temp), env) == RowStrides(Values(n.shape, env)) {
      assert StridesOf(n.shape[0..], acc, temp, env);
    }
    var strides: seq<Expr> := [];
    i := |temp|;
    while i != 0
      invariant 0 <= i <= |temp| && strides + Reversed(temp[..i]) == Reversed(temp)
      decreases i
    {
      assert temp[..i][..i - 1] == temp[..i - 1];
      strides := strides + [temp[i - 1]];
      i := i - 1;
    }
    return n.(strides := strides);
  }

  function Reversed(es: seq<Expr>): (r: seq<Expr>)
    ensures |r| == |es|
  {
    if es == [] then [] else [es[|es| - 1]] + Reversed(es[..|es| - 1])
  }

  lemma {:induction false} StrideStep(shape: seq<Expr>, i: nat, acc: Expr, temp: seq<Expr>, env: Env)
    requires 0 < i <= |shape| && StridesOf(shape[i..], acc, temp, env)
    ensures StridesOf(shape[i - 1..], Bin(Mul, acc, shape[i - 1]), temp + [acc], env)
  {
    var vs := Values(shape[i - 1..], env);
    assert vs[1..] == Values(shape[i..], env);
    assert (temp + [acc])[..|temp|] == temp;
    assert Values([acc] + Reversed(temp), env) == [Eval(acc, env)] + Values(Reversed(temp), env);
  }

  // ----- what the offset is -----

  lemma {:induction false} DotSnoc(xs: seq<int>, ys: seq<int>, x: int, y: int)
    requires |xs| == |ys|
    ensures Dot(xs + [x], ys + [y]) == Dot(xs, ys) + x * y
  {
    if xs == [] {
      assert [x][1..] == [] && [y][1..] == [];
      assert xs + [x] == [x] && ys + [y] == [y];
    } else {
      assert (xs + [x])[1..] == xs[1..] + [x] && (ys + [y])[1..] == ys[1..] + [y];
      DotSnoc(xs[1..], ys[1..], x, y);
    }
  }

  /** With strides, the offset is the element offset plus the dot product. */
  lemma {:induction false} StridedOffset(n: BufferNode, index: seq<Expr>, k: nat, env: Env)
    requires IndexFits(n, index) && n.strides != [] && 1 <= k <= |index|
    ensures Eval(PlainOffset(n, index, k), env) == Eval(n.elemOffset, env) + Dot(Values(index[..k], env), Values(n.strides[..k], env))
    decreases k
  {
    assert index[..k] == index[..k - 1] + [index[k - 1]] && n.strides[..k] == n.strides[..k - 1] + [n.strides[k - 1]];
    assert Values(index[..k], env) == Values(index[..k - 1], env) + [Eval(index[k - 1], env)];
    assert Values(n.strides[..k], env) == Values(n.strides[..k - 1], env) + [Eval(n.strides[k - 1], env)];
    DotSnoc(Values(index[..k - 1], env), Values(n.strides[..k - 1], env), Eval(index[k - 1], env), Eval(n.strides[k - 1], env));
    if k > 1 {
      StridedOffset(n, index, k - 1, env);
    }
  }

  /** The offset of the first k dimensions in a compact layout. */
  function Horner(off: int, idx: seq<int>, shape: seq<int>): int
    requires |idx| == |shape| > 0
  {
    var k := |idx| - 1;
    if k == 0 then off + idx[0] else Horner(off, idx[..k], shape[..k]) * shape[k] + idx[k]
  }

  lemma {:induction false} CompactHorner(n: BufferNode, index: seq<Expr>, k: nat, env: Env)
    requires IndexFits(n, index) && n.strides == [] && 1 <= k <= |index|
    ensures Eval(PlainOffset(n, index, k), env) == Horner(Eval(n.elemOffset, env), Values(index[..k], env), Values(n.shape[..k], env))
    decreases k
  {
    var idx, shape := Values(index[..k], env), Values(n.shape[..k], env);
    assert idx[..k - 1] == Values(index[..k - 1], env) && shape[..k - 1] == Values(n.shape[..k - 1], env);
    if k > 1 {
      CompactHorner(n, index, k - 1, env);
    }
  }

  lemma {:induction false} ProdSnoc(vs: seq<int>, v: int)
    ensures Prod(vs + [v]) == Prod(vs) * v
  {
    if vs == [] {
      assert vs + [v] == [v] && [v][1..] == [];
    } else {
      assert (vs + [v])[1..] == vs[1..] + [v];
      ProdSnoc(vs[1..], v);
      Arithmetic.MulAssoc(vs[0], Prod(vs[1..]), v);
    }
  }

  /** One more dimension multiplies all strides before it. */
  lemma {:induction false} DotScaled(idx: seq<int>, shape: seq<int>, x: int, s: int)
    requires |idx| == |shape|
    ensures Dot(idx + [x], RowStrides(shape + [s])) == Dot(idx, RowStrides(shape)) * s + x
  {
    if idx == [] {
      assert [x][1..] == [] && [s][1..] == [] && shape + [s] == [s] && idx + [x] == [x];
      assert RowStrides([s]) == [Prod([s][1..])] + RowStrides([s][1..]);
      assert Dot([x][1..], RowStrides([s])[1..]) == 0;
    } else {
      assert (idx + [x])[1..] == idx[1..] + [x] && (shape + [s])[1..] == shape[1..] + [s];
      assert RowStrides(shape + [s])[1..] == RowStrides(shape[1..] + [s]) && RowStrides(shape)[1..] == RowStrides(shape[1..]);
      DotScaled(idx[1..], shape[1..], x, s);
      ProdSnoc(shape[1..], s);
      Arithmetic.MulAssoc(idx[0], Prod(shape[1..]), s);
      Arithmetic.Distribute(idx[0] * Prod(shape[1..]), Dot(idx[1..], RowStrides(shape[1..])), s);
    }
  }

  lemma {:induction false} HornerDot(off: int, idx: seq<int>, shape: seq<int>)
    requires |idx| == |shape| > 0
    ensures Horner(off, idx, shape) == off * Prod(shape[1..]) + Dot(idx, RowStrides(shape))
    decreases |idx|
  {
    var k := |idx| - 1;
    if k == 0 {
      assert shape[1..] == [] && idx[1..] == [];
      assert RowStrides(shape) == [1] + RowStrides(shape[1..]);
      assert Dot(idx[1..], RowStrides(shape)[1..]) == 0;
    } else {
      HornerDot(off, idx[..k], shape[..k]);
      assert idx == idx[..k] + [idx[k]] && shape == shape[..k] + [shape[k]];
      assert shape[1..] == shape[..k][1..] + [shape[k]];
      DotScaled(idx[..k], shape[..k], idx[k], shape[k]);
      ProdSnoc(shape[..k][1..], shape[k]);
      Arithmetic.MulAssoc(off, Prod(shape[..k][1..]), shape[k]);
      Arithmetic.Distribute(off * Prod(shape[..k][1..]), Dot(idx[..k], RowStrides(shape[..k])), shape[k]);
    }
  }

  /** A compact buffer scales its element offset by the size of the inner dimensions; with its strides written out it does not.
      The two views agree exactly when the element offset is zero or the inner dimensions hold one element. */
  lemma {:induction false} StrideViewAgrees(n: BufferNode, view: BufferNode, index: seq<Expr>, env: Env)
    requires IndexFits(n, index) && n.strides == [] && view == n.(strides := view.strides)
    requires |view.strides| == |n.shape| && Values(view.strides, env) == RowStrides(Values(n.shape, env))
    ensures IndexFits(view, index)
    ensures var inner := Prod(Values(n.shape, env)[1..]);
      Eval(PlainOffset(n, index, |index|), env) == Eval(PlainOffset(view, index, |index|), env) <==> Eval(n.elemOffset, env) == 0 || inner == 1
  {
    var off, inner := Eval(n.elemOffset, env), Prod(Values(n.shape, env)[1..]);
    assert index[..|index|] == index && n.shape[..|index|] == n.shape && view.strides[..|index|] == view.strides;
    CompactHorner(n, index, |index|, env);
    HornerDot(off, Values(index, env), Values(n.shape, env));
    StridedOffset(view, index, |index|, env);
    ScaledSame(off, inner);
  }

  lemma {:induction false} ScaledSame(x: int, y: int)
    ensures x * y == x <==> x == 0 || y == 1
  {
    if x != 0 && x * y == x {
      assert x * (y - 1) == 0;
    }
  }

  /** A compact buffer without element offset: the dot product of the indices with the row-major strides. */
  lemma {:induction false} CompactOffset(n: BufferNode, index: seq<Expr>, env: Env)
    requires IndexFits(n, index) && n.strides == [] && Eval(n.elemOffset, env) == 0
    ensures Eval(PlainOffset(n, index, |index|), env) == Dot(Values(index, env), RowStrides(Values(n.shape, env)))
  {
    assert index[..|index|] == index && n.shape[..|index|] == n.shape;
    CompactHorner(n, index, |index|, env);
    HornerDot(0, Values(index, env), Values(n.shape, env));
  }

  // ----- every element has its own offset -----

  ghost predicate InBounds(idx: seq<int>, shape: seq<int>) {
    |idx| == |shape| && forall k | 0 <= k < |idx| :: 0 <= idx[k] < shape[k]
  }

  /** The indices of the element at offset v. */
  function Unravel(v: int, shape: seq<int>): (idx: seq<int>)
    ensures |idx| == |shape|
    decreases shape
  {
    if shape == [] then []
    else
      var inner := Prod(shape[1..]);
      if inner == 0 then shape else [v / inner] + Unravel(v % inner, shape[1..])
  }

  /** From indices in bounds to offsets and back. */
  lemma {:induction false} OffsetOfIndex(idx: seq<int>, shape: seq<int>)
    requires InBounds(idx, shape)
    ensures 0 <= Dot(idx, RowStrides(shape)) < Prod(shape) && Unravel(Dot(idx, RowStrides(shape)), shape) == idx
  {
    if idx != [] {
      var inner, low := Prod(shape[1..]), Dot(idx[1..], RowStrides(shape[1..]));
      OffsetOfIndex(idx[1..], shape[1..]);
      assert RowStrides(shape)[1..] == RowStrides(shape[1..]);
      Arithmetic.DivModUnique(idx[0] * inner + low, inner, idx[0], low);
      Arithmetic.MulMore(idx[0], shape[0], inner);
    }
  }

  /** From offsets to indices in bounds and back. */
  lemma {:induction false} IndexOfOffset(v: int, shape: seq<int>)
    requires 0 <= v < Prod(shape) && forall k | 0 <= k < |shape| :: shape[k] > 0
    ensures InBounds(Unravel(v, shape), shape) && Dot(Unravel(v, shape), RowStrides(shape)) == v
  {
    if shape != [] {
      var inner := Prod(shape[1..]);
      PositiveProd(shape[1..]);
      var q, m := v / inner, v % inner;
      Arithmetic.DivTimes(v, inner);
      Arithmetic.QuotientLess(v, inner, shape[0]);
      IndexOfOffset(m, shape[1..]);
    }
  }

  lemma {:induction false} PositiveProd(vs: seq<int>)
    requires forall k | 0 <= k < |vs| :: vs[k] > 0
    ensures Prod(vs) > 0
  {
    if vs != [] {
      PositiveProd(vs[1..]);
      Arithmetic.MulMore(0, vs[0], Prod(vs[1..]));
    }
  }
}
