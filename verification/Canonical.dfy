/** Canonical form of integer expressions as sorted sums, with caches (src/arithmetic/canonical.cc). */
module Canonical {
  import opened Wrappers
  import opened IntSet
  import Arithmetic
  import BoundDeducer

  /** A summand: a value with its level, and its factor. */
  datatype Entry = Entry(value: Expr, level: nat, scale: int)

  datatype ComExpr = ComExpr(base: int, elem: seq<Entry>)

  /** A canonical expression; if it is a sum, also in parts. */
  datatype CacheEntry = CacheEntry(value: Expr, maxLevel: nat, sum: Option<ComExpr>)

  /** The loop level of each variable, an order of expressions, as their addresses give, the ranges of the loop variables,
      and the simplifier. */
  datatype Setting = Setting(level: map<nat, nat>, address: Expr -> int, range: DomMap, simplify: Expr -> Expr)

  ghost predicate Ordered(g: Setting) {
    forall a: Expr, b: Expr :: g.address(a) == g.address(b) ==> a == b
  }

  predicate Less(a: Entry, b: Entry, g: Setting) {
    a.level < b.level || (a.level == b.level && g.address(a.value) < g.address(b.value))
  }

  // ----- sums -----

  function SumElems(es: seq<Entry>, env: Env): int {
    if es == [] then 0 else es[0].scale * Eval(es[0].value, env) + SumElems(es[1..], env)
  }

  function SumValue(c: ComExpr, env: Env): int {
    c.base + SumElems(c.elem, env)
  }

  /** In strictly increasing order, without zeros. */
  ghost predicate SortedSum(es: seq<Entry>, g: Setting) {
    && (forall i, j | 0 <= i < j < |es| :: Less(es[i], es[j], g))
    && (forall i | 0 <= i < |es| :: es[i].scale != 0)
  }

  function ScaleAll(es: seq<Entry>, n: int): seq<Entry> {
    if es == [] then [] else [es[0].(scale := es[0].scale * n)] + ScaleAll(es[1..], n)
  }

  /** The merge of as and n times bs; None when one value has two levels. */
  function Merge(xs: seq<Entry>, ys: seq<Entry>, n: int, g: Setting): Option<seq<Entry>>
    decreases |xs| + |ys|
  {
    if xs == [] then Some(ScaleAll(ys, n))
    else if ys == [] then Some(xs)
    else if xs[0].value == ys[0].value then
      if xs[0].level != ys[0].level then None
      else
        var s := xs[0].scale + ys[0].scale * n;
        Prepend(if s != 0 then [xs[0].(scale := s)] else [], Merge(xs[1..], ys[1..], n, g))
    else if Less(xs[0], ys[0], g) then Prepend([xs[0]], Merge(xs[1..], ys, n, g))
    else Prepend([ys[0].(scale := ys[0].scale * n)], Merge(xs, ys[1..], n, g))
  }

  function Prepend(es: seq<Entry>, rest: Option<seq<Entry>>): Option<seq<Entry>> {
    if rest == None then None else Some(es + rest.value)
  }

  lemma {:induction false} SumAppend(es: seq<Entry>, fs: seq<Entry>, env: Env)
    ensures SumElems(es + fs, env) == SumElems(es, env) + SumElems(fs, env)
  {
    if es == [] {
      assert es + fs == fs;
    } else {
      assert (es + fs)[1..] == es[1..] + fs;
      SumAppend(es[1..], fs, env);
    }
  }

  lemma {:induction false} SumOne(e: Entry, env: Env)
    ensures SumElems([e], env) == e.scale * Eval(e.value, env)
  {
    assert [e][1..] == [];
  }

  lemma {:induction false} MulSwap(x: int, n: int, v: int)
    ensures x * n * v == n * (x * v)
  {
  }

  lemma {:induction false} ScaleAllRight(es: seq<Entry>, n: int, env: Env)
    ensures SumElems(ScaleAll(es, n), env) == n * SumElems(es, env)
  {
    if es != [] {
      ScaleAllRight(es[1..], n, env);
      SumAppend([es[0].(scale := es[0].scale * n)], ScaleAll(es[1..], n), env);
      SumOne(es[0].(scale := es[0].scale * n), env);
      MulSwap(es[0].scale, n, Eval(es[0].value, env));
      Arithmetic.Distribute(n, es[0].scale * Eval(es[0].value, env), SumElems(es[1..], env));
    }
  }

  lemma {:induction false} MergeRight(xs: seq<Entry>, ys: seq<Entry>, n: int, g: Setting, env: Env)
    requires Merge(xs, ys, n, g).Some?
    ensures SumElems(Merge(xs, ys, n, g).value, env) == SumElems(xs, env) + n * SumElems(ys, env)
    decreases |xs| + |ys|
  {
    hide Less;
    if xs == [] {
      ScaleAllRight(ys, n, env);
    } else if ys != [] {
      if xs[0].value == ys[0].value {
        MergeRight(xs[1..], ys[1..], n, g, env);
        MergeSame(xs[0], ys[0], n, Merge(xs[1..], ys[1..], n, g).value, env);
        Arithmetic.Distribute(n, ys[0].scale * Eval(ys[0].value, env), SumElems(ys[1..], env));
      } else if Less(xs[0], ys[0], g) {
        MergeRight(xs[1..], ys, n, g, env);
        SumAppend([xs[0]], Merge(xs[1..], ys, n, g).value, env);
        SumOne(xs[0], env);
      } else {
        MergeRight(xs, ys[1..], n, g, env);
        MergeScaled(ys[0], n, Merge(xs, ys[1..], n, g).value, env);
        Arithmetic.Distribute(n, ys[0].scale * Eval(ys[0].value, env), SumElems(ys[1..], env));
      }
    }
  }

  lemma {:induction false} MergeSame(x: Entry, y: Entry, n: int, rest: seq<Entry>, env: Env)
    requires x.value == y.value
    ensures var s := x.scale + y.scale * n;
      SumElems((if s != 0 then [x.(scale := s)] else []) + rest, env) ==
      x.scale * Eval(x.value, env) + n * (y.scale * Eval(y.value, env)) + SumElems(rest, env)
  {
    var s, v := x.scale + y.scale * n, Eval(x.value, env);
    Arithmetic.Distribute(x.scale, y.scale * n, v);
    MulSwap(y.scale, n, v);
    SumAppend(if s != 0 then [x.(scale := s)] else [], rest, env);
    SumOne(x.(scale := s), env);
  }

  lemma {:induction false} MergeScaled(y: Entry, n: int, rest: seq<Entry>, env: Env)
    ensures SumElems([y.(scale := y.scale * n)] + rest, env) == n * (y.scale * Eval(y.value, env)) + SumElems(rest, env)
  {
    SumAppend([y.(scale := y.scale * n)], rest, env);
    SumOne(y.(scale := y.scale * n), env);
    MulSwap(y.scale, n, Eval(y.value, env));
  }

  /** All of es come after a. */
  predicate After(a: Entry, es: seq<Entry>, g: Setting) {
    forall i | 0 <= i < |es| :: Less(a, es[i], g)
  }

  lemma {:induction false} SortedCons(a: Entry, es: seq<Entry>, g: Setting)
    requires SortedSum(es, g) && After(a, es, g) && a.scale != 0
    ensures SortedSum([a] + es, g)
  {
  }

  lemma {:induction false} SortedTail(es: seq<Entry>, g: Setting)
    requires SortedSum(es, g) && es != []
    ensures SortedSum(es[1..], g) && After(es[0], es[1..], g) && es[0].scale != 0
  {
  }

  lemma {:induction false} AfterRescaled(a: Entry, es: seq<Entry>, g: Setting, s: int)
    requires After(a, es, g)
    ensures After(a.(scale := s), es, g)
  {
  }

  lemma {:induction false} AfterAll(a: Entry, es: seq<Entry>, n: int, g: Setting)
    requires After(a, es, g)
    ensures After(a, ScaleAll(es, n), g)
  {
    if es != [] {
      assert forall i | 0 <= i < |es[1..]| :: es[1..][i] == es[i + 1];
      AfterAll(a, es[1..], n, g);
    }
  }

  lemma {:induction false} ScaleSorted(es: seq<Entry>, n: int, g: Setting)
    requires SortedSum(es, g) && n != 0
    ensures SortedSum(ScaleAll(es, n), g)
  {
    if es != [] {
      SortedTail(es, g);
      ScaleSorted(es[1..], n, g);
      AfterAll(es[0], es[1..], n, g);
      NonZero(es[0].scale, n);
      AfterRescaled(es[0], ScaleAll(es[1..], n), g, es[0].scale * n);
      SortedCons(es[0].(scale := es[0].scale * n), ScaleAll(es[1..], n), g);
    }
  }

  lemma {:induction false} NonZero(x: int, y: int)
    requires x != 0 && y != 0
    ensures x * y != 0
  {
  }

  /** What comes before both sums comes before their merge. */
  lemma {:induction false} MergeAfter(a: Entry, xs: seq<Entry>, ys: seq<Entry>, n: int, g: Setting)
    requires Merge(xs, ys, n, g).Some? && After(a, xs, g) && After(a, ys, g)
    ensures After(a, Merge(xs, ys, n, g).value, g)
    decreases |xs| + |ys|
  {
    if xs == [] {
      AfterAll(a, ys, n, g);
    } else if ys != [] {
      assert forall i | 0 <= i < |xs[1..]| :: xs[1..][i] == xs[i + 1];
      assert forall i | 0 <= i < |ys[1..]| :: ys[1..][i] == ys[i + 1];
      if xs[0].value == ys[0].value {
        MergeAfter(a, xs[1..], ys[1..], n, g);
      } else if Less(xs[0], ys[0], g) {
        MergeAfter(a, xs[1..], ys, n, g);
      } else {
        MergeAfter(a, xs, ys[1..], n, g);
      }
    }
  }

  lemma {:induction false} AfterCons(a: Entry, b: Entry, es: seq<Entry>, g: Setting)
    requires Less(a, b, g) && es != [] && es[0] == b && After(b, es[1..], g)
    ensures After(a, es, g)
  {
    forall i | 0 <= i < |es| ensures Less(a, es[i], g) {
      if i > 0 {
        assert es[1..][i - 1] == es[i];
      }
    }
  }

  /** Merging sorted sums gives a sorted sum without zeros. */
  lemma {:induction false} MergeSorted(xs: seq<Entry>, ys: seq<Entry>, n: int, g: Setting)
    requires Ordered(g) && SortedSum(xs, g) && SortedSum(ys, g) && n != 0 && Merge(xs, ys, n, g).Some?
    ensures SortedSum(Merge(xs, ys, n, g).value, g)
    decreases |xs| + |ys|
  {
    hide SortedSum, After;
    if xs == [] {
      ScaleSorted(ys, n, g);
    } else if ys != [] {
      SortedTail(xs, g);
      SortedTail(ys, g);
      var x, y := xs[0], ys[0];
      if x.value == y.value {
        var s := x.scale + y.scale * n;
        var rest := Merge(xs[1..], ys[1..], n, g).value;
        MergeSorted(xs[1..], ys[1..], n, g);
        SameAfter(x, y, ys[1..], g);
        MergeAfter(x, xs[1..], ys[1..], n, g);
        if s != 0 {
          AfterRescaled(x, rest, g, s);
          SortedCons(x.(scale := s), rest, g);
        } else {
          assert [] + rest == rest;
        }
      } else if Less(x, y, g) {
        MergeSorted(xs[1..], ys, n, g);
        AfterCons(x, y, ys, g);
        MergeAfter(x, xs[1..], ys, n, g);
        SortedCons(x, Merge(xs[1..], ys, n, g).value, g);
      } else {
        assert Less(y, x, g);
        MergeSorted(xs, ys[1..], n, g);
        AfterCons(y, x, xs, g);
        MergeAfter(y, xs, ys[1..], n, g);
        NonZero(y.scale, n);
        AfterRescaled(y, Merge(xs, ys[1..], n, g).value, g, y.scale * n);
        SortedCons(y.(scale := y.scale * n), Merge(xs, ys[1..], n, g).value, g);
      }
    }
  }

  lemma {:induction false} SameAfter(x: Entry, y: Entry, es: seq<Entry>, g: Setting)
    requires x.value == y.value && x.level == y.level && After(y, es, g)
    ensures After(x, es, g)
  {
  }

  // ----- from sums to expressions -----

  function AddTo(o: Option<Expr>, e: Expr): Option<Expr> {
    Some(if o.Some? then Bin(Add, o.value, e) else e)
  }

  function SubFrom(o: Option<Expr>, e: Expr): Option<Expr> {
    Some(Bin(Sub, if o.Some? then o.value else IntImm(0), e))
  }

  /** |scale| times the value. */
  function Term(e: Entry): Expr {
    var s := if e.scale < 0 then -e.scale else e.scale;
    if s == 1 then e.value else Bin(Mul, e.value, IntImm(s))
  }

  function AddPositive(o: Option<Expr>, es: seq<Entry>): Option<Expr> {
    if es == [] then o
    else
      var o1, e := AddPositive(o, es[..|es| - 1]), es[|es| - 1];
      if e.scale > 0 then AddTo(o1, Term(e)) else o1
  }

  function SubNegative(o: Option<Expr>, es: seq<Entry>): Option<Expr> {
    if es == [] then o
    else
      var o1, e := SubNegative(o, es[..|es| - 1]), es[|es| - 1];
      if e.scale < 0 then SubFrom(o1, Term(e)) else o1
  }

  function SubBase(o: Option<Expr>, base: int): Option<Expr> {
    if base >= 0 then o else Some(if o.Some? then Bin(Sub, o.value, IntImm(-base)) else IntImm(base))
  }

  /** A positive base, the positive terms, a negative base, the negative terms. */
  function SumToExpr(c: ComExpr): Expr {
    var o := SubNegative(SubBase(AddPositive(if c.base > 0 then Some(IntImm(c.base)) else None, c.elem), c.base), c.elem);
    if o.Some? then o.value else IntImm(0)
  }

  function OptValue(o: Option<Expr>, env: Env): int {
    if o.Some? then Eval(o.value, env) else 0
  }

  function PositivePart(es: seq<Entry>, env: Env): int {
    if es == [] then 0
    else
      var e := es[|es| - 1];
      PositivePart(es[..|es| - 1], env) + if e.scale > 0 then e.scale * Eval(e.value, env) else 0
  }

  function NegativePart(es: seq<Entry>, env: Env): int {
    if es == [] then 0
    else
      var e := es[|es| - 1];
      NegativePart(es[..|es| - 1], env) + if e.scale < 0 then e.scale * Eval(e.value, env) else 0
  }

  lemma {:induction false} TermRight(e: Entry, env: Env)
    ensures Eval(Term(e), env) == if e.scale < 0 then -(e.scale * Eval(e.value, env)) else e.scale * Eval(e.value, env)
  {
  }

  lemma {:induction false} AddSubRight(o: Option<Expr>, e: Expr, env: Env)
    ensures OptValue(AddTo(o, e), env) == OptValue(o, env) + Eval(e, env)
    ensures OptValue(SubFrom(o, e), env) == OptValue(o, env) - Eval(e, env)
  {
    assert Eval(IntImm(0), env) == 0;
  }

  lemma {:induction false} SubBaseRight(o: Option<Expr>, base: int, env: Env)
    ensures OptValue(SubBase(o, base), env) == OptValue(o, env) + if base < 0 then base else 0
  {
    assert Eval(IntImm(-base), env) == -base;
  }

  lemma {:induction false} AddPositiveRight(o: Option<Expr>, es: seq<Entry>, env: Env)
    ensures OptValue(AddPositive(o, es), env) == OptValue(o, env) + PositivePart(es, env)
  {
    if es != [] {
      AddPositiveRight(o, es[..|es| - 1], env);
      TermRight(es[|es| - 1], env);
      AddSubRight(AddPositive(o, es[..|es| - 1]), Term(es[|es| - 1]), env);
    }
  }

  lemma {:induction false} SubNegativeRight(o: Option<Expr>, es: seq<Entry>, env: Env)
    ensures OptValue(SubNegative(o, es), env) == OptValue(o, env) + NegativePart(es, env)
  {
    if es != [] {
      SubNegativeRight(o, es[..|es| - 1], env);
      TermRight(es[|es| - 1], env);
      AddSubRight(SubNegative(o, es[..|es| - 1]), Term(es[|es| - 1]), env);
    }
  }

  lemma {:induction false} PartsRight(es: seq<Entry>, env: Env)
    ensures PositivePart(es, env) + NegativePart(es, env) == SumElems(es, env)
  {
    if es != [] {
      var init, e := es[..|es| - 1], es[|es| - 1];
      PartsRight(init, env);
      assert es == init + [e];
      SumAppend(init, [e], env);
      SumOne(e, env);
    }
  }

  /** The expression has the value of the sum. */
  lemma {:induction false} SumToExprRight(c: ComExpr, env: Env)
    ensures Eval(SumToExpr(c), env) == SumValue(c, env)
  {
    var start := if c.base > 0 then Some(IntImm(c.base)) else None;
    AddPositiveRight(start, c.elem, env);
    SubBaseRight(AddPositive(start, c.elem), c.base, env);
    SubNegativeRight(SubBase(AddPositive(start, c.elem), c.base), c.elem, env);
    PartsRight(c.elem, env);
  }

  // ----- the canonical form -----

  /** The level of an expression: the highest of its variables. */
  function Level(e: Expr, g: Setting): nat {
    match e
    case IntImm(_) => 0
    case Variable(x) => if x in g.level then g.level[x] else 0
    case Bin(_, a, b) => Higher(Level(a, g), Level(b, g))
    case Select(c, t, f) => Higher(Level(c, g), Higher(Level(t, g), Level(f, g)))
  }

  function Higher(a: nat, b: nat): nat {
    if a >= b then a else b
  }

  /** An expression as a sum. */
  function AsSum(c: CacheEntry): ComExpr {
    if c.sum.Some? then c.sum.value
    else if c.value.IntImm? then ComExpr(c.value.value, [])
    else ComExpr(0, [Entry(c.value, c.maxLevel, 1)])
  }

  function SumEntry(s: ComExpr, level: nat): CacheEntry {
    CacheEntry(SumToExpr(s), level, Some(s))
  }

  function AddSums(a: CacheEntry, b: CacheEntry, n: int, level: nat, g: Setting): Option<CacheEntry> {
    var sa, sb := AsSum(a), AsSum(b);
    var m := Merge(sa.elem, sb.elem, n, g);
    if m == None then None else Some(SumEntry(ComExpr(sa.base + sb.base * n, m.value), level))
  }

  function MulSum(a: CacheEntry, n: int, level: nat): CacheEntry {
    var s := AsSum(a);
    if n == 0 then CacheEntry(IntImm(0), level, None)
    else SumEntry(ComExpr(s.base * n, ScaleAll(s.elem, n)), level)
  }

  function MulEntries(a: CacheEntry, b: CacheEntry, level: nat): CacheEntry {
    if a.value.IntImm? && b.value.IntImm? then CacheEntry(ComputeMul(a.value, b.value), level, None)
    else if a.value.IntImm? then MulSum(b, a.value.value, level)
    else if b.value.IntImm? then MulSum(a, b.value.value, level)
    else CacheEntry(Bin(Mul, a.value, b.value), level, None)
  }

  predicate IsLess(e: Expr) {
    e.Bin? && e.op == LT
  }

  /** a < b is true when the set of b - a is positive. The entry keeps the sum of b - a, which is not that of a < b. */
  function LessEntry(a: CacheEntry, b: CacheEntry, level: nat, g: Setting): Option<CacheEntry> {
    var d := AddSums(b, a, -1, level, g);
    if d == None then None
    else
      var proved := BoundDeducer.SignType(EvalSet(d.value.value, g.range), g.simplify) == BoundDeducer.Positive;
      Some(CacheEntry(if proved then IntImm(1) else Bin(LT, a.value, b.value), level, d.value.sum))
  }

  /** What the canonicaliser makes of an expression, without its caches; None when its check on levels fails. */
  function Canon(e: Expr, g: Setting): (r: Option<CacheEntry>)
    ensures r.Some? ==> r.value.maxLevel == Level(e, g)
  {
    match e
    case IntImm(_) => Some(CacheEntry(e, 0, None))
    case Variable(_) => Some(CacheEntry(e, Level(e, g), None))
    case Bin(op, a, b) =>
      var ca, cb := Canon(a, g), Canon(b, g);
      if ca == None || cb == None then None
      else if op == Add then AddSums(ca.value, cb.value, 1, Level(e, g), g)
      else if op == Sub then AddSums(ca.value, cb.value, -1, Level(e, g), g)
      else if op == Mul then Some(MulEntries(ca.value, cb.value, Level(e, g)))
      else if op == LT then LessEntry(ca.value, cb.value, Level(e, g), g)
      else Some(CacheEntry(Bin(op, ca.value.value, cb.value.value), Level(e, g), None))
    case Select(c, t, f) =>
      var cc, ct, cf := Canon(c, g), Canon(t, g), Canon(f, g);
      if cc == None || ct == None || cf == None then None
      else Some(CacheEntry(Select(cc.value.value, ct.value.value, cf.value.value), Level(e, g), None))
  }

  /** What the canonicaliser is given: loop ranges with two ends, and a simplifier that keeps values. */
  ghost predicate SoundSetting(g: Setting) {
    TameDom(g.range) && BoundDeducer.SoundSimplifier(g.simplify)
  }

  /** No comparison a < b is an operand of an addition, a subtraction, a multiplication or another one. */
  predicate NoTests(e: Expr) {
    match e
    case IntImm(_) => true
    case Variable(_) => true
    case Bin(op, a, b) => NoTests(a) && NoTests(b) && (op in {Add, Sub, Mul, LT} ==> !IsLess(a) && !IsLess(b))
    case Select(c, t, f) => NoTests(c) && NoTests(t) && NoTests(f)
  }

  /** The value of the entry is that of the expression, and so is the value of its sum, unless the expression is a comparison. */
  ghost predicate Denotes(c: CacheEntry, e: Expr, g: Setting) {
    forall env: Env | Respects(env, g.range) ::
      Eval(c.value, env) == Eval(e, env) && (c.sum.Some? && !IsLess(e) ==> SumValue(c.sum.value, env) == Eval(e, env))
  }

  lemma {:induction false} AsSumRight(c: CacheEntry, e: Expr, g: Setting, env: Env)
    requires Denotes(c, e, g) && !IsLess(e) && Respects(env, g.range)
    ensures SumValue(AsSum(c), env) == Eval(e, env)
  {
    assert Eval(c.value, env) == Eval(e, env);
    if c.sum == None && !c.value.IntImm? {
      SumOne(Entry(c.value, c.maxLevel, 1), env);
    }
  }

  lemma {:induction false} AddSumsRight(a: CacheEntry, b: CacheEntry, ea: Expr, eb: Expr, n: int, level: nat, g: Setting)
    requires Denotes(a, ea, g) && Denotes(b, eb, g) && !IsLess(ea) && !IsLess(eb) && n in {1, -1} && AddSums(a, b, n, level, g).Some?
    ensures Denotes(AddSums(a, b, n, level, g).value, Bin(if n == 1 then Add else Sub, ea, eb), g)
  {
    hide Denotes;
    var c, e := AddSums(a, b, n, level, g).value, Bin(if n == 1 then Add else Sub, ea, eb);
    var s := c.sum.value;
    forall env: Env | Respects(env, g.range) ensures Eval(c.value, env) == Eval(e, env) && SumValue(s, env) == Eval(e, env) {
      AsSumRight(a, ea, g, env);
      AsSumRight(b, eb, g, env);
      MergeRight(AsSum(a).elem, AsSum(b).elem, n, g, env);
      SumToExprRight(s, env);
    }
    MakeDenotes(c, e, g);
  }

  lemma {:induction false} MakeDenotes(c: CacheEntry, e: Expr, g: Setting)
    requires forall env: Env | Respects(env, g.range) :: Eval(c.value, env) == Eval(e, env)
    requires c.sum.Some? && !IsLess(e) ==> forall env: Env | Respects(env, g.range) :: SumValue(c.sum.value, env) == Eval(e, env)
    ensures Denotes(c, e, g)
  {
  }

  lemma {:induction false} MulSumRight(a: CacheEntry, ea: Expr, n: int, level: nat, g: Setting)
    requires Denotes(a, ea, g) && !IsLess(ea)
    ensures forall env: Env | Respects(env, g.range) :: Eval(MulSum(a, n, level).value, env) == n * Eval(ea, env)
    ensures n != 0 ==> forall env: Env | Respects(env, g.range) :: SumValue(MulSum(a, n, level).sum.value, env) == n * Eval(ea, env)
  {
    hide Denotes;
    forall env: Env | Respects(env, g.range)
      ensures Eval(MulSum(a, n, level).value, env) == n * Eval(ea, env)
      ensures n != 0 ==> SumValue(MulSum(a, n, level).sum.value, env) == n * Eval(ea, env)
    {
      var s := AsSum(a);
      AsSumRight(a, ea, g, env);
      if n != 0 {
        ScaleAllRight(s.elem, n, env);
        Arithmetic.Distribute(n, s.base, SumElems(s.elem, env));
        SumToExprRight(MulSum(a, n, level).sum.value, env);
      }
    }
  }

  lemma {:induction false} MulEntriesRight(a: CacheEntry, b: CacheEntry, ea: Expr, eb: Expr, level: nat, g: Setting)
    requires Denotes(a, ea, g) && Denotes(b, eb, g) && !IsLess(ea) && !IsLess(eb)
    ensures Denotes(MulEntries(a, b, level), Bin(Mul, ea, eb), g)
  {
    hide MulSum, SumValue, Eval, ComputeMul, Denotes;
    var c := MulEntries(a, b, level);
    MulSumZero(a, b, level);
    if a.value.IntImm? && !b.value.IntImm? {
      MulSumRight(b, eb, a.value.value, level, g);
    } else if b.value.IntImm? && !a.value.IntImm? {
      MulSumRight(a, ea, b.value.value, level, g);
    }
    forall env: Env | Respects(env, g.range)
      ensures Eval(c.value, env) == Eval(Bin(Mul, ea, eb), env)
      ensures c.sum.Some? ==> SumValue(c.sum.value, env) == Eval(Bin(Mul, ea, eb), env)
    {
      ProductAt(a, b, ea, eb, g, env);
    }
    MakeDenotes(c, Bin(Mul, ea, eb), g);
  }

  lemma {:induction false} ProductAt(a: CacheEntry, b: CacheEntry, ea: Expr, eb: Expr, g: Setting, env: Env)
    requires Denotes(a, ea, g) && Denotes(b, eb, g) && Respects(env, g.range)
    ensures Eval(Bin(Mul, ea, eb), env) == Eval(Bin(Mul, a.value, b.value), env)
    ensures a.value.IntImm? && b.value.IntImm? ==> Eval(ComputeMul(a.value, b.value), env) == Eval(Bin(Mul, ea, eb), env)
    ensures a.value.IntImm? ==> Eval(Bin(Mul, ea, eb), env) == a.value.value * Eval(eb, env)
    ensures b.value.IntImm? ==> Eval(Bin(Mul, ea, eb), env) == b.value.value * Eval(ea, env)
  {
    assert Eval(a.value, env) == Eval(ea, env) && Eval(b.value, env) == Eval(eb, env);
    IntSet.TimesCommutes(Eval(ea, env), Eval(eb, env));
  }

  lemma {:induction false} MulSumZero(a: CacheEntry, b: CacheEntry, level: nat)
    ensures MulEntries(a, b, level).sum.Some? ==>
      (a.value.IntImm? && a.value.value != 0 && !b.value.IntImm?) || (b.value.IntImm? && b.value.value != 0 && !a.value.IntImm?)
  {
  }

  /** A comparison is only taken for true where it is. */
  lemma {:induction false} LessRight(a: CacheEntry, b: CacheEntry, ea: Expr, eb: Expr, level: nat, g: Setting)
    requires SoundSetting(g) && Denotes(a, ea, g) && Denotes(b, eb, g) && !IsLess(ea) && !IsLess(eb) && LessEntry(a, b, level, g).Some?
    ensures Denotes(LessEntry(a, b, level, g).value, Bin(LT, ea, eb), g)
  {
    hide AddSums, EvalSet, BoundDeducer.SignType;
    var c, d := LessEntry(a, b, level, g).value, AddSums(b, a, -1, level, g).value;
    AddSumsRight(b, a, eb, ea, -1, level, g);
    forall env: Env | Respects(env, g.range) ensures Eval(c.value, env) == Eval(Bin(LT, ea, eb), env) {
      assert Eval(d.value, env) == Eval(eb, env) - Eval(ea, env);
      assert Eval(a.value, env) == Eval(ea, env) && Eval(b.value, env) == Eval(eb, env);
      BoundDeducer.SignSound(d.value, g.range, g.simplify, env);
    }
    MakeDenotes(c, Bin(LT, ea, eb), g);
  }

  /** Canonicalisation keeps the value of every expression in which no comparison a < b is an operand. */
  lemma {:induction false} CanonRight(e: Expr, g: Setting)
    requires SoundSetting(g) && NoTests(e) && Canon(e, g).Some?
    ensures Denotes(Canon(e, g).value, e, g)
  {
    hide Denotes, AddSums, MulEntries, LessEntry, SoundSetting;
    match e
    case IntImm(_) => MakeDenotes(Canon(e, g).value, e, g);
    case Variable(_) => MakeDenotes(Canon(e, g).value, e, g);
    case Bin(op, a, b) =>
      CanonRight(a, g);
      CanonRight(b, g);
      var ca, cb := Canon(a, g).value, Canon(b, g).value;
      if op == Add {
        AddSumsRight(ca, cb, a, b, 1, Level(e, g), g);
      } else if op == Sub {
        AddSumsRight(ca, cb, a, b, -1, Level(e, g), g);
      } else if op == Mul {
        MulEntriesRight(ca, cb, a, b, Level(e, g), g);
      } else if op == LT {
        LessRight(ca, cb, a, b, Level(e, g), g);
      } else {
        OtherRight(op, ca, cb, a, b, Level(e, g), g);
      }
    case Select(c, t, f) =>
      CanonRight(c, g);
      CanonRight(t, g);
      CanonRight(f, g);
      SelectRight(Canon(c, g).value, Canon(t, g).value, Canon(f, g).value, e, Level(e, g), g);
  }

  lemma {:induction false} OtherRight(op: Op, ca: CacheEntry, cb: CacheEntry, a: Expr, b: Expr, level: nat, g: Setting)
    requires Denotes(ca, a, g) && Denotes(cb, b, g)
    ensures Denotes(CacheEntry(Bin(op, ca.value, cb.value), level, None), Bin(op, a, b), g)
  {
    forall env: Env | Respects(env, g.range) ensures Eval(Bin(op, ca.value, cb.value), env) == Eval(Bin(op, a, b), env) {
      assert Eval(ca.value, env) == Eval(a, env) && Eval(cb.value, env) == Eval(b, env);
    }
  }

  lemma {:induction false} SelectRight(cc: CacheEntry, ct: CacheEntry, cf: CacheEntry, e: Expr, level: nat, g: Setting)
    requires e.Select? && Denotes(cc, e.cond, g) && Denotes(ct, e.t, g) && Denotes(cf, e.f, g)
    ensures Denotes(CacheEntry(Select(cc.value, ct.value, cf.value), level, None), e, g)
  {
    forall env: Env | Respects(env, g.range) ensures Eval(Select(cc.value, ct.value, cf.value), env) == Eval(e, env) {
      assert Eval(cc.value, env) == Eval(e.cond, env) && Eval(ct.value, env) == Eval(e.t, env) && Eval(cf.value, env) == Eval(e.f, env);
    }
  }

  /** A comparison that is an operand counts as the difference of its sides: its sum is right exactly where that is 0 or 1. */
  lemma {:induction false} LessAsOperand(a: Expr, b: Expr, g: Setting, env: Env)
    requires SoundSetting(g) && NoTests(Bin(LT, a, b)) && Canon(Bin(LT, a, b), g).Some? && Respects(env, g.range)
    ensures var sum := SumValue(AsSum(Canon(Bin(LT, a, b), g).value), env);
      sum == Eval(b, env) - Eval(a, env) && (sum == Eval(Bin(LT, a, b), env) <==> 0 <= Eval(b, env) - Eval(a, env) <= 1)
  {
    CanonRight(a, g);
    CanonRight(b, g);
    var ca, cb := Canon(a, g).value, Canon(b, g).value;
    var d := AddSums(cb, ca, -1, Level(Bin(LT, a, b), g), g).value;
    AddSumsRight(cb, ca, b, a, -1, Level(Bin(LT, a, b), g), g);
    hide AddSums;
    assert Canon(Bin(LT, a, b), g).value.sum == d.sum;
    assert SumValue(d.sum.value, env) == Eval(Bin(Sub, b, a), env);
  }

  /** So the truth value (a < b) + false becomes b - a. */
  lemma {:induction false} LessPlusFalse(a: Expr, b: Expr, g: Setting, env: Env)
    requires SoundSetting(g) && NoTests(Bin(LT, a, b)) && Canon(Bin(Add, Bin(LT, a, b), IntImm(0)), g).Some? && Respects(env, g.range)
    ensures var r := Eval(Canon(Bin(Add, Bin(LT, a, b), IntImm(0)), g).value.value, env);
      r == Eval(b, env) - Eval(a, env) && (r == Eval(Bin(Add, Bin(LT, a, b), IntImm(0)), env) <==> 0 <= Eval(b, env) - Eval(a, env) <= 1)
  {
    LessAsOperand(a, b, g, env);
    var e := Bin(Add, Bin(LT, a, b), IntImm(0));
    var cl, ck := Canon(Bin(LT, a, b), g).value, Canon(IntImm(0), g).value;
    assert Canon(e, g) == AddSums(cl, ck, 1, Level(e, g), g);
    MergeRight(AsSum(cl).elem, AsSum(ck).elem, 1, g, env);
    SumToExprRight(Canon(e, g).value.sum.value, env);
  }

  /** (a < b) < (c < d) is taken for true where (d - c) - (b - a) is seen to be positive, and is left as it is elsewhere. So its
      value is kept exactly where it is left, or a < b is false and c < d is true. */
  lemma {:induction false} LessOfLess(a: Expr, b: Expr, c: Expr, d: Expr, g: Setting, env: Env)
    requires SoundSetting(g) && NoTests(Bin(LT, a, b)) && NoTests(Bin(LT, c, d)) && Respects(env, g.range)
    requires Canon(Bin(LT, Bin(LT, a, b), Bin(LT, c, d)), g).Some?
    ensures var difference := AddSums(Canon(Bin(LT, c, d), g).value, Canon(Bin(LT, a, b), g).value, -1, 0, g);
      && difference.Some?
      && Eval(difference.value.value, env) == (Eval(d, env) - Eval(c, env)) - (Eval(b, env) - Eval(a, env))
      && var taken := BoundDeducer.SignType(EvalSet(difference.value.value, g.range), g.simplify) == BoundDeducer.Positive;
      var e := Bin(LT, Bin(LT, a, b), Bin(LT, c, d));
      && Eval(Canon(e, g).value.value, env) == (if taken then 1 else Eval(e, env))
      && (Eval(Canon(e, g).value.value, env) == Eval(e, env) <==> !taken || (Eval(a, env) >= Eval(b, env) && Eval(c, env) < Eval(d, env)))
  {
    hide BoundDeducer.SignType, EvalSet;
    LessAsOperand(a, b, g, env);
    LessAsOperand(c, d, g, env);
    CanonRight(Bin(LT, a, b), g);
    CanonRight(Bin(LT, c, d), g);
    var e := Bin(LT, Bin(LT, a, b), Bin(LT, c, d));
    var c1, c2 := Canon(Bin(LT, a, b), g).value, Canon(Bin(LT, c, d), g).value;
    assert Canon(e, g) == LessEntry(c1, c2, Level(e, g), g);
    var s := AddSums(c2, c1, -1, 0, g).value.sum.value;
    MergeRight(AsSum(c2).elem, AsSum(c1).elem, -1, g, env);
    SumToExprRight(s, env);
    assert Eval(c1.value, env) == Eval(Bin(LT, a, b), env) && Eval(c2.value, env) == Eval(Bin(LT, c, d), env);
  }

  // (0 < x) < (0 < y)
  const X := Variable(0)
  const Y := Variable(1)
  const TWO_TESTS := Bin(LT, Bin(LT, IntImm(0), X), Bin(LT, IntImm(0), Y))

  /** With x in 1 .. 2 and y in 5 .. 6, where y - x is at least 3, it is taken for true, although both tests are true. */
  lemma {:induction false} TwoTestsTaken(g: Setting, env: Env)
    requires g.level == map[] && g.address(X) != g.address(Y) && g.simplify(IntImm(3)) == IntImm(3)
    requires g.range == map[0 := Interval(Fin(IntImm(1)), Fin(IntImm(2))), 1 := Interval(Fin(IntImm(5)), Fin(IntImm(6)))]
    requires Respects(env, g.range)
    ensures Canon(TWO_TESTS, g).Some? && Canon(TWO_TESTS, g).value.value == IntImm(1) && Eval(TWO_TESTS, env) == 0
  {
    hide BoundDeducer.SignType, EvalSet;
    var ex, ey := Entry(X, 0, 1), Entry(Y, 0, 1);
    TestOfVariable(0, g);
    TestOfVariable(1, g);
    var c1, c2 := Canon(Bin(LT, IntImm(0), X), g).value, Canon(Bin(LT, IntImm(0), Y), g).value;
    MergeTwo(ex, ey, g);
    var d := AddSums(c2, c1, -1, 0, g).value;
    assert d.value == Bin(Sub, Y, X);
    DifferencePositive(g);
    assert Canon(TWO_TESTS, g) == LessEntry(c1, c2, 0, g);
    assert In(Eval(X, env), g.range[0], env) && In(Eval(Y, env), g.range[1], env);
    assert Eval(IntImm(0), env) == 0 && Eval(IntImm(1), env) == 1 && Eval(IntImm(5), env) == 5;
    assert Eval(Bin(LT, IntImm(0), X), env) == 1 == Eval(Bin(LT, IntImm(0), Y), env);
  }

  lemma {:induction false} TestOfVariable(x: nat, g: Setting)
    requires g.level == map[]
    ensures var c := Canon(Bin(LT, IntImm(0), Variable(x)), g); c.Some? && c.value.sum == Some(ComExpr(0, [Entry(Variable(x), 0, 1)]))
  {
    var e := Entry(Variable(x), 0, 1);
    var none: seq<Entry> := [];
    var cx, ck := CacheEntry(Variable(x), 0, None), CacheEntry(IntImm(0), 0, None);
    assert Canon(Variable(x), g) == Some(cx) && Canon(IntImm(0), g) == Some(ck);
    assert AsSum(cx) == ComExpr(0, [e]) && AsSum(ck) == ComExpr(0, none);
    assert Merge([e], none, -1, g) == Some([e]);
  }

  /** y - x, in either order. */
  lemma {:induction false} MergeTwo(ex: Entry, ey: Entry, g: Setting)
    requires ex.value != ey.value && ex.level == ey.level && ex.scale == ey.scale == 1 && g.address(ex.value) != g.address(ey.value)
    ensures var m := Merge([ey], [ex], -1, g); m.Some? && SumToExpr(ComExpr(0, m.value)) == Bin(Sub, ey.value, ex.value)
  {
    var none: seq<Entry> := [];
    var minus := ex.(scale := -1);
    assert [ey][1..] == none && [ex][1..] == none && ScaleAll(none, -1) == none && ScaleAll([ex], -1) == [minus] + none == [minus];
    assert Merge(none, [ex], -1, g) == Some([minus]);
    assert Merge([ey], none, -1, g) == Some([ey]);
    var es := if Less(ey, ex, g) then [ey] + [minus] else [minus] + [ey];
    assert Merge([ey], [ex], -1, g) == Some(es);
    assert es[..1] == [es[0]] && [es[0]][..0] == none;
    assert AddPositive(None, none) == None && AddPositive(None, es[..1]) == (if es[0] == ey then Some(ey.value) else None);
    assert AddPositive(None, es) == Some(ey.value);
    var o := Some(ey.value);
    assert SubNegative(o, none) == o && SubNegative(o, es[..1]) == (if es[0] == ey then o else Some(Bin(Sub, ey.value, ex.value)));
    assert SubNegative(o, es) == Some(Bin(Sub, ey.value, ex.value));
  }

  lemma {:induction false} DifferencePositive(g: Setting)
    requires g.simplify(IntImm(3)) == IntImm(3)
    requires g.range == map[0 := Interval(Fin(IntImm(1)), Fin(IntImm(2))), 1 := Interval(Fin(IntImm(5)), Fin(IntImm(6)))]
    ensures BoundDeducer.SignType(EvalSet(Bin(Sub, Y, X), g.range), g.simplify) == BoundDeducer.Positive
  {
    assert EvalSet(X, g.range) == g.range[0] && EvalSet(Y, g.range) == g.range[1];
    assert EvalSet(Bin(Sub, Y, X), g.range) == Interval(Fin(IntImm(3)), Fin(IntImm(5)));
  }

  // ----- which expressions keep their values -----

  datatype Kind = Number | Truth

  /** The type of an expression: the operands of an operator have one type, and comparisons are truth values. */
  function KindOf(e: Expr): Option<Kind> {
    match e
    case IntImm(_) => Some(Number)
    case Variable(_) => Some(Number)
    case Bin(op, a, b) =>
      if KindOf(a) == None || KindOf(a) != KindOf(b) then None
      else if IsComparison(op) then Some(Truth) else KindOf(a)
    case Select(c, t, f) =>
      if KindOf(c) == Some(Truth) && KindOf(t) == KindOf(f) then KindOf(t) else None
  }

  /** No operator has truth values for operands. */
  predicate OperatesOnNumbers(e: Expr) {
    match e
    case IntImm(_) => true
    case Variable(_) => true
    case Bin(_, a, b) => OperatesOnNumbers(a) && OperatesOnNumbers(b) && KindOf(a) == Some(Number) == KindOf(b)
    case Select(c, t, f) => OperatesOnNumbers(c) && OperatesOnNumbers(t) && OperatesOnNumbers(f)
  }

  predicate NoSelect(e: Expr) {
    match e
    case IntImm(_) => true
    case Variable(_) => true
    case Bin(_, a, b) => NoSelect(a) && NoSelect(b)
    case Select(_, _, _) => false
  }

  /** Every well-typed number without selections only operates on numbers, and whatever does so has no comparison for an
      operand: its value is kept. */
  lemma {:induction false} TypedNoTests(e: Expr)
    ensures KindOf(e) == Some(Number) && NoSelect(e) ==> OperatesOnNumbers(e)
    ensures OperatesOnNumbers(e) ==> NoTests(e)
  {
    match e
    case IntImm(_) =>
    case Variable(_) =>
    case Bin(op, a, b) =>
      TypedNoTests(a);
      TypedNoTests(b);
    case Select(c, t, f) =>
      TypedNoTests(c);
      TypedNoTests(t);
      TypedNoTests(f);
  }

  /** Every sum is sorted and free of zeros. */
  lemma {:induction false} CanonSorted(e: Expr, g: Setting)
    requires Ordered(g) && Canon(e, g).Some?
    ensures SortedSum(AsSum(Canon(e, g).value).elem, g)
  {
    hide SortedSum, Merge, ScaleAll, SumToExpr;
    match e
    case IntImm(_) => OneSorted(Canon(e, g).value, g);
    case Variable(_) => OneSorted(Canon(e, g).value, g);
    case Bin(op, a, b) =>
      CanonSorted(a, g);
      CanonSorted(b, g);
      var ca, cb := Canon(a, g).value, Canon(b, g).value;
      if op in {Add, Sub} {
        MergeSorted(AsSum(ca).elem, AsSum(cb).elem, if op == Add then 1 else -1, g);
      } else if op == LT {
        MergeSorted(AsSum(cb).elem, AsSum(ca).elem, -1, g);
      } else if op == Mul && ca.value.IntImm? && !cb.value.IntImm? && ca.value.value != 0 {
        ScaleSorted(AsSum(cb).elem, ca.value.value, g);
      } else if op == Mul && cb.value.IntImm? && !ca.value.IntImm? && cb.value.value != 0 {
        ScaleSorted(AsSum(ca).elem, cb.value.value, g);
      } else {
        OneSorted(Canon(e, g).value, g);
      }
    case Select(_, _, _) => OneSorted(Canon(e, g).value, g);
  }

  lemma {:induction false} OneSorted(c: CacheEntry, g: Setting)
    requires c.sum == None
    ensures SortedSum(AsSum(c).elem, g)
  {
  }

  // ----- when the check on levels fails -----

  /** All entries have the level that f gives their values. */
  ghost predicate LevelsBy(es: seq<Entry>, f: Expr -> nat) {
    forall i | 0 <= i < |es| :: es[i].level == f(es[i].value)
  }

  lemma {:induction false} MergeLevels(xs: seq<Entry>, ys: seq<Entry>, n: int, g: Setting, f: Expr -> nat)
    requires LevelsBy(xs, f) && LevelsBy(ys, f)
    ensures Merge(xs, ys, n, g).Some? && LevelsBy(Merge(xs, ys, n, g).value, f)
    decreases |xs| + |ys|
  {
    if xs == [] {
      ScaleLevels(ys, n, f);
    } else if ys != [] {
      assert LevelsBy(xs[1..], f) && LevelsBy(ys[1..], f);
      MergeLevels(xs[1..], ys[1..], n, g, f);
      MergeLevels(xs[1..], ys, n, g, f);
      MergeLevels(xs, ys[1..], n, g, f);
    }
  }

  lemma {:induction false} ScaleLevels(es: seq<Entry>, n: int, f: Expr -> nat)
    requires LevelsBy(es, f)
    ensures LevelsBy(ScaleAll(es, n), f)
  {
    if es != [] {
      assert LevelsBy(es[1..], f);
      ScaleLevels(es[1..], n, f);
    }
  }

  lemma {:induction false} SortedHeads(es: seq<Entry>, g: Setting)
    requires SortedSum(es, g) && es != []
    ensures SortedSum(es[1..], g) && forall k | 0 < k < |es| :: Less(es[0], es[k], g)
  {
  }

  /** Entries i and j stand opposite each other in the merge, with one value and two levels. */
  predicate ClashAt(xs: seq<Entry>, i: nat, ys: seq<Entry>, j: nat, g: Setting)
    requires i < |xs| && j < |ys|
  {
    && xs[i].value == ys[j].value && xs[i].level != ys[j].level
    && (forall k | 0 <= k < i :: Less(xs[k], ys[j], g)) && (forall k | 0 <= k < j :: Less(ys[k], xs[i], g))
  }

  ghost predicate Clash(xs: seq<Entry>, ys: seq<Entry>, g: Setting) {
    exists i, j | 0 <= i < |xs| && 0 <= j < |ys| :: ClashAt(xs, i, ys, j, g)
  }

  /** The merge of sorted sums fails exactly if two entries of one value and two levels come to stand opposite each other. */
  lemma {:induction false} MergeFailsIff(xs: seq<Entry>, ys: seq<Entry>, n: int, g: Setting)
    requires Ordered(g) && SortedSum(xs, g) && SortedSum(ys, g)
    ensures Merge(xs, ys, n, g) == None <==> Clash(xs, ys, g)
    decreases |xs| + |ys|
  {
    hide SortedSum;
    if xs != [] && ys != [] {
      SortedHeads(xs, g);
      SortedHeads(ys, g);
      if xs[0].value == ys[0].value {
        if xs[0].level != ys[0].level {
          assert ClashAt(xs, 0, ys, 0, g);
        } else {
          MergeFailsIff(xs[1..], ys[1..], n, g);
          ClashInTails(xs, ys, g, 1, 1);
        }
      } else if Less(xs[0], ys[0], g) {
        MergeFailsIff(xs[1..], ys, n, g);
        ClashInTails(xs, ys, g, 1, 0);
      } else {
        MergeFailsIff(xs, ys[1..], n, g);
        ClashInTails(xs, ys, g, 0, 1);
      }
    }
  }

  /** The heads that the merge takes first: one of them, or both if they have one value and one level. */
  predicate HeadsTaken(xs: seq<Entry>, ys: seq<Entry>, g: Setting, dx: nat, dy: nat) {
    && xs != [] && ys != [] && dx <= 1 && dy <= 1 && dx + dy > 0
    && (forall k | 0 < k < |xs| :: Less(xs[0], xs[k], g)) && (forall k | 0 < k < |ys| :: Less(ys[0], ys[k], g))
    && (dx == dy ==> xs[0].value == ys[0].value && xs[0].level == ys[0].level)
    && (dx != dy ==> xs[0].value != ys[0].value)
    && (dx > dy ==> Less(xs[0], ys[0], g)) && (dx < dy ==> Less(ys[0], xs[0], g))
  }

  /** Without them, the same entries clash. */
  lemma {:induction false} ClashInTails(xs: seq<Entry>, ys: seq<Entry>, g: Setting, dx: nat, dy: nat)
    requires HeadsTaken(xs, ys, g, dx, dy)
    ensures Clash(xs[dx..], ys[dy..], g) <==> Clash(xs, ys, g)
  {
    assert dx <= |xs| && dy <= |ys|;
    hide ClashAt, HeadsTaken;
    if Clash(xs[dx..], ys[dy..], g) {
      var i, j :| 0 <= i < |xs[dx..]| && 0 <= j < |ys[dy..]| && ClashAt(xs[dx..], i, ys[dy..], j, g);
      ClashBehind(xs, ys, g, dx, dy, i, j);
    }
    if Clash(xs, ys, g) {
      var i, j :| 0 <= i < |xs| && 0 <= j < |ys| && ClashAt(xs, i, ys, j, g);
      ClashAhead(xs, ys, g, dx, dy, i, j);
    }
  }

  lemma {:induction false} ClashBehind(xs: seq<Entry>, ys: seq<Entry>, g: Setting, dx: nat, dy: nat, i: nat, j: nat)
    requires HeadsTaken(xs, ys, g, dx, dy) && i + dx < |xs| && j + dy < |ys| && ClashAt(xs[dx..], i, ys[dy..], j, g)
    ensures ClashAt(xs, i + dx, ys, j + dy, g)
  {
    forall k | 0 <= k < i + dx ensures Less(xs[k], ys[j + dy], g) {
      if k >= dx {
        assert xs[k] == xs[dx..][k - dx];
      }
    }
    forall k | 0 <= k < j + dy ensures Less(ys[k], xs[i + dx], g) {
      if k >= dy {
        assert ys[k] == ys[dy..][k - dy];
      }
    }
  }

  lemma {:induction false} ClashAhead(xs: seq<Entry>, ys: seq<Entry>, g: Setting, dx: nat, dy: nat, i: nat, j: nat)
    requires HeadsTaken(xs, ys, g, dx, dy) && i < |xs| && j < |ys| && ClashAt(xs, i, ys, j, g)
    ensures i >= dx && j >= dy && ClashAt(xs[dx..], i - dx, ys[dy..], j - dy, g)
  {
    assert i > 0 ==> Less(xs[0], ys[j], g);
    assert j > 0 ==> Less(ys[0], xs[i], g);
  }

  /** Somewhere in e, the sums of two operands clash. */
  ghost predicate Clashes(e: Expr, g: Setting) {
    match e
    case IntImm(_) => false
    case Variable(_) => false
    case Bin(op, a, b) =>
      || Clashes(a, g) || Clashes(b, g)
      || (Canon(a, g).Some? && Canon(b, g).Some? &&
          var xs, ys := AsSum(Canon(a, g).value).elem, AsSum(Canon(b, g).value).elem;
          (op in {Add, Sub} && Clash(xs, ys, g)) || (op == LT && Clash(ys, xs, g)))
    case Select(c, t, f) => Clashes(c, g) || Clashes(t, g) || Clashes(f, g)
  }

  /** The check fails exactly if the sums of two operands clash somewhere. */
  lemma {:induction false} CanonFailsIff(e: Expr, g: Setting)
    requires Ordered(g)
    ensures Canon(e, g) == None <==> Clashes(e, g)
  {
    hide SortedSum, Clash, SumToExpr, ScaleAll, Merge;
    match e
    case IntImm(_) =>
    case Variable(_) =>
    case Bin(op, a, b) =>
      CanonFailsIff(a, g);
      CanonFailsIff(b, g);
      if Canon(a, g).Some? && Canon(b, g).Some? {
        CanonSorted(a, g);
        CanonSorted(b, g);
        var xs, ys := AsSum(Canon(a, g).value).elem, AsSum(Canon(b, g).value).elem;
        MergeFailsIff(xs, ys, 1, g);
        MergeFailsIff(xs, ys, -1, g);
        MergeFailsIff(ys, xs, -1, g);
      }
    case Select(c, t, f) =>
      CanonFailsIff(c, g);
      CanonFailsIff(t, g);
      CanonFailsIff(f, g);
  }

  /** Every part of e that is a summand as a whole keeps its level: nothing with a higher level cancels in it. */
  predicate LevelsKept(e: Expr, g: Setting) {
    var whole := Canon(e, g).Some? && Canon(e, g).value.sum == None && !Canon(e, g).value.value.IntImm?;
    && (whole ==> Level(Canon(e, g).value.value, g) == Level(e, g))
    && match e
       case IntImm(_) => true
       case Variable(_) => true
       case Bin(_, a, b) => LevelsKept(a, g) && LevelsKept(b, g)
       case Select(c, t, f) => LevelsKept(c, g) && LevelsKept(t, g) && LevelsKept(f, g)
  }

  /** Where levels are kept, the check does not fail. */
  lemma {:induction false} LevelsKeptGives(e: Expr, g: Setting)
    requires LevelsKept(e, g)
    ensures Canon(e, g).Some? && LevelsBy(AsSum(Canon(e, g).value).elem, v => Level(v, g))
  {
    hide Merge, ScaleAll, SumToExpr;
    match e
    case IntImm(_) =>
    case Variable(_) =>
    case Bin(op, a, b) =>
      LevelsKeptGives(a, g);
      LevelsKeptGives(b, g);
      var ca, cb := Canon(a, g).value, Canon(b, g).value;
      var f: Expr -> nat := v => Level(v, g);
      assert LevelsBy(AsSum(ca).elem, f) && LevelsBy(AsSum(cb).elem, f);
      MergeLevels(AsSum(ca).elem, AsSum(cb).elem, if op == Add then 1 else -1, g, f);
      MergeLevels(AsSum(cb).elem, AsSum(ca).elem, -1, g, f);
      if cb.value.IntImm? {
        ScaleLevels(AsSum(ca).elem, cb.value.value, f);
      }
      if ca.value.IntImm? {
        ScaleLevels(AsSum(cb).elem, ca.value.value, f);
      }
    case Select(c, t, f) =>
      LevelsKeptGives(c, g);
      LevelsKeptGives(t, g);
      LevelsKeptGives(f, g);
  }

  /** Built from variables and positive constants without subtractions and tests: nothing can cancel. */
  predicate OnlyAdds(e: Expr) {
    match e
    case IntImm(v) => v > 0
    case Variable(_) => true
    case Bin(op, a, b) => op !in {Sub, LT} && OnlyAdds(a) && OnlyAdds(b)
    case Select(c, t, f) => OnlyAdds(c) && OnlyAdds(t) && OnlyAdds(f)
  }

  /** Sums and differences, tests, and products with constants, of variables and of expressions in which nothing can cancel. */
  predicate OnlyAddsInside(e: Expr) {
    match e
    case IntImm(_) => true
    case Variable(_) => true
    case Bin(op, a, b) =>
      if op in {Add, Sub, LT} || (op == Mul && (a.IntImm? || b.IntImm?)) then OnlyAddsInside(a) && OnlyAddsInside(b)
      else OnlyAdds(e)
    case Select(_, _, _) => OnlyAdds(e)
  }

  function MaxLevel(es: seq<Entry>): nat {
    if es == [] then 0 else Higher(es[0].level, MaxLevel(es[1..]))
  }

  ghost predicate Positive(es: seq<Entry>, f: Expr -> nat) {
    LevelsBy(es, f) && forall i | 0 <= i < |es| :: es[i].scale > 0 && !es[i].value.IntImm?
  }

  lemma {:induction false} MergePositive(xs: seq<Entry>, ys: seq<Entry>, g: Setting, f: Expr -> nat)
    requires Positive(xs, f) && Positive(ys, f)
    ensures var m := Merge(xs, ys, 1, g); m.Some? && Positive(m.value, f) && MaxLevel(m.value) == Higher(MaxLevel(xs), MaxLevel(ys))
    decreases |xs| + |ys|
  {
    hide Positive;
    if xs == [] {
      ScalePositive(ys, 1, f);
    } else if ys != [] {
      PositiveTail(xs, f);
      PositiveTail(ys, f);
      MergePositive(xs[1..], ys[1..], g, f);
      MergePositive(xs[1..], ys, g, f);
      MergePositive(xs, ys[1..], g, f);
      var x, y, m := xs[0], ys[0], Merge(xs, ys, 1, g).value;
      if x.value == y.value {
        PositiveCons(x.(scale := x.scale + y.scale * 1), Merge(xs[1..], ys[1..], 1, g).value, f);
      } else if Less(x, y, g) {
        PositiveCons(x, Merge(xs[1..], ys, 1, g).value, f);
      } else {
        PositiveCons(y.(scale := y.scale * 1), Merge(xs, ys[1..], 1, g).value, f);
      }
    }
  }

  lemma {:induction false} PositiveTail(es: seq<Entry>, f: Expr -> nat)
    requires Positive(es, f) && es != []
    ensures Positive(es[1..], f) && es[0].scale > 0 && es[0].level == f(es[0].value) && !es[0].value.IntImm?
  {
  }

  lemma {:induction false} PositiveCons(e: Entry, es: seq<Entry>, f: Expr -> nat)
    requires Positive(es, f) && e.scale > 0 && e.level == f(e.value) && !e.value.IntImm?
    ensures Positive([e] + es, f) && MaxLevel([e] + es) == Higher(e.level, MaxLevel(es))
  {
    assert ([e] + es)[1..] == es;
  }

  lemma {:induction false} ScalePositive(es: seq<Entry>, n: int, f: Expr -> nat)
    requires Positive(es, f) && n > 0
    ensures Positive(ScaleAll(es, n), f) && MaxLevel(ScaleAll(es, n)) == MaxLevel(es) && |ScaleAll(es, n)| == |es|
  {
    if es != [] {
      assert Positive(es[1..], f);
      ScalePositive(es[1..], n, f);
      assert es[0].scale * n > 0;
      PositiveCons(es[0].(scale := es[0].scale * n), ScaleAll(es[1..], n), f);
    }
  }

  lemma {:induction false} MaxLevelSnoc(es: seq<Entry>)
    requires es != []
    ensures MaxLevel(es) == Higher(MaxLevel(es[..|es| - 1]), es[|es| - 1].level)
  {
    if |es| > 1 {
      MaxLevelSnoc(es[1..]);
      assert es[1..][..|es| - 2] == es[..|es| - 1][1..];
    }
  }

  /** A sum without negative parts has the highest of the levels of its summands. */
  lemma {:induction false} SumLevel(o: Option<Expr>, es: seq<Entry>, g: Setting)
    requires Positive(es, v => Level(v, g)) && (o.Some? ==> Level(o.value, g) == 0)
    ensures var r := AddPositive(o, es); (r.Some? <==> o.Some? || es != []) && (r.Some? ==> Level(r.value, g) == MaxLevel(es))
    ensures es != [] ==> !AddPositive(o, es).value.IntImm?
    ensures SubNegative(AddPositive(o, es), es) == AddPositive(o, es)
  {
    if es != [] {
      var init, e := es[..|es| - 1], es[|es| - 1];
      SumLevel(o, init, g);
      MaxLevelSnoc(es);
      assert Level(Term(e), g) == e.level;
      NothingNegative(AddPositive(o, es), es);
    }
  }

  lemma {:induction false} NothingNegative(o: Option<Expr>, es: seq<Entry>)
    requires forall i | 0 <= i < |es| :: es[i].scale > 0
    ensures SubNegative(o, es) == o
  {
    if es != [] {
      NothingNegative(o, es[..|es| - 1]);
    }
  }

  /** The entry of an expression in which nothing cancels: positive summands, with the level of the whole. */
  ghost predicate Plain(c: CacheEntry, level: nat, g: Setting) {
    var s := AsSum(c);
    && Positive(s.elem, v => Level(v, g)) && MaxLevel(s.elem) == level == Level(c.value, g)
    && s.base >= 0 && (c.value.IntImm? <==> s.elem == []) && (c.value.IntImm? ==> c.value.value == s.base > 0)
  }

  lemma {:induction false} SumPlain(s: ComExpr, level: nat, l: nat, g: Setting)
    requires Positive(s.elem, v => Level(v, g)) && MaxLevel(s.elem) == l && s.base >= 0 && (s.elem == [] ==> s.base > 0)
    ensures Plain(SumEntry(s, level), l, g)
  {
    SumLevel(if s.base > 0 then Some(IntImm(s.base)) else None, s.elem, g);
  }

  lemma {:induction false} WholePlain(c: CacheEntry, g: Setting)
    requires c.sum == None && !c.value.IntImm? && Level(c.value, g) == c.maxLevel
    ensures Plain(c, c.maxLevel, g)
  {
  }

  lemma {:induction false} AddPlain(a: CacheEntry, b: CacheEntry, la: nat, lb: nat, level: nat, g: Setting)
    requires Plain(a, la, g) && Plain(b, lb, g)
    ensures var c := AddSums(a, b, 1, level, g); c.Some? && Plain(c.value, Higher(la, lb), g)
  {
    hide SumToExpr, Merge;
    var xs, ys := AsSum(a).elem, AsSum(b).elem;
    MergePositive(xs, ys, g, v => Level(v, g));
    var m := Merge(xs, ys, 1, g).value;
    MergeLength(xs, ys, g);
    SumPlain(ComExpr(AsSum(a).base + AsSum(b).base * 1, m), level, Higher(la, lb), g);
  }

  lemma {:induction false} MergeLength(xs: seq<Entry>, ys: seq<Entry>, g: Setting)
    requires (forall i | 0 <= i < |xs| :: xs[i].scale > 0) && (forall i | 0 <= i < |ys| :: ys[i].scale > 0)
    ensures xs != [] || ys != [] ==> Merge(xs, ys, 1, g) != Some([])
  {
    if xs != [] && ys != [] {
      assert xs[0].scale > 0 && ys[0].scale > 0;
    }
  }

  lemma {:induction false} MulPlain(a: CacheEntry, b: CacheEntry, la: nat, lb: nat, g: Setting)
    requires Plain(a, la, g) && Plain(b, lb, g)
    ensures Plain(MulEntries(a, b, Higher(la, lb)), Higher(la, lb), g)
  {
    hide SumToExpr;
    var c := MulEntries(a, b, Higher(la, lb));
    if a.value.IntImm? && b.value.IntImm? {
      assert a.value.value * b.value.value > 0;
    } else if a.value.IntImm? {
      ScaledPlain(b, lb, a.value.value, Higher(la, lb), g);
    } else if b.value.IntImm? {
      ScaledPlain(a, la, b.value.value, Higher(la, lb), g);
    } else {
      WholePlain(c, g);
    }
  }

  lemma {:induction false} ScaledPlain(a: CacheEntry, l: nat, n: int, level: nat, g: Setting)
    requires Plain(a, l, g) && n > 0
    ensures Plain(MulSum(a, n, level), l, g)
  {
    hide SumToExpr;
    var s := AsSum(a);
    ScalePositive(s.elem, n, v => Level(v, g));
    assert s.base * n >= 0 && (s.base > 0 ==> s.base * n > 0);
    SumPlain(ComExpr(s.base * n, ScaleAll(s.elem, n)), level, l, g);
  }

  lemma {:induction false} OnlyAddsPlain(e: Expr, g: Setting)
    requires OnlyAdds(e)
    ensures Canon(e, g).Some? && Plain(Canon(e, g).value, Level(e, g), g) && LevelsKept(e, g)
  {
    hide Plain, AddSums, MulEntries;
    match e
    case IntImm(_) => ConstPlain(e, g);
    case Variable(_) => WholePlain(Canon(e, g).value, g);
    case Bin(op, a, b) =>
      OnlyAddsPlain(a, g);
      OnlyAddsPlain(b, g);
      var ca, cb := Canon(a, g).value, Canon(b, g).value;
      PlainLevel(ca, Level(a, g), g);
      PlainLevel(cb, Level(b, g), g);
      if op == Add {
        AddPlain(ca, cb, Level(a, g), Level(b, g), Level(e, g), g);
      } else if op == Mul {
        MulPlain(ca, cb, Level(a, g), Level(b, g), g);
      } else {
        WholePlain(Canon(e, g).value, g);
      }
      PlainLevel(Canon(e, g).value, Level(e, g), g);
    case Select(c, t, f) =>
      OnlyAddsPlain(c, g);
      OnlyAddsPlain(t, g);
      OnlyAddsPlain(f, g);
      PlainLevel(Canon(c, g).value, Level(c, g), g);
      PlainLevel(Canon(t, g).value, Level(t, g), g);
      PlainLevel(Canon(f, g).value, Level(f, g), g);
      WholePlain(Canon(e, g).value, g);
  }

  lemma {:induction false} ConstPlain(e: Expr, g: Setting)
    requires e.IntImm? && e.value > 0
    ensures Plain(CacheEntry(e, 0, None), 0, g)
  {
  }

  lemma {:induction false} PlainLevel(c: CacheEntry, level: nat, g: Setting)
    requires Plain(c, level, g)
    ensures Level(c.value, g) == level
  {
  }

  /** The check does not fail on an expression whose operators other than sums, differences and tests only have operands in
      which nothing can cancel: its parts keep their levels. */
  lemma {:induction false} OnlyAddsInsideGives(e: Expr, g: Setting)
    requires OnlyAddsInside(e)
    ensures LevelsKept(e, g) && Canon(e, g).Some?
  {
    InsideKept(e, g);
    LevelsKeptGives(e, g);
  }

  lemma {:induction false} InsideKept(e: Expr, g: Setting)
    requires OnlyAddsInside(e)
    ensures LevelsKept(e, g)
  {
    hide AddSums, SumToExpr;
    match e
    case IntImm(_) =>
    case Variable(_) =>
    case Bin(op, a, b) =>
      if op in {Add, Sub, LT} || (op == Mul && (a.IntImm? || b.IntImm?)) {
        InsideKept(a, g);
        InsideKept(b, g);
        SumOrConst(e, g);
      } else {
        OnlyAddsPlain(e, g);
      }
    case Select(_, _, _) => OnlyAddsPlain(e, g);
  }

  lemma {:induction false} SumOrConst(e: Expr, g: Setting)
    requires e.Bin? && (e.op in {Add, Sub, LT} || (e.op == Mul && (e.a.IntImm? || e.b.IntImm?)))
    ensures Canon(e, g).Some? && Canon(e, g).value.sum == None ==> Canon(e, g).value.value.IntImm?
  {
    hide SumToExpr, Merge;
  }

  /** Without loop levels the check never fails. */
  lemma {:induction false} CanonNoLevels(e: Expr, g: Setting)
    requires g.level == map[]
    ensures Canon(e, g).Some? && Level(e, g) == 0 && LevelsBy(AsSum(Canon(e, g).value).elem, _ => 0)
  {
    hide Merge, ScaleAll, SumToExpr;
    match e
    case IntImm(_) =>
    case Variable(_) =>
    case Bin(op, a, b) =>
      CanonNoLevels(a, g);
      CanonNoLevels(b, g);
      var ca, cb := Canon(a, g).value, Canon(b, g).value;
      var n := if op == Add then 1 else -1;
      var f: Expr -> nat := _ => 0;
      assert LevelsBy(AsSum(ca).elem, f) && LevelsBy(AsSum(cb).elem, f);
      MergeLevels(AsSum(ca).elem, AsSum(cb).elem, n, g, f);
      MergeLevels(AsSum(cb).elem, AsSum(ca).elem, -1, g, f);
      if cb.value.IntImm? {
        ScaleLevels(AsSum(ca).elem, cb.value.value, f);
      }
      if ca.value.IntImm? {
        ScaleLevels(AsSum(cb).elem, ca.value.value, f);
      }
    case Select(c, t, f) =>
      CanonNoLevels(c, g);
      CanonNoLevels(t, g);
      CanonNoLevels(f, g);
  }

  /** With levels it may: (x - x + y) / z is y / z, but keeps the level of x. */
  lemma {:induction false} LevelCheckFails(address: Expr -> int, range: DomMap, simplify: Expr -> Expr)
    ensures var x, y, z := Variable(0), Variable(1), Variable(2);
      Canon(Bin(Add, Bin(Div, Bin(Add, Bin(Sub, x, x), y), z), Bin(Div, y, z)), Setting(map[0 := 1], address, range, simplify)) == None
  {
    var g := Setting(map[0 := 1], address, range, simplify);
    var x, y, z := Variable(0), Variable(1), Variable(2);
    var d, a := Bin(Sub, x, x), Bin(Add, Bin(Sub, x, x), y);
    CanonDifference(0, g);
    CanonSumOfOne(d, 1, g);
    CanonQuotient(a, z, g);
    CanonQuotient(y, z, g);
    var q := Bin(Div, y, z);
    assert Canon(Bin(Div, a, z), g) == Some(CacheEntry(q, 1, None)) && Canon(q, g) == Some(CacheEntry(q, 0, None));
    assert Merge([Entry(q, 1, 1)], [Entry(q, 0, 1)], 1, g) == None;
  }

  lemma {:induction false} CanonDifference(x: nat, g: Setting)
    ensures Canon(Bin(Sub, Variable(x), Variable(x)), g) == Some(SumEntry(ComExpr(0, []), Level(Variable(x), g)))
  {
    var e := Entry(Variable(x), Level(Variable(x), g), 1);
    var c := CacheEntry(Variable(x), e.level, None);
    assert Canon(Variable(x), g) == Some(c) && AsSum(c) == ComExpr(0, [e]);
    MergeSelf(e, g);
    assert AddSums(c, c, -1, e.level, g) == Some(SumEntry(ComExpr(0, []), e.level));
  }

  lemma {:induction false} MergeSelf(e: Entry, g: Setting)
    requires e.scale == 1
    ensures Merge([e], [e], -1, g) == Some([])
  {
    var none: seq<Entry> := [];
    assert [e][1..] == none;
    assert Merge(none, none, -1, g) == Some(none);
    assert Prepend(none, Some(none)) == Some(none + none) && none + none == none;
    assert Merge([e], [e], -1, g) == Prepend(none, Merge([e][1..], [e][1..], -1, g));
  }

  /** A variable added to nothing is that variable, with the level of what it was added to. */
  lemma {:induction false} CanonSumOfOne(d: Expr, x: nat, g: Setting)
    requires Canon(d, g) == Some(SumEntry(ComExpr(0, []), Level(d, g)))
    ensures Canon(Bin(Add, d, Variable(x)), g) ==
            Some(CacheEntry(Variable(x), Higher(Level(d, g), Level(Variable(x), g)), Some(ComExpr(0, [Entry(Variable(x), Level(Variable(x), g), 1)]))))
  {
    var e := Entry(Variable(x), Level(Variable(x), g), 1);
    var none: seq<Entry> := [];
    assert [e][1..] == none && ScaleAll(none, 1) == none;
    assert e.(scale := e.scale * 1) == e;
    assert ScaleAll([e], 1) == [e.(scale := e.scale * 1)] + ScaleAll([e][1..], 1) == [e] + none == [e];
    assert Merge(none, [e], 1, g) == Some([e]);
    SumOfOne(e);
  }

  lemma {:induction false} CanonQuotient(a: Expr, z: Expr, g: Setting)
    requires Canon(a, g).Some? && z.Variable?
    ensures Canon(Bin(Div, a, z), g) == Some(CacheEntry(Bin(Div, Canon(a, g).value.value, z), Higher(Level(a, g), Level(z, g)), None))
  {
  }

  lemma {:induction false} SumOfOne(e: Entry)
    requires e.scale == 1
    ensures SumToExpr(ComExpr(0, [e])) == e.value
  {
    var none: seq<Entry> := [];
    assert [e][..0] == none;
    assert AddPositive(None, none) == None;
    assert AddPositive(None, [e]) == Some(e.value);
    assert SubNegative(Some(e.value), none) == Some(e.value);
    assert SubNegative(Some(e.value), [e]) == Some(e.value);
  }

  // ----- equal linear expressions have equal canonical forms -----

  /** Sums and differences of variables and constants, and products with constants. */
  predicate Linear(e: Expr) {
    match e
    case IntImm(_) => true
    case Variable(_) => true
    case Bin(op, a, b) =>
      if op in {Add, Sub} then Linear(a) && Linear(b)
      else op == Mul && ((a.IntImm? && Linear(b)) || (Linear(a) && b.IntImm?))
    case Select(_, _, _) => false
  }

  function Constant(e: Expr): int
    requires Linear(e)
  {
    match e
    case IntImm(v) => v
    case Variable(_) => 0
    case Bin(op, a, b) =>
      if op == Add then Constant(a) + Constant(b)
      else if op == Sub then Constant(a) - Constant(b)
      else if a.IntImm? then a.value * Constant(b)
      else b.value * Constant(a)
  }

  function Coefficient(e: Expr, x: nat): int
    requires Linear(e)
  {
    match e
    case IntImm(_) => 0
    case Variable(y) => if x == y then 1 else 0
    case Bin(op, a, b) =>
      if op == Add then Coefficient(a, x) + Coefficient(b, x)
      else if op == Sub then Coefficient(a, x) - Coefficient(b, x)
      else if a.IntImm? then a.value * Coefficient(b, x)
      else b.value * Coefficient(a, x)
  }

  /** The factor of x in a sum. */
  function FactorOf(es: seq<Entry>, x: nat): int {
    if es == [] then 0 else (if es[0].value == Variable(x) then es[0].scale else 0) + FactorOf(es[1..], x)
  }

  predicate Variables(es: seq<Entry>) {
    forall i | 0 <= i < |es| :: es[i].value.Variable?
  }

  lemma {:induction false} FactorAppend(es: seq<Entry>, fs: seq<Entry>, x: nat)
    ensures FactorOf(es + fs, x) == FactorOf(es, x) + FactorOf(fs, x)
  {
    if es == [] {
      assert es + fs == fs;
    } else {
      assert (es + fs)[1..] == es[1..] + fs;
      FactorAppend(es[1..], fs, x);
    }
  }

  lemma {:induction false} FactorOne(e: Entry, x: nat)
    ensures FactorOf([e], x) == if e.value == Variable(x) then e.scale else 0
  {
    assert [e][1..] == [];
  }

  lemma {:induction false} ScaleFactor(es: seq<Entry>, n: int, x: nat)
    ensures FactorOf(ScaleAll(es, n), x) == n * FactorOf(es, x) && (Variables(es) ==> Variables(ScaleAll(es, n)))
  {
    if es != [] {
      assert Variables(es) ==> Variables(es[1..]) by {
        assert forall i | 0 <= i < |es[1..]| :: es[1..][i] == es[i + 1];
      }
      ScaleFactor(es[1..], n, x);
      FactorAppend([es[0].(scale := es[0].scale * n)], ScaleAll(es[1..], n), x);
      FactorOne(es[0].(scale := es[0].scale * n), x);
      Arithmetic.Distribute(n, if es[0].value == Variable(x) then es[0].scale else 0, FactorOf(es[1..], x));
    }
  }

  lemma {:induction false} MergeFactor(xs: seq<Entry>, ys: seq<Entry>, n: int, g: Setting, x: nat)
    requires Merge(xs, ys, n, g).Some? && Variables(xs) && Variables(ys)
    ensures Variables(Merge(xs, ys, n, g).value) && FactorOf(Merge(xs, ys, n, g).value, x) == FactorOf(xs, x) + n * FactorOf(ys, x)
    decreases |xs| + |ys|
  {
    hide Less, Variables;
    if xs == [] {
      ScaleFactor(ys, n, x);
    } else if ys != [] {
      TailVariables(xs);
      TailVariables(ys);
      if xs[0].value == ys[0].value {
        MergeFactor(xs[1..], ys[1..], n, g, x);
        FactorSame(xs[0], ys[0], n, Merge(xs[1..], ys[1..], n, g).value, x);
        Arithmetic.Distribute(n, if ys[0].value == Variable(x) then ys[0].scale else 0, FactorOf(ys[1..], x));
      } else if Less(xs[0], ys[0], g) {
        MergeFactor(xs[1..], ys, n, g, x);
        FactorFirst(xs[0], Merge(xs[1..], ys, n, g).value, x);
      } else {
        MergeFactor(xs, ys[1..], n, g, x);
        FactorFirst(ys[0].(scale := ys[0].scale * n), Merge(xs, ys[1..], n, g).value, x);
        Arithmetic.Distribute(n, if ys[0].value == Variable(x) then ys[0].scale else 0, FactorOf(ys[1..], x));
      }
    }
  }

  lemma {:induction false} TailVariables(es: seq<Entry>)
    requires Variables(es) && es != []
    ensures Variables(es[1..]) && es[0].value.Variable?
  {
  }

  lemma {:induction false} FactorFirst(e: Entry, rest: seq<Entry>, x: nat)
    requires e.value.Variable? && Variables(rest)
    ensures Variables([e] + rest) && FactorOf([e] + rest, x) == (if e.value == Variable(x) then e.scale else 0) + FactorOf(rest, x)
  {
    FactorAppend([e], rest, x);
    FactorOne(e, x);
  }

  lemma {:induction false} FactorSame(a: Entry, b: Entry, n: int, rest: seq<Entry>, x: nat)
    requires a.value == b.value && a.value.Variable? && Variables(rest)
    ensures var s := a.scale + b.scale * n;
      var es := (if s != 0 then [a.(scale := s)] else []) + rest;
      Variables(es) && FactorOf(es, x) == (if a.value == Variable(x) then s else 0) + FactorOf(rest, x)
  {
    var s := a.scale + b.scale * n;
    if s != 0 {
      FactorFirst(a.(scale := s), rest, x);
    } else {
      assert [] + rest == rest;
    }
  }

  lemma {:induction false} FactorAfter(a: Entry, es: seq<Entry>, x: nat, g: Setting, f: Expr -> nat)
    requires a.value == Variable(x) && a.level == f(a.value) && LevelsBy(es, f) && After(a, es, g)
    ensures FactorOf(es, x) == 0
  {
    if es != [] {
      assert forall i | 0 <= i < |es[1..]| :: es[1..][i] == es[i + 1];
      assert Less(a, es[0], g);
      FactorAfter(a, es[1..], x, g, f);
    }
  }

  /** Sorted sums of variables with the same factors are the same. */
  lemma {:induction false} SumsEqual(xs: seq<Entry>, ys: seq<Entry>, g: Setting, f: Expr -> nat)
    requires Ordered(g) && SortedSum(xs, g) && SortedSum(ys, g) && Variables(xs) && Variables(ys) && LevelsBy(xs, f) && LevelsBy(ys, f)
    requires forall x: nat :: FactorOf(xs, x) == FactorOf(ys, x)
    ensures xs == ys
    decreases |xs| + |ys|
  {
    if xs == [] {
      EmptySum(ys, g, f, xs);
    } else if ys == [] {
      EmptySum(xs, g, f, ys);
    } else {
      SortedTail(xs, g);
      SortedTail(ys, g);
      HeadsEqual(xs, ys, g, f);
      assert Variables(xs[1..]) && Variables(ys[1..]) && LevelsBy(xs[1..], f) && LevelsBy(ys[1..], f);
      var a := xs[0];
      forall x: nat ensures FactorOf(xs[1..], x) == FactorOf(ys[1..], x) {
        assert FactorOf(xs, x) == FactorOf(ys, x);
      }
      SumsEqual(xs[1..], ys[1..], g, f);
      assert xs == [xs[0]] + xs[1..] && ys == [ys[0]] + ys[1..];
    }
  }

  lemma {:induction false} HeadFactor(es: seq<Entry>, g: Setting, f: Expr -> nat)
    requires es != [] && SortedSum(es, g) && Variables(es) && LevelsBy(es, f)
    ensures FactorOf(es, es[0].value.name) == es[0].scale != 0
  {
    SortedTail(es, g);
    assert LevelsBy(es[1..], f);
    FactorAfter(es[0], es[1..], es[0].value.name, g, f);
  }

  lemma {:induction false} EmptySum(es: seq<Entry>, g: Setting, f: Expr -> nat, none: seq<Entry>)
    requires SortedSum(es, g) && Variables(es) && LevelsBy(es, f) && none == []
    requires forall x: nat :: FactorOf(none, x) == FactorOf(es, x)
    ensures es == none
  {
    assert forall x: nat :: FactorOf(none, x) == 0;
    if es != [] {
      HeadFactor(es, g, f);
    }
  }

  lemma {:induction false} HeadsEqual(xs: seq<Entry>, ys: seq<Entry>, g: Setting, f: Expr -> nat)
    requires Ordered(g) && xs != [] && ys != [] && SortedSum(xs, g) && SortedSum(ys, g)
    requires Variables(xs) && Variables(ys) && LevelsBy(xs, f) && LevelsBy(ys, f)
    requires forall x: nat :: FactorOf(xs, x) == FactorOf(ys, x)
    ensures xs[0] == ys[0]
  {
    HeadFactor(xs, g, f);
    HeadFactor(ys, g, f);
    SortedTail(xs, g);
    SortedTail(ys, g);
    var x, y := xs[0].value.name, ys[0].value.name;
    assert FactorOf(xs, x) == FactorOf(ys, x) && FactorOf(xs, y) == FactorOf(ys, y);
    if x != y {
      if Less(xs[0], ys[0], g) {
        AfterCons(xs[0], ys[0], ys, g);
        FactorAfter(xs[0], ys, x, g, f);
      } else {
        assert Less(ys[0], xs[0], g);
        AfterCons(ys[0], xs[0], xs, g);
        FactorAfter(ys[0], xs, y, g, f);
      }
    }
  }

  /** The canonical form of a linear expression: its constant and its coefficients. */
  ghost predicate LinearForm(c: CacheEntry, e: Expr, g: Setting)
    requires Linear(e)
  {
    var s := AsSum(c);
    && s.base == Constant(e) && Variables(s.elem) && SortedSum(s.elem, g) && LevelsBy(s.elem, v => Level(v, g))
    && (forall x: nat :: FactorOf(s.elem, x) == Coefficient(e, x))
    && c.value == SumToExpr(s)
  }

  lemma {:induction false} AddLinear(a: CacheEntry, b: CacheEntry, ea: Expr, eb: Expr, n: int, level: nat, g: Setting)
    requires Ordered(g) && Linear(ea) && Linear(eb) && LinearForm(a, ea, g) && LinearForm(b, eb, g) && n in {1, -1}
    ensures var c := AddSums(a, b, n, level, g); c.Some? && LinearForm(c.value, Bin(if n == 1 then Add else Sub, ea, eb), g)
  {
    hide Merge, SortedSum, LevelsBy, Variables, FactorOf, SumToExpr;
    var xs, ys := AsSum(a).elem, AsSum(b).elem;
    MergeLevels(xs, ys, n, g, v => Level(v, g));
    MergeSorted(xs, ys, n, g);
    MergeFactor(xs, ys, n, g, 0);
    forall x: nat ensures FactorOf(Merge(xs, ys, n, g).value, x) == FactorOf(xs, x) + n * FactorOf(ys, x) {
      MergeFactor(xs, ys, n, g, x);
    }
  }

  lemma {:induction false} ScaleLinear(a: CacheEntry, ea: Expr, k: int, level: nat, g: Setting, e: Expr)
    requires Ordered(g) && Linear(ea) && LinearForm(a, ea, g)
    requires Linear(e) && Constant(e) == k * Constant(ea) && forall x: nat :: Coefficient(e, x) == k * Coefficient(ea, x)
    ensures LinearForm(MulSum(a, k, level), e, g)
  {
    hide ScaleAll, SortedSum, LevelsBy, Variables, FactorOf, SumToExpr;
    var xs := AsSum(a).elem;
    if k == 0 {
      ZeroForm(e, level, g);
    } else {
      ScaleSorted(xs, k, g);
      ScaleLevels(xs, k, v => Level(v, g));
      ScaleFactor(xs, k, 0);
      forall x: nat ensures FactorOf(ScaleAll(xs, k), x) == k * FactorOf(xs, x) {
        ScaleFactor(xs, k, x);
      }
    }
  }

  lemma {:induction false} ConstForm(e: Expr, v: int, level: nat, g: Setting)
    requires Linear(e) && Constant(e) == v && forall x: nat :: Coefficient(e, x) == 0
    ensures LinearForm(CacheEntry(IntImm(v), level, None), e, g)
  {
  }

  lemma {:induction false} ZeroForm(e: Expr, level: nat, g: Setting)
    requires Linear(e) && Constant(e) == 0 && forall x: nat :: Coefficient(e, x) == 0
    ensures LinearForm(CacheEntry(IntImm(0), level, None), e, g)
  {
    ConstForm(e, 0, level, g);
  }

  lemma {:induction false} VariableForm(x: nat, g: Setting)
    ensures LinearForm(CacheEntry(Variable(x), Level(Variable(x), g), None), Variable(x), g)
  {
    var en := Entry(Variable(x), Level(Variable(x), g), 1);
    SumOfOne(en);
    forall y: nat ensures FactorOf([en], y) == Coefficient(Variable(x), y) {
      FactorOne(en, y);
    }
  }

  predicate NotConst(o: Option<Expr>) {
    o.Some? && !o.value.IntImm?
  }

  lemma {:induction false} AddPositiveNotConst(o: Option<Expr>, es: seq<Entry>)
    requires Variables(es) && exists i :: 0 <= i < |es| && es[i].scale > 0
    ensures NotConst(AddPositive(o, es))
  {
    var init, e := es[..|es| - 1], es[|es| - 1];
    if e.scale <= 0 {
      assert Variables(init);
      var i :| 0 <= i < |es| && es[i].scale > 0;
      assert init[i].scale > 0;
      AddPositiveNotConst(o, init);
    }
  }

  lemma {:induction false} SubNegativeNotConst(o: Option<Expr>, es: seq<Entry>)
    requires NotConst(o) || exists i :: 0 <= i < |es| && es[i].scale < 0
    ensures NotConst(SubNegative(o, es))
  {
    if es != [] {
      var init, e := es[..|es| - 1], es[|es| - 1];
      if e.scale >= 0 {
        if !NotConst(o) {
          var i :| 0 <= i < |es| && es[i].scale < 0;
          assert init[i].scale < 0;
        }
        SubNegativeNotConst(o, init);
      }
    }
  }

  /** A sum that is written as a constant has no summands. */
  lemma {:induction false} ConstSum(s: ComExpr, g: Setting)
    requires SortedSum(s.elem, g) && Variables(s.elem) && SumToExpr(s).IntImm?
    ensures s.elem == [] && SumToExpr(s) == IntImm(s.base)
  {
    var start := if s.base > 0 then Some(IntImm(s.base)) else None;
    if s.elem != [] {
      if s.elem[0].scale > 0 {
        AddPositiveNotConst(start, s.elem);
      }
      SubNegativeNotConst(SubBase(AddPositive(start, s.elem), s.base), s.elem);
    }
  }

  lemma {:induction false} MulLinear(a: CacheEntry, b: CacheEntry, ea: Expr, eb: Expr, level: nat, g: Setting)
    requires Ordered(g) && Linear(ea) && Linear(eb) && LinearForm(a, ea, g) && LinearForm(b, eb, g) && Linear(Bin(Mul, ea, eb))
    requires (ea.IntImm? ==> a == CacheEntry(ea, 0, None)) && (eb.IntImm? ==> b == CacheEntry(eb, 0, None))
    ensures LinearForm(MulEntries(a, b, level), Bin(Mul, ea, eb), g)
  {
    hide LinearForm, MulSum;
    var e := Bin(Mul, ea, eb);
    if a.value.IntImm? {
      ConstOperand(a, ea, g);
    }
    if b.value.IntImm? {
      ConstOperand(b, eb, g);
    }
    if a.value.IntImm? && b.value.IntImm? {
      ConstForm(e, a.value.value * b.value.value, level, g);
      ComputeMulConst(a.value.value, b.value.value);
    } else if ea.IntImm? {
      ScaleLinear(b, eb, ea.value, level, g, e);
    } else {
      ScaleLinear(a, ea, eb.value, level, g, e);
    }
  }

  lemma {:induction false} ComputeMulConst(x: int, y: int)
    ensures ComputeMul(IntImm(x), IntImm(y)) == IntImm(x * y)
  {
  }

  lemma {:induction false} ConstOperand(c: CacheEntry, e: Expr, g: Setting)
    requires Linear(e) && LinearForm(c, e, g) && c.value.IntImm?
    ensures Constant(e) == c.value.value && forall x: nat :: Coefficient(e, x) == 0
  {
    ConstSum(AsSum(c), g);
    forall x: nat ensures Coefficient(e, x) == 0 {
      assert FactorOf(AsSum(c).elem, x) == Coefficient(e, x);
    }
  }

  /** Linear expressions never fail the check, and their canonical form only depends on their coefficients. */
  lemma {:induction false} CanonLinear(e: Expr, g: Setting)
    requires Ordered(g) && Linear(e)
    ensures Canon(e, g).Some? && LinearForm(Canon(e, g).value, e, g)
  {
    hide LinearForm, AddSums, MulEntries;
    match e
    case IntImm(v) => ConstForm(e, v, 0, g);
    case Variable(x) => VariableForm(x, g);
    case Bin(op, a, b) =>
      CanonLinear(a, g);
      CanonLinear(b, g);
      var ca, cb := Canon(a, g).value, Canon(b, g).value;
      if op == Mul {
        MulLinear(ca, cb, a, b, Level(e, g), g);
      } else {
        AddLinear(ca, cb, a, b, if op == Add then 1 else -1, Level(e, g), g);
      }
  }

  /** Two linear expressions with equal constants and coefficients become the same expression. */
  lemma {:induction false} LinearSame(e1: Expr, e2: Expr, g: Setting)
    requires Ordered(g) && Linear(e1) && Linear(e2)
    requires Constant(e1) == Constant(e2) && forall x: nat :: Coefficient(e1, x) == Coefficient(e2, x)
    ensures Canon(e1, g).Some? && Canon(e2, g).Some? && Canon(e1, g).value.value == Canon(e2, g).value.value
  {
    CanonLinear(e1, g);
    CanonLinear(e2, g);
    var s1, s2 := AsSum(Canon(e1, g).value), AsSum(Canon(e2, g).value);
    forall x: nat ensures FactorOf(s1.elem, x) == FactorOf(s2.elem, x) {
      assert FactorOf(s1.elem, x) == Coefficient(e1, x) && FactorOf(s2.elem, x) == Coefficient(e2, x);
    }
    SumsEqual(s1.elem, s2.elem, g, v => Level(v, g));
  }

  // ----- the canonicaliser with its caches -----

  class CanonicalEngine {
    ghost const setting: Setting
    const level: map<nat, nat>
    const address: Expr -> int
    const range: DomMap
    const simplify: Expr -> Expr
    /** The levels of the open sub-expressions. */
    var stack: seq<nat>
    var cacheSum: map<ComExpr, CacheEntry>
    var cacheBinary: map<Expr, Expr>

    constructor (level: map<nat, nat>, address: Expr -> int, range: DomMap, simplify: Expr -> Expr)
      ensures Valid() && setting == Setting(level, address, range, simplify) && stack == []
    {
      this.level, this.address, this.range, this.simplify := level, address, range, simplify;
      setting := Setting(level, address, range, simplify);
      stack, cacheSum, cacheBinary := [], map[], map[];
    }

    /** Every cached sum is kept with the expression that it stands for, and every cached operator with itself. */
    ghost predicate Valid()
      reads this
    {
      && setting == Setting(level, address, range, simplify)
      && (forall s <- cacheSum :: cacheSum[s].value == SumToExpr(s) && cacheSum[s].sum == Some(s))
      && (forall e <- cacheBinary :: cacheBinary[e] == e)
    }

    /** The sum as an expression, built from its parts. */
    method BuildSum(s: ComExpr) returns (e: Expr)
      ensures e == SumToExpr(s)
    {
      var sum: Option<Expr> := if s.base > 0 then Some(IntImm(s.base)) else None;
      ghost var start := sum;
      for k := 0 to |s.elem|
        invariant sum == AddPositive(start, s.elem[..k])
      {
        assert s.elem[..k + 1][..k] == s.elem[..k];
        if s.elem[k].scale > 0 {
          sum := AddTo(sum, Term(s.elem[k]));
        }
      }
      assert s.elem[..|s.elem|] == s.elem;
      if s.base < 0 {
        sum := Some(if sum.Some? then Bin(Sub, sum.value, IntImm(-s.base)) else IntImm(s.base));
      }
      start := sum;
      for k := 0 to |s.elem|
        invariant sum == SubNegative(start, s.elem[..k])
      {
        assert s.elem[..k + 1][..k] == s.elem[..k];
        if s.elem[k].scale < 0 {
          sum := SubFrom(sum, Term(s.elem[k]));
        }
      }
      return if sum.Some? then sum.value else IntImm(0);
    }

    /** The sum as an expression, from the cache if it is there. */
    method FindSum(s: ComExpr) returns (c: CacheEntry)
      requires Valid()
      modifies `cacheSum
      ensures Valid() && c.value == SumToExpr(s) && c.sum == Some(s)
    {
      if s in cacheSum {
        return cacheSum[s];
      }
      var value := BuildSum(s);
      c := CacheEntry(value, if stack == [] then 0 else stack[|stack| - 1], Some(s));
      cacheSum := cacheSum[s := c];
    }

    /** The two-index merge of two sums; fails when one value has two levels. */
    method SumAdd(xs: seq<Entry>, ys: seq<Entry>, n: int) returns (ok: bool, es: seq<Entry>)
      requires Valid()
      ensures ok <==> Merge(xs, ys, n, setting).Some?
      ensures ok ==> es == Merge(xs, ys, n, setting).value
    {
      es := [];
      var i: nat, j: nat := 0, 0;
      assert xs[0..] == xs && ys[0..] == ys;
      ghost var whole := Merge(xs, ys, n, setting);
      StartMerge(whole);
      while i < |xs| && j < |ys|
        invariant i <= |xs| && j <= |ys| && Prepend(es, Merge(xs[i..], ys[j..], n, setting)) == whole
        decreases |xs| - i + |ys| - j
      {
        var a, b := xs[i], ys[j];
        assert xs[i..][1..] == xs[i + 1..] && ys[j..][1..] == ys[j + 1..];
        if a.value == b.value {
          if a.level != b.level {
            return false, es;
          }
          var s := a.scale + b.scale * n;
          PrependTwo(es, if s != 0 then [a.(scale := s)] else [], Merge(xs[i + 1..], ys[j + 1..], n, setting));
          if s != 0 {
            es := es + [a.(scale := s)];
          } else {
            assert es + [] == es;
          }
          i, j := i + 1, j + 1;
        } else if Less(a, b, Setting(level, address, range, simplify)) {
          PrependTwo(es, [a], Merge(xs[i + 1..], ys[j..], n, setting));
          es := es + [a];
          i := i + 1;
        } else {
          PrependTwo(es, [b.(scale := b.scale * n)], Merge(xs[i..], ys[j + 1..], n, setting));
          es := es + [b.(scale := b.scale * n)];
          j := j + 1;
        }
      }
      if i < |xs| {
        es := es + xs[i..];
      } else {
        var rest := ScaleFrom(ys, j, n);
        es := es + rest;
      }
      return true, es;
    }

    method ScaleFrom(ys: seq<Entry>, j: nat, n: int) returns (es: seq<Entry>)
      requires j <= |ys|
      ensures es == ScaleAll(ys[j..], n)
    {
      es := [];
      for k := j to |ys|
        invariant es + ScaleAll(ys[k..], n) == ScaleAll(ys[j..], n)
      {
        assert ys[k..][1..] == ys[k + 1..];
        assert es + ([ys[k].(scale := ys[k].scale * n)] + ScaleAll(ys[k + 1..], n)) ==
               es + [ys[k].(scale := ys[k].scale * n)] + ScaleAll(ys[k + 1..], n);
        es := es + [ys[k].(scale := ys[k].scale * n)];
      }
    }

    /** The canonical form is that without caches; the levels of open expressions take in that of e. */
    method Produce(e: Expr) returns (ok: bool, c: CacheEntry)
      requires Valid()
      modifies this
      ensures Valid() && (ok <==> Canon(e, setting).Some?)
      ensures ok ==> c == Canon(e, setting).value && stack == Raised(old(stack), Level(e, setting))
      decreases e, 2
    {
      hide Canon;
      stack := stack + [0];
      ok, c := Mutate(e);
      if !ok {
        return;
      }
      var back := stack[|stack| - 1];
      stack := stack[..|stack| - 1];
      if |stack| > 0 {
        stack := stack[|stack| - 1 := Higher(stack[|stack| - 1], back)];
      }
      c := c.(maxLevel := back);
    }

    /** The rules for the kinds of expressions, at the top of the stack; the level of the result is set by the caller. */
    method Mutate(e: Expr) returns (ok: bool, c: CacheEntry)
      requires Valid() && stack != [] && stack[|stack| - 1] == 0
      modifies this
      ensures Valid() && (ok <==> Canon(e, setting).Some?)
      ensures ok ==> c.value == Canon(e, setting).value.value && c.sum == Canon(e, setting).value.sum
      ensures ok ==> stack == old(stack)[|old(stack)| - 1 := Level(e, setting)]
      decreases e, 1
    {
      ok := true;
      c := CacheEntry(e, 0, None);
      match e
      case IntImm(_) =>
        assert stack[|stack| - 1 := 0] == stack;
      case Variable(x) =>
        if x in level {
          stack := stack[|stack| - 1 := level[x]];
        }
        assert stack == old(stack)[|old(stack)| - 1 := Level(e, setting)];
      case Bin(_, _, _) => ok, c := MutateBin(e);
      case Select(_, _, _) => ok, c := MutateSelect(e);
    }

    method MutateBin(e: Expr) returns (ok: bool, c: CacheEntry)
      requires Valid() && stack != [] && stack[|stack| - 1] == 0 && e.Bin?
      modifies this
      ensures Valid() && (ok <==> Canon(e, setting).Some?)
      ensures ok ==> c.value == Canon(e, setting).value.value && c.sum == Canon(e, setting).value.sum
      ensures ok ==> stack == old(stack)[|old(stack)| - 1 := Level(e, setting)]
      decreases e, 0
    {
      hide Merge, SumToExpr, MulEntries, Raised, AddSums, LessEntry;
      c := CacheEntry(e, 0, None);
      var ca, cb;
      ok, ca := Produce(e.a);
      if !ok {
        return;
      }
      ok, cb := Produce(e.b);
      if !ok {
        return;
      }
      RaisedTwo(old(stack), Level(e.a, setting), Level(e.b, setting));
      if e.op in {Add, Sub} {
        SumLevels(ca, cb, if e.op == Add then 1 else -1, Level(e, setting), setting);
        ok, c := AddOrSub(ca, cb, if e.op == Add then 1 else -1);
      } else if e.op == Mul {
        MulLevels(ca, cb, Level(e, setting));
        c := Multiply(ca, cb);
      } else if e.op == LT {
        LessLevels(ca, cb, Level(e, setting), setting);
        ok, c := Compare(ca, cb);
      } else {
        c := Binary(Bin(e.op, ca.value, cb.value));
      }
    }

    method AddOrSub(a: CacheEntry, b: CacheEntry, n: int) returns (ok: bool, c: CacheEntry)
      requires Valid()
      modifies `cacheSum
      ensures Valid() && (ok <==> AddSums(a, b, n, 0, setting).Some?)
      ensures ok ==> c.value == AddSums(a, b, n, 0, setting).value.value && c.sum == AddSums(a, b, n, 0, setting).value.sum
    {
      hide Merge, SumToExpr;
      var sa, sb := AsSum(a), AsSum(b);
      var es;
      ok, es := SumAdd(sa.elem, sb.elem, n);
      c := a;
      if ok {
        c := FindSum(ComExpr(sa.base + sb.base * n, es));
      }
    }

    /** A comparison; the entry keeps the sum of the difference that was looked at. */
    method Compare(a: CacheEntry, b: CacheEntry) returns (ok: bool, c: CacheEntry)
      requires Valid()
      modifies `cacheSum
      ensures Valid() && (ok <==> LessEntry(a, b, 0, setting).Some?)
      ensures ok ==> c.value == LessEntry(a, b, 0, setting).value.value && c.sum == LessEntry(a, b, 0, setting).value.sum
    {
      hide AddSums;
      ok, c := AddOrSub(b, a, -1);
      if ok {
        var proved := BoundDeducer.SignType(EvalSet(c.value, range), simplify) == BoundDeducer.Positive;
        c := CacheEntry(if proved then IntImm(1) else Bin(LT, a.value, b.value), 0, c.sum);
      }
    }

    method MutateSelect(e: Expr) returns (ok: bool, c: CacheEntry)
      requires Valid() && stack != [] && stack[|stack| - 1] == 0 && e.Select?
      modifies this
      ensures Valid() && (ok <==> Canon(e, setting).Some?)
      ensures ok ==> c.value == Canon(e, setting).value.value && c.sum == Canon(e, setting).value.sum
      ensures ok ==> stack == old(stack)[|old(stack)| - 1 := Level(e, setting)]
      decreases e, 0
    {
      hide Raised;
      c := CacheEntry(e, 0, None);
      var cc, ct, cf;
      ok, cc := Produce(e.cond);
      if !ok {
        return;
      }
      ok, ct := Produce(e.t);
      if !ok {
        return;
      }
      ok, cf := Produce(e.f);
      if !ok {
        return;
      }
      RaisedThree(old(stack), Level(e.cond, setting), Level(e.t, setting), Level(e.f, setting));
      c := CacheEntry(Select(cc.value, ct.value, cf.value), 0, None);
    }

    method Multiply(a: CacheEntry, b: CacheEntry) returns (c: CacheEntry)
      requires Valid()
      modifies `cacheSum
      ensures Valid() && c.value == MulEntries(a, b, 0).value && c.sum == MulEntries(a, b, 0).sum
    {
      if a.value.IntImm? && b.value.IntImm? {
        c := CacheEntry(ComputeMul(a.value, b.value), 0, None);
      } else if a.value.IntImm? {
        c := SumMulConst(b, a.value.value);
      } else if b.value.IntImm? {
        c := SumMulConst(a, b.value.value);
      } else {
        c := CacheEntry(Bin(Mul, a.value, b.value), 0, None);
      }
    }

    method SumMulConst(a: CacheEntry, n: int) returns (c: CacheEntry)
      requires Valid()
      modifies `cacheSum
      ensures Valid() && c.value == MulSum(a, n, 0).value && c.sum == MulSum(a, n, 0).sum
    {
      if n == 0 {
        return CacheEntry(IntImm(0), 0, None);
      }
      var s := AsSum(a);
      var es := ScaleFrom(s.elem, 0, n);
      assert s.elem[0..] == s.elem;
      c := FindSum(ComExpr(s.base * n, es));
    }

    /** An operator of other kinds, from the cache if it is there. */
    method Binary(e: Expr) returns (c: CacheEntry)
      requires Valid()
      modifies `cacheBinary
      ensures Valid() && c == CacheEntry(e, 0, None)
    {
      if e in cacheBinary {
        return CacheEntry(cacheBinary[e], 0, None);
      }
      cacheBinary := cacheBinary[e := e];
      c := CacheEntry(e, 0, None);
    }
  }

  lemma {:induction false} StartMerge(o: Option<seq<Entry>>)
    ensures Prepend([], o) == o
  {
    if o.Some? {
      assert [] + o.value == o.value;
    }
  }

  lemma {:induction false} PrependTwo(es: seq<Entry>, fs: seq<Entry>, o: Option<seq<Entry>>)
    ensures Prepend(es, Prepend(fs, o)) == Prepend(es + fs, o)
  {
    if o.Some? {
      assert es + (fs + o.value) == es + fs + o.value;
    }
  }

  lemma {:induction false} MulLevels(a: CacheEntry, b: CacheEntry, level: nat)
    ensures MulEntries(a, b, level) == MulEntries(a, b, 0).(maxLevel := level)
  {
  }

  lemma {:induction false} SumLevels(a: CacheEntry, b: CacheEntry, n: int, level: nat, g: Setting)
    ensures AddSums(a, b, n, level, g).Some? <==> AddSums(a, b, n, 0, g).Some?
    ensures AddSums(a, b, n, level, g).Some? ==> AddSums(a, b, n, level, g).value == AddSums(a, b, n, 0, g).value.(maxLevel := level)
  {
  }

  lemma {:induction false} LessLevels(a: CacheEntry, b: CacheEntry, level: nat, g: Setting)
    ensures LessEntry(a, b, level, g).Some? <==> LessEntry(a, b, 0, g).Some?
    ensures LessEntry(a, b, level, g).Some? ==> LessEntry(a, b, level, g).value == LessEntry(a, b, 0, g).value.(maxLevel := level)
  {
    hide AddSums;
    SumLevels(b, a, -1, level, g);
  }

  /** The stack after a visit of an expression of the given level. */
  function Raised(stack: seq<nat>, level: nat): seq<nat> {
    if stack == [] then [] else stack[|stack| - 1 := Higher(stack[|stack| - 1], level)]
  }

  lemma {:induction false} RaisedTwo(stack: seq<nat>, a: nat, b: nat)
    requires stack != [] && stack[|stack| - 1] == 0
    ensures Raised(Raised(stack, a), b) == stack[|stack| - 1 := Higher(a, b)]
  {
  }

  lemma {:induction false} RaisedThree(stack: seq<nat>, a: nat, b: nat, c: nat)
    requires stack != [] && stack[|stack| - 1] == 0
    ensures Raised(Raised(Raised(stack, a), b), c) == stack[|stack| - 1 := Higher(a, Higher(b, c))]
  {
  }

  /** The canonical form, whatever was visited before. It keeps the value of the expression, for all loop variables in their
      ranges, unless a comparison is an operand. */
  method Simplify(engine: CanonicalEngine, e: Expr) returns (ok: bool, r: Expr)
    requires engine.Valid() && SoundSetting(engine.setting)
    modifies engine
    ensures engine.Valid() && (engine.level == map[] ==> ok)
    ensures ok <==> Canon(e, engine.setting).Some?
    ensures ok ==> r == Canon(e, engine.setting).value.value
    ensures ok && NoTests(e) ==> forall env: Env | Respects(env, engine.range) :: Eval(r, env) == Eval(e, env)
  {
    var c;
    ok, c := engine.Produce(e);
    r := e;
    if engine.level == map[] {
      CanonNoLevels(e, engine.setting);
    }
    if ok {
      if NoTests(e) {
        CanonRight(e, engine.setting);
      }
      r := c.value;
    }
  }
}
