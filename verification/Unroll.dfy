/** Explicit unrolling of loops with constant extent (src/pass/unroll_loop.cc). */
module Unroll {
  import opened Wrappers
  import IntSet
  import opened LoopIR

  /** How deeply loops are nested. */
  function LoopDepth(s: Stmt): nat {
    match s
    case Store(_, _, _) => 0
    case Evaluate(_) => 0
    case Block(first, rest) => Max(LoopDepth(first), LoopDepth(rest))
    case IfThenElse(_, thenCase, elseCase) => Max(LoopDepth(thenCase), LoopDepth(elseCase))
    case For(_, _, _, _, body) => 1 + LoopDepth(body)
    case LetStmt(_, _, body) => LoopDepth(body)
    case Allocate(_, _, body) => LoopDepth(body)
  }

  function Max(a: nat, b: nat): nat {
    if a >= b then a else b
  }

  lemma {:induction false} SubstLoopDepth(s: Stmt, x: nat, r: Expr)
    ensures LoopDepth(Substitute(s, x, r)) == LoopDepth(s)
  {
    match s
    case Block(first, rest) =>
      SubstLoopDepth(first, x, r);
      SubstLoopDepth(rest, x, r);
    case IfThenElse(_, thenCase, elseCase) =>
      SubstLoopDepth(thenCase, x, r);
      SubstLoopDepth(elseCase, x, r);
    case For(_, _, _, _, body) => SubstLoopDepth(body, x, r);
    case LetStmt(_, _, body) => SubstLoopDepth(body, x, r);
    case Allocate(_, _, body) => SubstLoopDepth(body, x, r);
    case _ =>
  }

  /** Addition with constants folded. */
  function ComputeAdd(a: Expr, b: Expr): Expr {
    if a == IntImm(0) then b
    else if b == IntImm(0) then a
    else if a.IntImm? && b.IntImm? then IntImm(a.value + b.value)
    else Bin(IntSet.Add, a, b)
  }

  lemma {:induction false} ComputeAddRight(a: Expr, i: int, env: Env, mem: map<(int, int), int>)
    ensures Eval(ComputeAdd(a, IntImm(i)), env, mem) == Eval(a, env, mem) + i
    ensures Uses(ComputeAdd(a, IntImm(i))) <= Uses(a) && (LoadFree(a) ==> LoadFree(ComputeAdd(a, IntImm(i))))
  {
  }

  /** One more iteration at the end. */
  lemma {:induction false} LoopSnoc(body: Stmt, x: nat, lo: int, n: nat, env: Env, st: State)
    ensures ExecLoop(body, x, lo, n + 1, env, st) == Exec(body, env[Scalar(x) := lo + n], ExecLoop(body, x, lo, n, env, st))
    decreases n
  {
    hide Exec;
    var st1 := Exec(body, env[Scalar(x) := lo], st);
    if n > 0 {
      LoopSnoc(body, x, lo + 1, n - 1, env, st1);
    } else {
      assert ExecLoop(body, x, lo + 1, 0, env, st1) == st1;
    }
  }

  /** s runs like n iterations of the body. */
  ghost predicate RunsLoop(s: Stmt, body: Stmt, x: nat, min: Expr, n: nat) {
    forall env: Env, st: State :: Exec(s, env, st) == ExecLoop(body, x, Eval(min, env, st.mem), n, env, st)
  }

  /** The body with min + i for the loop variable is iteration i. */
  lemma {:induction false} StepRight(body: Stmt, x: nat, min: Expr, i: nat, env: Env, st: State, lo: int)
    requires LoadFree(min) && Scalar(x) !in Binds(body) && Binds(body) !! Uses(min) && Scalar(x) !in Uses(min)
    requires Eval(min, env, st.mem) == lo
    ensures Exec(Substitute(body, x, ComputeAdd(min, IntImm(i))), env, st) == Exec(body, env[Scalar(x) := lo + i], st)
  {
    var r := ComputeAdd(min, IntImm(i));
    ComputeAddRight(min, i, env, st.mem);
    var env1 := env[Scalar(x) := lo + i];
    assert forall n: Name | n != Scalar(x) :: Val(env1, n) == Val(env, n);
    SubstituteRight(body, x, r, env1, env, st);
  }

  lemma {:induction false} FirstStep(body: Stmt, x: nat, min: Expr, n: nat)
    requires LoadFree(min) && Scalar(x) !in Binds(body) && Binds(body) !! Uses(min) && Scalar(x) !in Uses(min) && n == 1
    ensures RunsLoop(Substitute(body, x, ComputeAdd(min, IntImm(0))), body, x, min, n)
  {
    hide Exec, ExecLoop;
    var step := Substitute(body, x, ComputeAdd(min, IntImm(0)));
    forall env: Env, st: State ensures Exec(step, env, st) == ExecLoop(body, x, Eval(min, env, st.mem), n, env, st) {
      StepRight(body, x, min, 0, env, st, Eval(min, env, st.mem));
      OneIteration(body, x, Eval(min, env, st.mem), n, env, st);
    }
  }

  lemma {:induction false} OneIteration(body: Stmt, x: nat, lo: int, n: nat, env: Env, st: State)
    requires n == 1
    ensures ExecLoop(body, x, lo, n, env, st) == Exec(body, env[Scalar(x) := lo + 0], st)
  {
    hide Exec;
    assert ExecLoop(body, x, lo + 1, n - 1, env, Exec(body, env[Scalar(x) := lo], st)) == Exec(body, env[Scalar(x) := lo], st);
  }

  lemma {:induction false} NextStep(unrolled: Stmt, body: Stmt, x: nat, min: Expr, i: nat, step: Stmt)
    requires LoadFree(min) && Scalar(x) !in Binds(body) && Binds(body) !! Uses(min) && Scalar(x) !in Uses(min)
    requires RunsLoop(unrolled, body, x, min, i) && step == Substitute(body, x, ComputeAdd(min, IntImm(i)))
    ensures RunsLoop(Block(unrolled, step), body, x, min, i + 1)
  {
    forall env: Env, st: State
      ensures Exec(Block(unrolled, step), env, st) == ExecLoop(body, x, Eval(min, env, st.mem), i + 1, env, st)
    {
      var lo := Eval(min, env, st.mem);
      var st1 := Exec(unrolled, env, st);
      EvalLoadFree(min, env, st.mem, st1.mem);
      StepRight(body, x, min, i, env, st1, lo);
      LoopSnoc(body, x, lo, i, env, st);
    }
  }

  /** What every unrolled program keeps: scopes, and load-free bounds. */
  ghost predicate Kept(r: Stmt, bound: set<Name>, inScope: set<Name>, binds: set<Name>) {
    Scoped(r, bound, inScope) && LoadFreeBounds(r) && Binds(r) <= binds
  }

  ghost predicate Sound(simplify: Expr -> Expr) {
    forall e: Expr, env: Env, mem: map<(int, int), int> :: Eval(simplify(e), env, mem) == Eval(e, env, mem)
  }

  /** The extent if it is a constant, and -1 otherwise. */
  function ConstExtent(extent: Expr, simplify: Expr -> Expr): int {
    if simplify(extent).IntImm? then simplify(extent).value else -1
  }

  /** No loop is left that is marked for unrolling, nor, where that is enabled, a serial loop of a small constant extent. */
  predicate NoneLeft(s: Stmt, simplify: Expr -> Expr, maxStep: int, auto: bool) {
    match s
    case Store(_, _, _) => true
    case Evaluate(_) => true
    case Block(first, rest) => NoneLeft(first, simplify, maxStep, auto) && NoneLeft(rest, simplify, maxStep, auto)
    case IfThenElse(_, thenCase, elseCase) => NoneLeft(thenCase, simplify, maxStep, auto) && NoneLeft(elseCase, simplify, maxStep, auto)
    case For(_, _, extent, forType, body) =>
      forType != Unrolled && !(auto && forType == Serial && 0 <= ConstExtent(extent, simplify) <= maxStep) && NoneLeft(body, simplify, maxStep, auto)
    case LetStmt(_, _, body) => NoneLeft(body, simplify, maxStep, auto)
    case Allocate(_, _, body) => NoneLeft(body, simplify, maxStep, auto)
  }

  /** No loop is marked for unrolling. */
  predicate NoneMarked(s: Stmt) {
    match s
    case Store(_, _, _) => true
    case Evaluate(_) => true
    case Block(first, rest) => NoneMarked(first) && NoneMarked(rest)
    case IfThenElse(_, thenCase, elseCase) => NoneMarked(thenCase) && NoneMarked(elseCase)
    case For(_, _, _, forType, body) => forType != Unrolled && NoneMarked(body)
    case LetStmt(_, _, body) => NoneMarked(body)
    case Allocate(_, _, body) => NoneMarked(body)
  }

  lemma {:induction false} SubstMarked(s: Stmt, x: nat, r: Expr)
    ensures NoneMarked(Substitute(s, x, r)) == NoneMarked(s)
  {
    match s
    case Block(first, rest) =>
      SubstMarked(first, x, r);
      SubstMarked(rest, x, r);
    case IfThenElse(_, thenCase, elseCase) =>
      SubstMarked(thenCase, x, r);
      SubstMarked(elseCase, x, r);
    case For(_, _, _, _, body) => SubstMarked(body, x, r);
    case LetStmt(_, _, body) => SubstMarked(body, x, r);
    case Allocate(_, _, body) => SubstMarked(body, x, r);
    case _ =>
  }

  lemma {:induction false} SameRunsBlock(first: Stmt, rest: Stmt, first1: Stmt, rest1: Stmt)
    requires SameRuns(first, first1) && SameRuns(rest, rest1)
    ensures SameRuns(Block(first, rest), Block(first1, rest1))
  {
  }

  lemma {:induction false} SameRunsIf(cond: Expr, thenCase: Stmt, elseCase: Stmt, then1: Stmt, else1: Stmt)
    requires SameRuns(thenCase, then1) && SameRuns(elseCase, else1)
    ensures SameRuns(IfThenElse(cond, thenCase, elseCase), IfThenElse(cond, then1, else1))
  {
  }

  lemma {:induction false} SameRunsBody(x: nat, e: Expr, body: Stmt, body1: Stmt)
    requires SameRuns(body, body1)
    ensures SameRuns(LetStmt(x, e, body), LetStmt(x, e, body1)) && SameRuns(Allocate(x, e, body), Allocate(x, e, body1))
  {
  }

  lemma {:induction false} SameRunsLoop(body: Stmt, body1: Stmt, x: nat, lo: int, n: nat, env: Env, st: State)
    requires SameRuns(body, body1)
    ensures ExecLoop(body, x, lo, n, env, st) == ExecLoop(body1, x, lo, n, env, st)
    decreases n
  {
    if n > 0 {
      SameRunsLoop(body, body1, x, lo + 1, n - 1, env, Exec(body, env[Scalar(x) := lo], st));
    }
  }

  lemma {:induction false} SameRunsFor(s: Stmt, body1: Stmt, forType: ForType)
    requires s.For? && SameRuns(s.body, body1) && (forType == s.forType || (s.forType == Serial && forType == Unrolled))
    ensures SameRuns(s, For(s.x, s.min, s.extent, forType, body1))
  {
    forall env: Env, st: State ensures Exec(s, env, st) == Exec(For(s.x, s.min, s.extent, forType, body1), env, st) {
      var lo, n := Eval(s.min, env, st.mem), Iterations(Eval(s.extent, env, st.mem));
      SameRunsLoop(s.body, body1, s.x, lo, n, env, Show(st, Opening(forType, lo, n)));
    }
  }

  lemma {:induction false} ConstLoop(s: Stmt, simplify: Expr -> Expr, n: nat, r: Stmt)
    requires s.For? && s.forType in {Serial, Unrolled} && Sound(simplify) && ConstExtent(s.extent, simplify) == n
    requires if n == 0 then r == Evaluate(IntImm(0)) else RunsLoop(r, s.body, s.x, s.min, n)
    ensures SameRuns(s, r)
  {
    forall env: Env, st: State ensures Exec(s, env, st) == Exec(r, env, st) {
      assert Eval(simplify(s.extent), env, st.mem) == Eval(s.extent, env, st.mem);
    }
  }

  lemma {:induction false} SameRunsTrans(s: Stmt, t: Stmt, r: Stmt)
    requires SameRuns(s, t) && SameRuns(t, r)
    ensures SameRuns(s, r)
  {
  }

  /** The start of a loop uses nothing that its body binds. */
  lemma {:induction false} MinApart(s: Stmt, bound: set<Name>, inScope: set<Name>)
    requires s.For? && Scoped(s, bound, inScope)
    ensures Scalar(s.x) !in Binds(s.body) && Binds(s.body) !! Uses(s.min) && Scalar(s.x) !in Uses(s.min)
  {
    BindsOutOfScope(s.body, bound, inScope + {Scalar(s.x)});
    forall n | n in Uses(s.min) && n in bound ensures n in inScope {
      assert n in Uses(s.min) * bound;
    }
  }

  lemma {:induction false} StepKept(s: Stmt, bound: set<Name>, inScope: set<Name>, i: nat)
    requires s.For? && Scoped(s, bound, inScope) && LoadFreeBounds(s)
    ensures Kept(Substitute(s.body, s.x, ComputeAdd(s.min, IntImm(i))), bound, inScope, Binds(s.body))
  {
    var r := ComputeAdd(s.min, IntImm(i));
    ComputeAddRight(s.min, i, map[], map[]);
    assert Uses(r) * bound <= Uses(s.min) * bound;
    SubstScoped(s.body, s.x, r, bound, inScope);
    SubstLoadFree(s.body, s.x, r);
  }

  // ----- what the unroller computes -----

  datatype Settings = Settings(autoMaxStep: int, autoMinDepth: int, explicitUnroll: bool, simplify: Expr -> Expr)

  /** The body n times, with min, min + 1, ... for the loop variable. */
  function CopiesOf(body: Stmt, x: nat, min: Expr, n: nat): (r: Stmt)
    requires n > 0
    ensures LoopDepth(r) == LoopDepth(body)
    decreases n
  {
    SubstLoopDepth(body, x, ComputeAdd(min, IntImm(n - 1)));
    var last := Substitute(body, x, ComputeAdd(min, IntImm(n - 1)));
    if n == 1 then last else Block(CopiesOf(body, x, min, n - 1), last)
  }

  /** A serial loop of a small constant extent that is deep enough. */
  predicate AutoUnroll(s: Stmt, depth: int, c: Settings)
    requires s.For?
  {
    s.forType == Serial && 0 <= ConstExtent(s.extent, c.simplify) <= c.autoMaxStep && depth >= c.autoMinDepth
  }

  /** s inside depth loops; None if a loop marked for unrolling has no constant extent. */
  function Unrolling(s: Stmt, depth: int, c: Settings): Option<Stmt>
    decreases LoopDepth(s), s
  {
    match s
    case Block(first, rest) =>
      var r1 := Unrolling(first, depth, c);
      var r2 := Unrolling(rest, depth, c);
      if r1.Some? && r2.Some? then Some(Block(r1.value, r2.value)) else None
    case IfThenElse(cond, thenCase, elseCase) =>
      var r1 := Unrolling(thenCase, depth, c);
      var r2 := Unrolling(elseCase, depth, c);
      if r1.Some? && r2.Some? then Some(IfThenElse(cond, r1.value, r2.value)) else None
    case LetStmt(x, value, body) =>
      var r := Unrolling(body, depth, c);
      if r.Some? then Some(LetStmt(x, value, r.value)) else None
    case Allocate(b, size, body) =>
      var r := Unrolling(body, depth, c);
      if r.Some? then Some(Allocate(b, size, r.value)) else None
    case For(x, min, extent, forType, body) =>
      var n, auto := ConstExtent(extent, c.simplify), AutoUnroll(s, depth, c);
      if forType == Unrolled && n < 0 then None
      else if (auto || forType == Unrolled) && c.explicitUnroll then
        if n == 0 then Some(Evaluate(IntImm(0))) else Unrolling(CopiesOf(body, x, min, n), depth + 1, c)
      else
        var r := Unrolling(body, depth + 1, c);
        if r.Some? then Some(For(x, min, extent, if auto then Unrolled else forType, r.value)) else None
    case _ => Some(s)
  }

  // ----- what is left alone -----

  /** Loops marked for unrolling stay where unrolling is not explicit, and no serial loop of a constant extent up to the limit is as deep as
      the least depth. */
  predicate Untouched(s: Stmt, depth: int, c: Settings) {
    match s
    case Store(_, _, _) => true
    case Evaluate(_) => true
    case Block(first, rest) => Untouched(first, depth, c) && Untouched(rest, depth, c)
    case IfThenElse(_, thenCase, elseCase) => Untouched(thenCase, depth, c) && Untouched(elseCase, depth, c)
    case LetStmt(_, _, body) => Untouched(body, depth, c)
    case Allocate(_, _, body) => Untouched(body, depth, c)
    case For(_, _, extent, forType, body) =>
      var n := ConstExtent(extent, c.simplify);
      && (forType == Unrolled ==> !c.explicitUnroll && n >= 0)
      && (forType == Serial && n >= 0 && depth >= c.autoMinDepth ==> n > c.autoMaxStep)
      && Untouched(body, depth + 1, c)
  }

  lemma {:induction false} NotDeeper(s: Stmt, depth: int, c: Settings)
    requires Unrolling(s, depth, c).Some?
    ensures LoopDepth(Unrolling(s, depth, c).value) <= LoopDepth(s)
    decreases LoopDepth(s), s
  {
    match s
    case Block(first, rest) =>
      NotDeeper(first, depth, c);
      NotDeeper(rest, depth, c);
    case IfThenElse(_, thenCase, elseCase) =>
      NotDeeper(thenCase, depth, c);
      NotDeeper(elseCase, depth, c);
    case LetStmt(_, _, body) => NotDeeper(body, depth, c);
    case Allocate(_, _, body) => NotDeeper(body, depth, c);
    case For(x, min, extent, forType, body) =>
      var n := ConstExtent(extent, c.simplify);
      if (AutoUnroll(s, depth, c) || forType == Unrolled) && c.explicitUnroll {
        if n > 0 {
          NotDeeper(CopiesOf(body, x, min, n), depth + 1, c);
        }
      } else {
        NotDeeper(body, depth + 1, c);
      }
    case _ =>
  }

  /** A program comes back as it was exactly if there is nothing to unroll or to mark. */
  lemma {:induction false} UntouchedIff(s: Stmt, depth: int, c: Settings)
    ensures Unrolling(s, depth, c) == Some(s) <==> Untouched(s, depth, c)
    decreases s
  {
    match s
    case Block(first, rest) =>
      UntouchedIff(first, depth, c);
      UntouchedIff(rest, depth, c);
    case IfThenElse(_, thenCase, elseCase) =>
      UntouchedIff(thenCase, depth, c);
      UntouchedIff(elseCase, depth, c);
    case LetStmt(_, _, body) => UntouchedIff(body, depth, c);
    case Allocate(_, _, body) => UntouchedIff(body, depth, c);
    case For(x, min, extent, forType, body) =>
      UntouchedIff(body, depth + 1, c);
      var n := ConstExtent(extent, c.simplify);
      if n > 0 && Unrolling(CopiesOf(body, x, min, n), depth + 1, c).Some? {
        NotDeeper(CopiesOf(body, x, min, n), depth + 1, c);
      }
    case _ =>
  }

  // ----- when there is a result -----

  /** Every loop that is marked for unrolling has a literal extent that is not negative. */
  predicate MarkedLiteral(s: Stmt) {
    match s
    case Store(_, _, _) => true
    case Evaluate(_) => true
    case Block(first, rest) => MarkedLiteral(first) && MarkedLiteral(rest)
    case IfThenElse(_, thenCase, elseCase) => MarkedLiteral(thenCase) && MarkedLiteral(elseCase)
    case For(_, _, extent, forType, body) => (forType == Unrolled ==> extent.IntImm? && extent.value >= 0) && MarkedLiteral(body)
    case LetStmt(_, _, body) => MarkedLiteral(body)
    case Allocate(_, _, body) => MarkedLiteral(body)
  }

  ghost predicate LiteralsKept(simplify: Expr -> Expr) {
    forall v: int :: simplify(IntImm(v)) == IntImm(v)
  }

  lemma {:induction false} SubstLiteral(s: Stmt, x: nat, r: Expr)
    requires MarkedLiteral(s)
    ensures MarkedLiteral(Substitute(s, x, r))
  {
    match s
    case Block(first, rest) =>
      SubstLiteral(first, x, r);
      SubstLiteral(rest, x, r);
    case IfThenElse(_, thenCase, elseCase) =>
      SubstLiteral(thenCase, x, r);
      SubstLiteral(elseCase, x, r);
    case For(_, _, _, _, body) => SubstLiteral(body, x, r);
    case LetStmt(_, _, body) => SubstLiteral(body, x, r);
    case Allocate(_, _, body) => SubstLiteral(body, x, r);
    case _ =>
  }

  lemma {:induction false} CopiesLiteral(body: Stmt, x: nat, min: Expr, n: nat)
    requires n > 0 && MarkedLiteral(body)
    ensures MarkedLiteral(CopiesOf(body, x, min, n))
    decreases n
  {
    SubstLiteral(body, x, ComputeAdd(min, IntImm(n - 1)));
    if n > 1 {
      CopiesLiteral(body, x, min, n - 1);
    }
  }

  /** Then there is a result, whatever the other loops are. */
  lemma {:induction false} LiteralGives(s: Stmt, depth: int, c: Settings)
    requires MarkedLiteral(s) && LiteralsKept(c.simplify)
    ensures Unrolling(s, depth, c).Some?
    decreases LoopDepth(s), s
  {
    match s
    case Block(first, rest) =>
      LiteralGives(first, depth, c);
      LiteralGives(rest, depth, c);
    case IfThenElse(_, thenCase, elseCase) =>
      LiteralGives(thenCase, depth, c);
      LiteralGives(elseCase, depth, c);
    case For(x, min, extent, forType, body) =>
      LiteralGives(body, depth + 1, c);
      var n := ConstExtent(extent, c.simplify);
      if n > 0 {
        CopiesLiteral(body, x, min, n);
        LiteralGives(CopiesOf(body, x, min, n), depth + 1, c);
      }
    case LetStmt(_, _, body) => LiteralGives(body, depth, c);
    case Allocate(_, _, body) => LiteralGives(body, depth, c);
    case _ =>
  }

  /** No extent uses a variable of xs or of a loop around it. */
  predicate FixedExtents(s: Stmt, xs: set<Name>) {
    match s
    case Store(_, _, _) => true
    case Evaluate(_) => true
    case Block(first, rest) => FixedExtents(first, xs) && FixedExtents(rest, xs)
    case IfThenElse(_, thenCase, elseCase) => FixedExtents(thenCase, xs) && FixedExtents(elseCase, xs)
    case For(x, _, extent, _, body) => Uses(extent) !! xs && FixedExtents(body, xs + {Scalar(x)})
    case LetStmt(_, _, body) => FixedExtents(body, xs)
    case Allocate(_, _, body) => FixedExtents(body, xs)
  }

  /** Every loop that is marked for unrolling has a constant extent, besides those inside a loop that is unrolled no times. */
  predicate MarkedConstant(s: Stmt, depth: int, c: Settings) {
    match s
    case Store(_, _, _) => true
    case Evaluate(_) => true
    case Block(first, rest) => MarkedConstant(first, depth, c) && MarkedConstant(rest, depth, c)
    case IfThenElse(_, thenCase, elseCase) => MarkedConstant(thenCase, depth, c) && MarkedConstant(elseCase, depth, c)
    case For(_, _, extent, forType, body) =>
      && (forType == Unrolled ==> ConstExtent(extent, c.simplify) >= 0)
      && (((AutoUnroll(s, depth, c) || forType == Unrolled) && c.explicitUnroll && ConstExtent(extent, c.simplify) == 0) ||
          MarkedConstant(body, depth + 1, c))
    case LetStmt(_, _, body) => MarkedConstant(body, depth, c)
    case Allocate(_, _, body) => MarkedConstant(body, depth, c)
  }

  lemma {:induction false} SubstUnused(e: Expr, x: nat, r: Expr)
    requires Scalar(x) !in Uses(e)
    ensures SubstExpr(e, x, r) == e
  {
    match e
    case Load(_, index) => SubstUnused(index, x, r);
    case Bin(_, a, b) =>
      SubstUnused(a, x, r);
      SubstUnused(b, x, r);
    case _ =>
  }

  lemma {:induction false} SubstFixed(s: Stmt, x: nat, r: Expr, xs: set<Name>, depth: int, c: Settings)
    requires FixedExtents(s, xs) && Scalar(x) in xs
    ensures FixedExtents(Substitute(s, x, r), xs) && MarkedConstant(Substitute(s, x, r), depth, c) == MarkedConstant(s, depth, c)
  {
    match s
    case Block(first, rest) =>
      SubstFixed(first, x, r, xs, depth, c);
      SubstFixed(rest, x, r, xs, depth, c);
    case IfThenElse(_, thenCase, elseCase) =>
      SubstFixed(thenCase, x, r, xs, depth, c);
      SubstFixed(elseCase, x, r, xs, depth, c);
    case For(y, _, extent, _, body) =>
      SubstFixed(body, x, r, xs + {Scalar(y)}, depth + 1, c);
      SubstUnused(extent, x, r);
    case LetStmt(_, _, body) => SubstFixed(body, x, r, xs, depth, c);
    case Allocate(_, _, body) => SubstFixed(body, x, r, xs, depth, c);
    case _ =>
  }

  lemma {:induction false} CopiesFixed(body: Stmt, x: nat, min: Expr, n: nat, xs: set<Name>, depth: int, c: Settings)
    requires n > 0 && FixedExtents(body, xs) && Scalar(x) in xs
    ensures FixedExtents(CopiesOf(body, x, min, n), xs)
    ensures MarkedConstant(CopiesOf(body, x, min, n), depth, c) == MarkedConstant(body, depth, c)
    decreases n
  {
    SubstFixed(body, x, ComputeAdd(min, IntImm(n - 1)), xs, depth, c);
    if n > 1 {
      CopiesFixed(body, x, min, n - 1, xs, depth, c);
    }
  }

  /** If no extent depends on a loop variable, there is a result exactly if all marked loops have constant extents, besides those
      that vanish. */
  lemma {:induction false} FixedGivesIff(s: Stmt, depth: int, c: Settings, xs: set<Name>)
    requires FixedExtents(s, xs)
    ensures Unrolling(s, depth, c).Some? <==> MarkedConstant(s, depth, c)
    decreases LoopDepth(s), s
  {
    match s
    case Block(first, rest) =>
      FixedGivesIff(first, depth, c, xs);
      FixedGivesIff(rest, depth, c, xs);
    case IfThenElse(_, thenCase, elseCase) =>
      FixedGivesIff(thenCase, depth, c, xs);
      FixedGivesIff(elseCase, depth, c, xs);
    case For(x, min, extent, forType, body) =>
      FixedGivesIff(body, depth + 1, c, xs + {Scalar(x)});
      var n := ConstExtent(extent, c.simplify);
      if n > 0 {
        CopiesFixed(body, x, min, n, xs + {Scalar(x)}, depth + 1, c);
        FixedGivesIff(CopiesOf(body, x, min, n), depth + 1, c, xs + {Scalar(x)});
      }
    case LetStmt(_, _, body) => FixedGivesIff(body, depth, c, xs);
    case Allocate(_, _, body) => FixedGivesIff(body, depth, c, xs);
    case _ =>
  }

  lemma {:induction false} UnmarkedGives(s: Stmt, depth: int, c: Settings)
    requires NoneMarked(s)
    ensures Unrolling(s, depth, c).Some?
    decreases LoopDepth(s), s
  {
    match s
    case Block(first, rest) =>
      UnmarkedGives(first, depth, c);
      UnmarkedGives(rest, depth, c);
    case IfThenElse(_, thenCase, elseCase) =>
      UnmarkedGives(thenCase, depth, c);
      UnmarkedGives(elseCase, depth, c);
    case For(x, min, extent, forType, body) =>
      UnmarkedGives(body, depth + 1, c);
      var n := ConstExtent(extent, c.simplify);
      if n > 0 {
        CopiesMarked(body, x, min, n);
        UnmarkedGives(CopiesOf(body, x, min, n), depth + 1, c);
      }
    case LetStmt(_, _, body) => UnmarkedGives(body, depth, c);
    case Allocate(_, _, body) => UnmarkedGives(body, depth, c);
    case _ =>
  }

  lemma {:induction false} CopiesMarked(body: Stmt, x: nat, min: Expr, n: nat)
    requires n > 0
    ensures NoneMarked(CopiesOf(body, x, min, n)) == NoneMarked(body)
    decreases n
  {
    SubstMarked(body, x, ComputeAdd(min, IntImm(n - 1)));
    if n > 1 {
      CopiesMarked(body, x, min, n - 1);
    }
  }

  class LoopUnroller {
    const autoMaxStep: int
    const autoMinDepth: int
    const explicitUnroll: bool
    const simplify: Expr -> Expr
    var loopDepth: int

    constructor (autoMaxStep: int, autoMinDepth: int, explicitUnroll: bool, simplify: Expr -> Expr)
      ensures this.autoMaxStep == autoMaxStep && this.autoMinDepth == autoMinDepth
      ensures this.explicitUnroll == explicitUnroll && this.simplify == simplify && loopDepth == 0
    {
      this.autoMaxStep, this.autoMinDepth, this.explicitUnroll, this.simplify, loopDepth := autoMaxStep, autoMinDepth, explicitUnroll, simplify, 0;
    }

    function Given(): (c: Settings) {
      Settings(autoMaxStep, autoMinDepth, explicitUnroll, simplify)
    }

    /** The copies of the body, one after the other. */
    method Copies(s: Stmt, n: nat, ghost bound: set<Name>, ghost inScope: set<Name>) returns (unrolled: Stmt)
      requires s.For? && Scoped(s, bound, inScope) && LoadFreeBounds(s) && n > 0
      ensures unrolled == CopiesOf(s.body, s.x, s.min, n)
      ensures RunsLoop(unrolled, s.body, s.x, s.min, n) && Kept(unrolled, bound, inScope, Binds(s.body)) && LoopDepth(unrolled) == LoopDepth(s.body)
    {
      hide Scoped, LoadFreeBounds, RunsLoop;
      MinApart(s, bound, inScope);
      StartLoadFree(s);
      unrolled := Substitute(s.body, s.x, ComputeAdd(s.min, IntImm(0)));
      StepKept(s, bound, inScope, 0);
      SubstLoopDepth(s.body, s.x, ComputeAdd(s.min, IntImm(0)));
      FirstStep(s.body, s.x, s.min, 1);
      for i := 1 to n
        invariant RunsLoop(unrolled, s.body, s.x, s.min, i) && Kept(unrolled, bound, inScope, Binds(s.body)) && LoopDepth(unrolled) == LoopDepth(s.body)
        invariant unrolled == CopiesOf(s.body, s.x, s.min, i)
      {
        var step := Substitute(s.body, s.x, ComputeAdd(s.min, IntImm(i)));
        StepKept(s, bound, inScope, i);
        SubstLoopDepth(s.body, s.x, ComputeAdd(s.min, IntImm(i)));
        NextStep(unrolled, s.body, s.x, s.min, i, step);
        KeptBlock(unrolled, step, bound, inScope, Binds(s.body));
        unrolled := Block(unrolled, step);
      }
    }

    /** Unrolls; fails when a loop that is marked for unrolling has no constant extent. */
    method Mutate(s: Stmt, ghost bound: set<Name>, ghost inScope: set<Name>) returns (ok: bool, r: Stmt)
      requires Scoped(s, bound, inScope) && LoadFreeBounds(s) && Sound(simplify)
      modifies `loopDepth
      ensures loopDepth == old(loopDepth) && (ok <==> Unrolling(s, old(loopDepth), Given()).Some?)
      ensures ok ==> Some(r) == Unrolling(s, old(loopDepth), Given())
      ensures ok ==> SameRuns(s, r) && Kept(r, bound, inScope, Binds(s))
      ensures ok && explicitUnroll ==> NoneLeft(r, simplify, autoMaxStep, loopDepth >= autoMinDepth)
      decreases LoopDepth(s), s, 1
    {
      hide SameRuns, Sound;
      r := s;
      match s
      case Block(first, rest) =>
        var r1, r2;
        ok, r1 := Mutate(first, bound, inScope);
        if !ok {
          return;
        }
        ok, r2 := Mutate(rest, bound, inScope);
        r := Block(r1, r2);
        if ok {
          SameRunsBlock(first, rest, r1, r2);
        }
      case IfThenElse(cond, thenCase, elseCase) =>
        var r1, r2;
        ok, r1 := Mutate(thenCase, bound, inScope);
        if !ok {
          return;
        }
        ok, r2 := Mutate(elseCase, bound, inScope);
        r := IfThenElse(cond, r1, r2);
        if ok {
          SameRunsIf(cond, thenCase, elseCase, r1, r2);
        }
      case LetStmt(x, value, body) =>
        var r1;
        ok, r1 := Mutate(body, bound, inScope + {Scalar(x)});
        r := LetStmt(x, value, r1);
        if ok {
          SameRunsBody(x, value, body, r1);
        }
      case Allocate(b, size, body) =>
        var r1;
        ok, r1 := Mutate(body, bound, inScope + {Handle(b)});
        r := Allocate(b, size, r1);
        if ok {
          SameRunsBody(b, size, body, r1);
        }
      case For(_, _, _, _, _) => ok, r := MutateFor(s, bound, inScope);
      case _ =>
        SameRunsSelf(s);
        ok := true;
    }

    method MutateFor(s: Stmt, ghost bound: set<Name>, ghost inScope: set<Name>) returns (ok: bool, r: Stmt)
      requires s.For? && Scoped(s, bound, inScope) && LoadFreeBounds(s) && Sound(simplify)
      modifies `loopDepth
      ensures loopDepth == old(loopDepth) && (ok <==> Unrolling(s, old(loopDepth), Given()).Some?)
      ensures ok ==> Some(r) == Unrolling(s, old(loopDepth), Given())
      ensures ok ==> SameRuns(s, r) && Kept(r, bound, inScope, Binds(s))
      ensures ok && explicitUnroll ==> NoneLeft(r, simplify, autoMaxStep, loopDepth >= autoMinDepth)
      decreases LoopDepth(s), s, 0
    {
      hide SameRuns, Sound;
      r := s;
      var value := ConstExtent(s.extent, simplify);
      var autoUnroll := s.forType == Serial && value >= 0 && value <= autoMaxStep && loopDepth >= autoMinDepth;
      if s.forType == Unrolled {
        if value < 0 {
          return false, s;
        }
        autoUnroll := true;
      }
      if autoUnroll && explicitUnroll {
        if value == 0 {
          ConstLoop(s, simplify, 0, Evaluate(IntImm(0)));
          return true, Evaluate(IntImm(0));
        }
        var unrolled := Copies(s, value, bound, inScope);
        ConstLoop(s, simplify, value, unrolled);
        loopDepth := loopDepth + 1;
        ok, r := Mutate(unrolled, bound, inScope);
        loopDepth := loopDepth - 1;
        if ok {
          SameRunsTrans(s, unrolled, r);
          NoneLeftLess(r, simplify, autoMaxStep, loopDepth + 1 >= autoMinDepth, loopDepth >= autoMinDepth);
        }
      } else {
        loopDepth := loopDepth + 1;
        var body;
        ok, body := Mutate(s.body, bound, inScope + {Scalar(s.x)});
        var forType := if autoUnroll then Unrolled else s.forType;
        r := For(s.x, s.min, s.extent, forType, body);
        loopDepth := loopDepth - 1;
        if ok {
          SameRunsFor(s, body, forType);
          NoneLeftLess(body, simplify, autoMaxStep, loopDepth + 1 >= autoMinDepth, loopDepth >= autoMinDepth);
        }
      }
    }
  }

  lemma {:induction false} StartLoadFree(s: Stmt)
    requires s.For? && LoadFreeBounds(s)
    ensures LoadFree(s.min)
  {
  }

  lemma {:induction false} SameRunsSelf(s: Stmt)
    ensures SameRuns(s, s)
  {
  }

  lemma {:induction false} KeptBlock(first: Stmt, rest: Stmt, bound: set<Name>, inScope: set<Name>, binds: set<Name>)
    requires Kept(first, bound, inScope, binds) && Kept(rest, bound, inScope, binds)
    ensures Kept(Block(first, rest), bound, inScope, binds)
  {
  }

  /** With automatic unrolling for more loops, no more are left. */
  lemma {:induction false} NoneLeftLess(s: Stmt, simplify: Expr -> Expr, maxStep: int, auto: bool, auto1: bool)
    ensures NoneLeft(s, simplify, maxStep, auto) && (auto1 ==> auto) ==> NoneLeft(s, simplify, maxStep, auto1)
  {
    match s
    case Block(first, rest) =>
      NoneLeftLess(first, simplify, maxStep, auto, auto1);
      NoneLeftLess(rest, simplify, maxStep, auto, auto1);
    case IfThenElse(_, thenCase, elseCase) =>
      NoneLeftLess(thenCase, simplify, maxStep, auto, auto1);
      NoneLeftLess(elseCase, simplify, maxStep, auto, auto1);
    case For(_, _, _, _, body) => NoneLeftLess(body, simplify, maxStep, auto, auto1);
    case LetStmt(_, _, body) => NoneLeftLess(body, simplify, maxStep, auto, auto1);
    case Allocate(_, _, body) => NoneLeftLess(body, simplify, maxStep, auto, auto1);
    case _ =>
  }
}
