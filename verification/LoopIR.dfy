/** A statement IR with scoped variables, its meaning as what a run shows, and substitution. */
module LoopIR {
  import IntSet

  /** Buffers and scalars are different variables. */
  datatype Name = Scalar(id: nat) | Handle(id: nat)

  datatype Expr =
    | IntImm(value: int)
    | Var(x: nat)
    | Load(buffer: nat, index: Expr)
    | Bin(op: IntSet.Op, a: Expr, b: Expr)

  datatype ForType = Serial | Parallel | Vectorized | Unrolled

  datatype Stmt =
    | Store(buffer: nat, value: Expr, index: Expr)
    | Evaluate(e: Expr)
    | Block(first: Stmt, rest: Stmt)
    | IfThenElse(cond: Expr, thenCase: Stmt, elseCase: Stmt)
    | LetStmt(x: nat, value: Expr, body: Stmt)
    | For(x: nat, min: Expr, extent: Expr, forType: ForType, body: Stmt)
    | Allocate(buffer: nat, size: Expr, body: Stmt)

  // ----- meaning -----

  /** Values of the scalars, and the memory blocks of the buffers. */
  type Env = map<Name, int>

  /** What a run shows: stores, allocations with their sizes, evaluations, and the ends of loops whose iterations need not run in
      order. */
  datatype Event =
    | Stored(block: int, index: int, value: int)
    | Allocated(block: int, size: int)
    | Evaluated(value: int)
    | Begun(forType: ForType, lo: int, n: nat)
    | Ended(forType: ForType)

  /** Memory, the number of blocks allocated so far, and what was shown so far. */
  datatype State = State(mem: map<(int, int), int>, blocks: int, shown: seq<Event>)

  function Show(st: State, events: seq<Event>): State {
    if events == [] then st else st.(shown := st.shown + events)
  }

  /** Serial and unrolled loops only show what their iterations do. */
  function Opening(t: ForType, lo: int, n: nat): seq<Event> {
    if t == Serial || t == Unrolled then [] else [Begun(t, lo, n)]
  }

  function Closing(t: ForType): seq<Event> {
    if t == Serial || t == Unrolled then [] else [Ended(t)]
  }

  function Val(env: Env, n: Name): int {
    if n in env then env[n] else 0
  }

  function Eval(e: Expr, env: Env, mem: map<(int, int), int>): int {
    match e
    case IntImm(v) => v
    case Var(x) => Val(env, Scalar(x))
    case Load(b, index) =>
      var cell := (Val(env, Handle(b)), Eval(index, env, mem));
      if cell in mem then mem[cell] else 0
    case Bin(op, a, b) => IntSet.Apply(op, Eval(a, env, mem), Eval(b, env, mem))
  }

  /** Every allocation gives its buffer a new block. Iterations run in order. Evaluating to 0 is how the code writes a statement that does
      nothing, and shows nothing. */
  function Exec(s: Stmt, env: Env, st: State): State
    decreases s, 0
  {
    match s
    case Store(b, value, index) =>
      var block, i, v := Val(env, Handle(b)), Eval(index, env, st.mem), Eval(value, env, st.mem);
      State(st.mem[(block, i) := v], st.blocks, st.shown + [Stored(block, i, v)])
    case Evaluate(e) =>
      var v := Eval(e, env, st.mem);
      Show(st, if v == 0 then [] else [Evaluated(v)])
    case Block(first, rest) => Exec(rest, env, Exec(first, env, st))
    case IfThenElse(cond, thenCase, elseCase) =>
      if Eval(cond, env, st.mem) != 0 then Exec(thenCase, env, st) else Exec(elseCase, env, st)
    case LetStmt(x, value, body) => Exec(body, env[Scalar(x) := Eval(value, env, st.mem)], st)
    case For(x, min, extent, t, body) =>
      var lo, n := Eval(min, env, st.mem), Iterations(Eval(extent, env, st.mem));
      Show(ExecLoop(body, x, lo, n, env, Show(st, Opening(t, lo, n))), Closing(t))
    case Allocate(b, size, body) =>
      var shown := [Allocated(st.blocks, Eval(size, env, st.mem))];
      Exec(body, env[Handle(b) := st.blocks], Show(st.(blocks := st.blocks + 1), shown))
  }

  function Iterations(extent: int): nat {
    if extent < 0 then 0 else extent
  }

  /** n iterations, the loop variable counting up from lo. */
  function ExecLoop(body: Stmt, x: nat, lo: int, n: nat, env: Env, st: State): State
    decreases body, n + 1
  {
    if n == 0 then st
    else ExecLoop(body, x, lo + 1, n - 1, env, Exec(body, env[Scalar(x) := lo], st))
  }

  /** From every start, the same memory, and the same shown: stores in the same order to the same blocks, allocations of the same sizes,
      evaluations, and parallel and vectorised loops. */
  ghost predicate SameRuns(s: Stmt, r: Stmt) {
    forall env: Env, st: State :: Exec(s, env, st) == Exec(r, env, st)
  }

  // ----- binders and scopes -----

  /** The variables that s binds. */
  function Binds(s: Stmt): set<Name> {
    match s
    case Store(_, _, _) => {}
    case Evaluate(_) => {}
    case Block(first, rest) => Binds(first) + Binds(rest)
    case IfThenElse(_, thenCase, elseCase) => Binds(thenCase) + Binds(elseCase)
    case Allocate(b, _, body) => {Handle(b)} + Binds(body)
    case _ => {Scalar(s.x)} + Binds(s.body)
  }

  /** Static single assignment: no variable is bound twice. */
  predicate Unique(s: Stmt) {
    match s
    case Store(_, _, _) => true
    case Evaluate(_) => true
    case Block(first, rest) => Unique(first) && Unique(rest) && Binds(first) !! Binds(rest)
    case IfThenElse(_, thenCase, elseCase) => Unique(thenCase) && Unique(elseCase) && Binds(thenCase) !! Binds(elseCase)
    case Allocate(b, _, body) => Unique(body) && Handle(b) !in Binds(body)
    case _ => Unique(s.body) && Scalar(s.x) !in Binds(s.body)
  }

  /** The variables that e uses. */
  function Uses(e: Expr): set<Name> {
    match e
    case IntImm(_) => {}
    case Var(x) => {Scalar(x)}
    case Load(b, index) => {Handle(b)} + Uses(index)
    case Bin(_, a, b) => Uses(a) + Uses(b)
  }

  /** Variables of bound are only used in scope. */
  predicate Visible(e: Expr, bound: set<Name>, inScope: set<Name>) {
    Uses(e) * bound <= inScope
  }

  /** Variables of bound, which holds all that s binds, are only used in scope, and never bound inside their own scope. */
  predicate Scoped(s: Stmt, bound: set<Name>, inScope: set<Name>) {
    match s
    case Store(b, value, index) =>
      Visible(value, bound, inScope) && Visible(index, bound, inScope) && (Handle(b) in bound ==> Handle(b) in inScope)
    case Evaluate(e) => Visible(e, bound, inScope)
    case Block(first, rest) => Scoped(first, bound, inScope) && Scoped(rest, bound, inScope)
    case IfThenElse(cond, thenCase, elseCase) =>
      Visible(cond, bound, inScope) && Scoped(thenCase, bound, inScope) && Scoped(elseCase, bound, inScope)
    case LetStmt(x, value, body) =>
      Visible(value, bound, inScope) && Scalar(x) in bound && Scalar(x) !in inScope && Scoped(body, bound, inScope + {Scalar(x)})
    case For(x, min, extent, _, body) =>
      Visible(min, bound, inScope) && Visible(extent, bound, inScope) && Scalar(x) in bound && Scalar(x) !in inScope &&
      Scoped(body, bound, inScope + {Scalar(x)})
    case Allocate(b, size, body) =>
      Visible(size, bound, inScope) && Handle(b) in bound && Handle(b) !in inScope && Scoped(body, bound, inScope + {Handle(b)})
  }

  // ----- the same up to names -----

  /** The binders around two programs, in pairs, from the outside in. */
  type Pairing = seq<(Name, Name)>

  /** Both variables are bound by the same pair, or by none of the binders, and then are the same. */
  predicate Paired(m: Name, n: Name, p: Pairing) {
    if p == [] then m == n
    else
      var pair := p[|p| - 1];
      if pair.0 == m || pair.1 == n then pair == (m, n) else Paired(m, n, p[..|p| - 1])
  }

  predicate AlphaExpr(e: Expr, r: Expr, p: Pairing) {
    match e
    case IntImm(_) => r == e
    case Var(x) => r.Var? && Paired(Scalar(x), Scalar(r.x), p)
    case Load(b, index) => r.Load? && Paired(Handle(b), Handle(r.buffer), p) && AlphaExpr(index, r.index, p)
    case Bin(op, a, b) => r.Bin? && r.op == op && AlphaExpr(a, r.a, p) && AlphaExpr(b, r.b, p)
  }

  /** The same programs up to the names of the variables that they bind. */
  predicate Alpha(s: Stmt, r: Stmt, p: Pairing) {
    match s
    case Store(b, value, index) =>
      r.Store? && Paired(Handle(b), Handle(r.buffer), p) && AlphaExpr(value, r.value, p) && AlphaExpr(index, r.index, p)
    case Evaluate(e) => r.Evaluate? && AlphaExpr(e, r.e, p)
    case Block(first, rest) => r.Block? && Alpha(first, r.first, p) && Alpha(rest, r.rest, p)
    case IfThenElse(cond, thenCase, elseCase) =>
      r.IfThenElse? && AlphaExpr(cond, r.cond, p) && Alpha(thenCase, r.thenCase, p) && Alpha(elseCase, r.elseCase, p)
    case LetStmt(x, value, body) => r.LetStmt? && AlphaExpr(value, r.value, p) && Alpha(body, r.body, p + [(Scalar(x), Scalar(r.x))])
    case For(x, min, extent, t, body) =>
      && r.For? && r.forType == t && AlphaExpr(min, r.min, p) && AlphaExpr(extent, r.extent, p)
      && Alpha(body, r.body, p + [(Scalar(x), Scalar(r.x))])
    case Allocate(b, size, body) => r.Allocate? && AlphaExpr(size, r.size, p) && Alpha(body, r.body, p + [(Handle(b), Handle(r.buffer))])
  }

  ghost predicate Agree(env: Env, env1: Env, p: Pairing) {
    forall m: Name, n: Name | Paired(m, n, p) :: Val(env, m) == Val(env1, n)
  }

  lemma {:induction false} PairedInside(m: Name, n: Name, p: Pairing, pair: (Name, Name))
    ensures Paired(m, n, p + [pair]) == if pair.0 == m || pair.1 == n then pair == (m, n) else Paired(m, n, p)
  {
    assert (p + [pair])[..|p|] == p;
  }

  lemma {:induction false} AgreeInside(env: Env, env1: Env, p: Pairing, pair: (Name, Name), v: int)
    requires Agree(env, env1, p)
    ensures Agree(env[pair.0 := v], env1[pair.1 := v], p + [pair])
  {
    var envA, envB := env[pair.0 := v], env1[pair.1 := v];
    forall m: Name, n: Name | Paired(m, n, p + [pair]) ensures Val(envA, m) == Val(envB, n) {
      PairedInside(m, n, p, pair);
    }
  }

  lemma {:induction false} AlphaEval(e: Expr, r: Expr, p: Pairing, env: Env, env1: Env, mem: map<(int, int), int>)
    requires AlphaExpr(e, r, p) && Agree(env, env1, p)
    ensures Eval(r, env1, mem) == Eval(e, env, mem)
  {
    match e
    case Load(_, index) => AlphaEval(index, r.index, p, env, env1, mem);
    case Bin(_, a, b) =>
      AlphaEval(a, r.a, p, env, env1, mem);
      AlphaEval(b, r.b, p, env, env1, mem);
    case _ =>
  }

  /** Programs that are the same up to names run the same. */
  lemma {:induction false} AlphaRuns(s: Stmt, r: Stmt, p: Pairing, env: Env, env1: Env, st: State)
    requires Alpha(s, r, p) && Agree(env, env1, p)
    ensures Exec(r, env1, st) == Exec(s, env, st)
    decreases s, 0
  {
    hide Agree, Paired;
    match s
    case Store(b, value, index) =>
      AlphaEval(value, r.value, p, env, env1, st.mem);
      AlphaEval(index, r.index, p, env, env1, st.mem);
      SameBlock(b, r.buffer, p, env, env1);
    case Evaluate(e) => AlphaEval(e, r.e, p, env, env1, st.mem);
    case Block(first, rest) =>
      AlphaRuns(first, r.first, p, env, env1, st);
      AlphaRuns(rest, r.rest, p, env, env1, Exec(first, env, st));
    case IfThenElse(cond, thenCase, elseCase) =>
      AlphaEval(cond, r.cond, p, env, env1, st.mem);
      AlphaRuns(thenCase, r.thenCase, p, env, env1, st);
      AlphaRuns(elseCase, r.elseCase, p, env, env1, st);
    case LetStmt(x, value, body) =>
      AlphaEval(value, r.value, p, env, env1, st.mem);
      var v := Eval(value, env, st.mem);
      AgreeInside(env, env1, p, (Scalar(x), Scalar(r.x)), v);
      AlphaRuns(body, r.body, p + [(Scalar(x), Scalar(r.x))], env[Scalar(x) := v], env1[Scalar(r.x) := v], st);
    case For(x, min, extent, t, body) =>
      AlphaEval(min, r.min, p, env, env1, st.mem);
      AlphaEval(extent, r.extent, p, env, env1, st.mem);
      var lo, n := Eval(min, env, st.mem), Iterations(Eval(extent, env, st.mem));
      AlphaLoop(body, r.body, x, r.x, lo, n, p, env, env1, Show(st, Opening(t, lo, n)));
    case Allocate(b, size, body) =>
      AlphaEval(size, r.size, p, env, env1, st.mem);
      AgreeInside(env, env1, p, (Handle(b), Handle(r.buffer)), st.blocks);
      var st1 := Show(st.(blocks := st.blocks + 1), [Allocated(st.blocks, Eval(size, env, st.mem))]);
      AlphaRuns(body, r.body, p + [(Handle(b), Handle(r.buffer))], env[Handle(b) := st.blocks], env1[Handle(r.buffer) := st.blocks], st1);
  }

  lemma {:induction false} SameBlock(b: nat, c: nat, p: Pairing, env: Env, env1: Env)
    requires Paired(Handle(b), Handle(c), p) && Agree(env, env1, p)
    ensures Val(env, Handle(b)) == Val(env1, Handle(c))
  {
  }

  lemma {:induction false} AlphaLoop(body: Stmt, body1: Stmt, x: nat, y: nat, lo: int, n: nat, p: Pairing, env: Env, env1: Env, st: State)
    requires Alpha(body, body1, p + [(Scalar(x), Scalar(y))]) && Agree(env, env1, p)
    ensures ExecLoop(body1, y, lo, n, env1, st) == ExecLoop(body, x, lo, n, env, st)
    decreases body, n + 1
  {
    hide Agree, Paired;
    if n > 0 {
      AgreeInside(env, env1, p, (Scalar(x), Scalar(y)), lo);
      AlphaRuns(body, body1, p + [(Scalar(x), Scalar(y))], env[Scalar(x) := lo], env1[Scalar(y) := lo], st);
      AlphaLoop(body, body1, x, y, lo + 1, n - 1, p, env, env1, Exec(body, env[Scalar(x) := lo], st));
    }
  }

  lemma {:induction false} AlphaSameRuns(s: Stmt, r: Stmt)
    requires Alpha(s, r, [])
    ensures SameRuns(s, r)
  {
    forall env: Env, st: State ensures Exec(s, env, st) == Exec(r, env, st) {
      AlphaRuns(s, r, [], env, env, st);
    }
  }

  // ----- substitution -----

  predicate LoadFree(e: Expr) {
    match e
    case Load(_, _) => false
    case Bin(_, a, b) => LoadFree(a) && LoadFree(b)
    case _ => true
  }

  /** All loops start at load-free expressions. */
  predicate LoadFreeBounds(s: Stmt) {
    match s
    case Store(_, _, _) => true
    case Evaluate(_) => true
    case Block(first, rest) => LoadFreeBounds(first) && LoadFreeBounds(rest)
    case IfThenElse(_, thenCase, elseCase) => LoadFreeBounds(thenCase) && LoadFreeBounds(elseCase)
    case LetStmt(_, _, body) => LoadFreeBounds(body)
    case For(_, min, _, _, body) => LoadFree(min) && LoadFreeBounds(body)
    case Allocate(_, _, body) => LoadFreeBounds(body)
  }

  function SubstExpr(e: Expr, x: nat, r: Expr): Expr {
    match e
    case IntImm(_) => e
    case Var(y) => if y == x then r else e
    case Load(b, index) => Load(b, SubstExpr(index, x, r))
    case Bin(op, a, b) => Bin(op, SubstExpr(a, x, r), SubstExpr(b, x, r))
  }

  /** Replaces the uses of x; binders stay as they are. */
  function Substitute(s: Stmt, x: nat, r: Expr): Stmt {
    match s
    case Store(b, value, index) => Store(b, SubstExpr(value, x, r), SubstExpr(index, x, r))
    case Evaluate(e) => Evaluate(SubstExpr(e, x, r))
    case Block(first, rest) => Block(Substitute(first, x, r), Substitute(rest, x, r))
    case IfThenElse(cond, thenCase, elseCase) => IfThenElse(SubstExpr(cond, x, r), Substitute(thenCase, x, r), Substitute(elseCase, x, r))
    case LetStmt(y, value, body) => LetStmt(y, SubstExpr(value, x, r), Substitute(body, x, r))
    case For(y, min, extent, t, body) => For(y, SubstExpr(min, x, r), SubstExpr(extent, x, r), t, Substitute(body, x, r))
    case Allocate(b, size, body) => Allocate(b, SubstExpr(size, x, r), Substitute(body, x, r))
  }

  lemma {:induction false} EvalSameUses(e: Expr, env: Env, env1: Env, mem: map<(int, int), int>)
    requires forall n <- Uses(e) :: Val(env, n) == Val(env1, n)
    ensures Eval(e, env, mem) == Eval(e, env1, mem)
  {
    match e
    case Load(_, index) => EvalSameUses(index, env, env1, mem);
    case Bin(_, a, b) =>
      EvalSameUses(a, env, env1, mem);
      EvalSameUses(b, env, env1, mem);
    case _ =>
  }

  lemma {:induction false} EvalLoadFree(e: Expr, env: Env, mem: map<(int, int), int>, mem1: map<(int, int), int>)
    requires LoadFree(e)
    ensures Eval(e, env, mem) == Eval(e, env, mem1)
  {
    if e.Bin? {
      EvalLoadFree(e.a, env, mem, mem1);
      EvalLoadFree(e.b, env, mem, mem1);
    }
  }

  /** The environment with x is the one without it, and the value of r there. */
  ghost predicate SubstEnv(env: Env, env1: Env, x: nat, r: Expr, mem: map<(int, int), int>) {
    && (forall n: Name | n != Scalar(x) :: Val(env, n) == Val(env1, n))
    && Val(env, Scalar(x)) == Eval(r, env1, mem)
  }

  lemma {:induction false} SubstExprRight(e: Expr, x: nat, r: Expr, env: Env, env1: Env, mem: map<(int, int), int>)
    requires SubstEnv(env, env1, x, r, mem)
    ensures Eval(SubstExpr(e, x, r), env1, mem) == Eval(e, env, mem)
  {
    match e
    case Load(_, index) => SubstExprRight(index, x, r, env, env1, mem);
    case Bin(_, a, b) =>
      SubstExprRight(a, x, r, env, env1, mem);
      SubstExprRight(b, x, r, env, env1, mem);
    case _ =>
  }

  lemma {:induction false} SubstEnvMem(env: Env, env1: Env, x: nat, r: Expr, mem: map<(int, int), int>, mem1: map<(int, int), int>)
    requires SubstEnv(env, env1, x, r, mem) && LoadFree(r)
    ensures SubstEnv(env, env1, x, r, mem1)
  {
    EvalLoadFree(r, env1, mem, mem1);
  }

  lemma {:induction false} SubstEnvBind(env: Env, env1: Env, x: nat, r: Expr, mem: map<(int, int), int>, n: Name, v: int)
    requires SubstEnv(env, env1, x, r, mem) && n != Scalar(x) && n !in Uses(r)
    ensures SubstEnv(env[n := v], env1[n := v], x, r, mem)
  {
    var envA, envB := env[n := v], env1[n := v];
    assert forall m: Name | m != n :: Val(envA, m) == Val(env, m) && Val(envB, m) == Val(env1, m);
    EvalSameUses(r, env1, envB, mem);
  }

  /** Running after substitution is running with the value of the variable, if no binder catches a variable of r. */
  lemma {:induction false} SubstituteRight(s: Stmt, x: nat, r: Expr, env: Env, env1: Env, st: State)
    requires LoadFree(r) && Scalar(x) !in Binds(s) && Binds(s) !! Uses(r) && SubstEnv(env, env1, x, r, st.mem)
    ensures Exec(Substitute(s, x, r), env1, st) == Exec(s, env, st)
    decreases s, 0
  {
    hide SubstEnv, Uses;
    match s
    case Store(_, value, index) =>
      SubstExprRight(value, x, r, env, env1, st.mem);
      SubstExprRight(index, x, r, env, env1, st.mem);
      SameHandles(env, env1, x, r, st.mem, s.buffer);
    case Evaluate(e) => SubstExprRight(e, x, r, env, env1, st.mem);
    case Block(first, rest) =>
      SubstituteRight(first, x, r, env, env1, st);
      var st1 := Exec(first, env, st);
      SubstEnvMem(env, env1, x, r, st.mem, st1.mem);
      SubstituteRight(rest, x, r, env, env1, st1);
    case IfThenElse(cond, thenCase, elseCase) =>
      SubstExprRight(cond, x, r, env, env1, st.mem);
      SubstituteRight(thenCase, x, r, env, env1, st);
      SubstituteRight(elseCase, x, r, env, env1, st);
    case LetStmt(y, value, body) =>
      SubstExprRight(value, x, r, env, env1, st.mem);
      var v := Eval(value, env, st.mem);
      SubstEnvBind(env, env1, x, r, st.mem, Scalar(y), v);
      SubstituteRight(body, x, r, env[Scalar(y) := v], env1[Scalar(y) := v], st);
    case For(y, min, extent, t, body) =>
      SubstExprRight(min, x, r, env, env1, st.mem);
      SubstExprRight(extent, x, r, env, env1, st.mem);
      var lo, n := Eval(min, env, st.mem), Iterations(Eval(extent, env, st.mem));
      SubstituteLoop(body, y, lo, n, x, r, env, env1, Show(st, Opening(t, lo, n)));
    case Allocate(b, size, body) =>
      SubstExprRight(size, x, r, env, env1, st.mem);
      SubstEnvBind(env, env1, x, r, st.mem, Handle(b), st.blocks);
      var shown := [Allocated(st.blocks, Eval(size, env, st.mem))];
      SubstituteRight(body, x, r, env[Handle(b) := st.blocks], env1[Handle(b) := st.blocks], Show(st.(blocks := st.blocks + 1), shown));
  }

  lemma {:induction false} SameHandles(env: Env, env1: Env, x: nat, r: Expr, mem: map<(int, int), int>, b: nat)
    requires SubstEnv(env, env1, x, r, mem)
    ensures Val(env, Handle(b)) == Val(env1, Handle(b))
  {
  }

  lemma {:induction false} SubstituteLoop(body: Stmt, y: nat, lo: int, n: nat, x: nat, r: Expr, env: Env, env1: Env, st: State)
    requires LoadFree(r) && y != x && Scalar(y) !in Uses(r)
    requires Scalar(x) !in Binds(body) && Binds(body) !! Uses(r) && SubstEnv(env, env1, x, r, st.mem)
    ensures ExecLoop(Substitute(body, x, r), y, lo, n, env1, st) == ExecLoop(body, y, lo, n, env, st)
    decreases body, n + 1
  {
    hide SubstEnv, Uses;
    if n > 0 {
      SubstEnvBind(env, env1, x, r, st.mem, Scalar(y), lo);
      SubstituteRight(body, x, r, env[Scalar(y) := lo], env1[Scalar(y) := lo], st);
      var st1 := Exec(body, env[Scalar(y) := lo], st);
      SubstEnvMem(env, env1, x, r, st.mem, st1.mem);
      SubstituteLoop(body, y, lo + 1, n - 1, x, r, env, env1, st1);
    }
  }

  // ----- what substitution keeps -----

  lemma {:induction false} SubstUses(e: Expr, x: nat, r: Expr)
    ensures Uses(SubstExpr(e, x, r)) <= (Uses(e) - {Scalar(x)}) + Uses(r)
    ensures LoadFree(e) && LoadFree(r) ==> LoadFree(SubstExpr(e, x, r))
  {
    match e
    case Load(_, index) => SubstUses(index, x, r);
    case Bin(_, a, b) =>
      SubstUses(a, x, r);
      SubstUses(b, x, r);
    case _ =>
  }

  lemma {:induction false} SubstVisible(e: Expr, x: nat, r: Expr, bound: set<Name>, inScope: set<Name>)
    requires Visible(e, bound, inScope + {Scalar(x)}) && Visible(r, bound, inScope)
    ensures Visible(SubstExpr(e, x, r), bound, inScope)
  {
    SubstUses(e, x, r);
    forall n | n in Uses(SubstExpr(e, x, r)) && n in bound ensures n in inScope {
      assert n in Uses(e) * bound || n in Uses(r) * bound;
    }
  }

  /** After substitution of a variable of the context, it need not be in scope. */
  lemma {:induction false} SubstScoped(s: Stmt, x: nat, r: Expr, bound: set<Name>, inScope: set<Name>)
    requires Scoped(s, bound, inScope + {Scalar(x)}) && Visible(r, bound, inScope) && Scalar(x) !in inScope
    ensures Scoped(Substitute(s, x, r), bound, inScope)
    ensures Binds(Substitute(s, x, r)) == Binds(s)
  {
    hide Visible;
    match s
    case Store(_, value, index) =>
      SubstVisible(value, x, r, bound, inScope);
      SubstVisible(index, x, r, bound, inScope);
    case Evaluate(e) => SubstVisible(e, x, r, bound, inScope);
    case Block(first, rest) =>
      SubstScoped(first, x, r, bound, inScope);
      SubstScoped(rest, x, r, bound, inScope);
    case IfThenElse(cond, thenCase, elseCase) =>
      SubstVisible(cond, x, r, bound, inScope);
      SubstScoped(thenCase, x, r, bound, inScope);
      SubstScoped(elseCase, x, r, bound, inScope);
    case LetStmt(y, value, body) =>
      SubstVisible(value, x, r, bound, inScope);
      MoreVisible(r, bound, inScope, Scalar(y));
      assert inScope + {Scalar(x)} + {Scalar(y)} == inScope + {Scalar(y)} + {Scalar(x)};
      SubstScoped(body, x, r, bound, inScope + {Scalar(y)});
    case For(y, min, extent, _, body) =>
      SubstVisible(min, x, r, bound, inScope);
      SubstVisible(extent, x, r, bound, inScope);
      MoreVisible(r, bound, inScope, Scalar(y));
      assert inScope + {Scalar(x)} + {Scalar(y)} == inScope + {Scalar(y)} + {Scalar(x)};
      SubstScoped(body, x, r, bound, inScope + {Scalar(y)});
    case Allocate(b, size, body) =>
      SubstVisible(size, x, r, bound, inScope);
      MoreVisible(r, bound, inScope, Handle(b));
      assert inScope + {Scalar(x)} + {Handle(b)} == inScope + {Handle(b)} + {Scalar(x)};
      SubstScoped(body, x, r, bound, inScope + {Handle(b)});
  }

  lemma {:induction false} MoreVisible(e: Expr, bound: set<Name>, inScope: set<Name>, n: Name)
    requires Visible(e, bound, inScope)
    ensures Visible(e, bound, inScope + {n})
  {
  }

  lemma {:induction false} SubstLoadFree(s: Stmt, x: nat, r: Expr)
    requires LoadFreeBounds(s) && LoadFree(r)
    ensures LoadFreeBounds(Substitute(s, x, r))
  {
    match s
    case Block(first, rest) =>
      SubstLoadFree(first, x, r);
      SubstLoadFree(rest, x, r);
    case IfThenElse(_, thenCase, elseCase) =>
      SubstLoadFree(thenCase, x, r);
      SubstLoadFree(elseCase, x, r);
    case LetStmt(_, _, body) => SubstLoadFree(body, x, r);
    case For(_, min, _, _, body) =>
      SubstUses(min, x, r);
      SubstLoadFree(body, x, r);
    case Allocate(_, _, body) => SubstLoadFree(body, x, r);
    case _ =>
  }

  /** What s binds is not in scope around it. */
  lemma {:induction false} BindsOutOfScope(s: Stmt, bound: set<Name>, inScope: set<Name>)
    requires Scoped(s, bound, inScope)
    ensures Binds(s) !! inScope && Binds(s) <= bound
  {
    match s
    case Block(first, rest) =>
      BindsOutOfScope(first, bound, inScope);
      BindsOutOfScope(rest, bound, inScope);
    case IfThenElse(_, thenCase, elseCase) =>
      BindsOutOfScope(thenCase, bound, inScope);
      BindsOutOfScope(elseCase, bound, inScope);
    case LetStmt(y, _, body) => BindsOutOfScope(body, bound, inScope + {Scalar(y)});
    case For(y, _, _, _, body) => BindsOutOfScope(body, bound, inScope + {Scalar(y)});
    case Allocate(b, _, body) => BindsOutOfScope(body, bound, inScope + {Handle(b)});
    case _ =>
  }
}
