/** A statement IR with buffers, its meaning, and the linear access pattern of a program
    (src/pass/storage_rewrite.cc, LinearAccessPatternFinder). */
module StorageIR {
  import opened Wrappers
  import IntSet

  datatype Expr =
    | IntImm(value: int)
    | Variable(name: nat)
    | Load(buffer: nat, index: Expr)
    | Bin(op: IntSet.Op, a: Expr, b: Expr)

  /** An extent of an allocation; extents contain no loads. CeilDiv is (a * m + d - 1) / d. */
  datatype Extent =
    | Const(size: nat)
    | Symbolic(name: nat)
    | Times(a: Extent, b: Extent)
    | CeilDiv(a: Extent, m: nat, d: nat)
    | Larger(a: Extent, b: Extent)

  /** Storage scope rank (0 global, 1 shared, 2 local), element type, its bits, vector lanes and extents. */
  datatype AllocInfo = AllocInfo(rank: nat, elemType: nat, isHandle: bool, bits: nat, lanes: nat, extents: seq<Extent>)

  datatype AttrKey = ThreadExtent | ParallelLaunchPoint

  /** Statements; nodes that open a scope carry their identity. A missing else branch is Evaluate(IntImm(0)). */
  datatype Stmt =
    | Store(buffer: nat, value: Expr, index: Expr)
    | Evaluate(e: Expr)
    | Block(first: Stmt, rest: Stmt)
    | For(id: nat, loopVar: nat, min: Expr, extent: Expr, parallel: bool, body: Stmt)
    | IfThenElse(id: nat, cond: Expr, thenCase: Stmt, elseCase: Stmt)
    | Allocate(buffer: nat, info: AllocInfo, body: Stmt)
    | Attr(id: nat, key: AttrKey, body: Stmt)

  // ----- meaning -----

  type Env = map<nat, int>
  type Mem = map<(nat, int), int>

  /** No value when a variable is unbound or a cell is read that was not written since its buffer was allocated. */
  function Eval(e: Expr, env: Env, mem: Mem): Option<int> {
    match e
    case IntImm(v) => Some(v)
    case Variable(x) => if x in env then Some(env[x]) else None
    case Load(b, index) =>
      var i := Eval(index, env, mem);
      if i.Some? && (b, i.value) in mem then Some(mem[(b, i.value)]) else None
    case Bin(op, a, b) =>
      var x := Eval(a, env, mem);
      var y := Eval(b, env, mem);
      if x.Some? && y.Some? then Some(IntSet.Apply(op, x.value, y.value)) else None
  }

  /** The memory without the cells of buffer b. */
  function Drop(mem: Mem, b: nat): Mem {
    map c <- mem | c.0 != b :: mem[c]
  }

  /** The memory after s, or None if s reads something that has no value. A buffer has no contents
      when its allocation is entered and none after it is left. Parallel iterations run in order. */
  function Exec(s: Stmt, env: Env, mem: Mem): Option<Mem>
    decreases s, 0
  {
    match s
    case Store(b, value, index) =>
      var v := Eval(value, env, mem);
      var i := Eval(index, env, mem);
      if v.Some? && i.Some? then Some(mem[(b, i.value) := v.value]) else None
    case Evaluate(e) => if Eval(e, env, mem).Some? then Some(mem) else None
    case Block(first, rest) =>
      var m := Exec(first, env, mem);
      if m.Some? then Exec(rest, env, m.value) else None
    case For(_, x, min, extent, _, body) =>
      var lo := Eval(min, env, mem);
      var n := Eval(extent, env, mem);
      if lo.Some? && n.Some? then ExecLoop(body, x, lo.value, if n.value < 0 then 0 else n.value, env, mem) else None
    case IfThenElse(_, cond, thenCase, elseCase) =>
      var c := Eval(cond, env, mem);
      if c == None then None
      else if c.value != 0 then Exec(thenCase, env, mem)
      else Exec(elseCase, env, mem)
    case Allocate(b, _, body) =>
      var m := Exec(body, env, Drop(mem, b));
      if m.Some? then Some(Drop(m.value, b)) else None
    case Attr(_, _, body) => Exec(body, env, mem)
  }

  /** n iterations, the loop variable counting up from lo. */
  function ExecLoop(body: Stmt, x: nat, lo: int, n: nat, env: Env, mem: Mem): Option<Mem>
    decreases body, n + 1
  {
    if n == 0 then Some(mem)
    else
      var m := Exec(body, env[x := lo], mem);
      if m.Some? then ExecLoop(body, x, lo + 1, n - 1, env, m.value) else None
  }

  // ----- static facts -----

  /** The buffers read in e, in visiting order. */
  function ReadsOf(e: Expr): seq<nat> {
    match e
    case Load(b, index) => ReadsOf(index) + [b]
    case Bin(_, a, b) => ReadsOf(a) + ReadsOf(b)
    case _ => []
  }

  /** The buffers accessed in s, in visiting order. */
  function Accessed(s: Stmt): seq<nat> {
    match s
    case Store(b, value, index) => ReadsOf(value) + ReadsOf(index) + [b]
    case Evaluate(e) => ReadsOf(e)
    case Block(first, rest) => Accessed(first) + Accessed(rest)
    case For(_, _, min, extent, _, body) => ReadsOf(min) + ReadsOf(extent) + Accessed(body)
    case IfThenElse(_, cond, thenCase, elseCase) => ReadsOf(cond) + Accessed(thenCase) + Accessed(elseCase)
    case Allocate(_, _, body) => Accessed(body)
    case Attr(_, _, body) => Accessed(body)
  }

  /** The buffers allocated inside s. */
  function Allocs(s: Stmt): set<nat> {
    match s
    case Store(_, _, _) => {}
    case Evaluate(_) => {}
    case Block(first, rest) => Allocs(first) + Allocs(rest)
    case IfThenElse(_, _, thenCase, elseCase) => Allocs(thenCase) + Allocs(elseCase)
    case Allocate(b, _, body) => {b} + Allocs(body)
    case _ => Allocs(s.body)
  }

  /** The scope nodes inside s. */
  function Ids(s: Stmt): set<nat> {
    match s
    case Store(_, _, _) => {}
    case Evaluate(_) => {}
    case Block(first, rest) => Ids(first) + Ids(rest)
    case IfThenElse(id, _, thenCase, elseCase) => {id} + Ids(thenCase) + Ids(elseCase)
    case Allocate(_, _, body) => Ids(body)
    case _ => {s.id} + Ids(s.body)
  }

  /** Every node is a different object. */
  predicate UniqueIds(s: Stmt) {
    match s
    case Store(_, _, _) => true
    case Evaluate(_) => true
    case Block(first, rest) => UniqueIds(first) && UniqueIds(rest) && Ids(first) !! Ids(rest)
    case IfThenElse(id, _, thenCase, elseCase) =>
      UniqueIds(thenCase) && UniqueIds(elseCase) && Ids(thenCase) !! Ids(elseCase) && id !in Ids(thenCase) + Ids(elseCase)
    case Allocate(_, _, body) => UniqueIds(body)
    case _ => UniqueIds(s.body) && s.id !in Ids(s.body)
  }

  /** No buffer is allocated twice. */
  predicate UniqueAllocs(s: Stmt) {
    match s
    case Store(_, _, _) => true
    case Evaluate(_) => true
    case Block(first, rest) => UniqueAllocs(first) && UniqueAllocs(rest) && Allocs(first) !! Allocs(rest)
    case IfThenElse(_, _, thenCase, elseCase) =>
      UniqueAllocs(thenCase) && UniqueAllocs(elseCase) && Allocs(thenCase) !! Allocs(elseCase)
    case Allocate(b, _, body) => UniqueAllocs(body) && b !in Allocs(body)
    case _ => UniqueAllocs(s.body)
  }

  predicate AllIn(bs: seq<nat>, all: set<nat>, inScope: set<nat>) {
    forall b <- bs :: b in all ==> b in inScope
  }

  /** The buffers of all are only accessed inside their allocations. */
  predicate Scoped(s: Stmt, all: set<nat>, inScope: set<nat>) {
    match s
    case Store(_, _, _) => AllIn(Accessed(s), all, inScope)
    case Evaluate(_) => AllIn(Accessed(s), all, inScope)
    case Block(first, rest) => Scoped(first, all, inScope) && Scoped(rest, all, inScope)
    case For(_, _, min, extent, _, body) => AllIn(ReadsOf(min) + ReadsOf(extent), all, inScope) && Scoped(body, all, inScope)
    case IfThenElse(_, cond, thenCase, elseCase) =>
      AllIn(ReadsOf(cond), all, inScope) && Scoped(thenCase, all, inScope) && Scoped(elseCase, all, inScope)
    case Allocate(b, _, body) => Scoped(body, all, inScope + {b})
    case Attr(_, _, body) => Scoped(body, all, inScope)
  }

  // ----- the linear access pattern -----

  datatype ScopeKind = SerialLoop | ParallelLoop | Branch | Thread

  /** A point of the pattern: an allocation, a simple statement, or one side of a scope. */
  datatype Point =
    | AllocPoint(buffer: nat, info: AllocInfo)
    | LeafPoint
    | ScopePoint(id: nat, kind: ScopeKind)

  datatype StmtEntry = StmtEntry(point: Point, touched: seq<nat>)

  /** The scope depth at which each buffer is allocated. */
  type Levels = map<nat, nat>

  function Filter(bs: seq<nat>, levels: Levels, d: nat): seq<nat> {
    if bs == [] then []
    else (if bs[0] in levels && levels[bs[0]] == d then [bs[0]] else []) + Filter(bs[1..], levels, d)
  }

  /** The pattern of s at scope depth d. An access counts at the point of the scope in which its buffer is allocated:
      at the statement itself, or after the enclosing scope. */
  function Linear(s: Stmt, d: nat, inThread: bool, levels: Levels): seq<StmtEntry> {
    match s
    case Store(_, _, _) => LinearLeaf(Filter(Accessed(s), levels, d))
    case Evaluate(_) => LinearLeaf(Filter(Accessed(s), levels, d))
    case Block(first, rest) => Linear(first, d, inThread, levels) + Linear(rest, d, inThread, levels)
    case For(id, _, _, _, parallel, body) =>
      LinearScope(ScopePoint(id, if parallel then ParallelLoop else SerialLoop),
                  Linear(body, d + 1, inThread, levels), Filter(Accessed(s), levels, d))
    case IfThenElse(id, _, thenCase, elseCase) =>
      LinearScope(ScopePoint(id, Branch),
                  Linear(thenCase, d + 1, inThread, levels) + Linear(elseCase, d + 1, inThread, levels),
                  Filter(Accessed(s), levels, d))
    case Allocate(b, info, body) => [StmtEntry(AllocPoint(b, info), [b])] + Linear(body, d, inThread, levels)
    case Attr(id, key, body) =>
      if key == ThreadExtent && inThread then Linear(body, d, inThread, levels)
      else LinearScope(ScopePoint(id, Thread), Linear(body, d + 1, inThread || key == ThreadExtent, levels),
                       Filter(Accessed(s), levels, d))
  }

  function LinearLeaf(touched: seq<nat>): seq<StmtEntry> {
    if touched == [] then [] else [StmtEntry(LeafPoint, touched)]
  }

  function LinearScope(point: Point, inner: seq<StmtEntry>, touched: seq<nat>): seq<StmtEntry> {
    [StmtEntry(point, [])] + inner + [StmtEntry(point, touched)]
  }

  /** levels gives every buffer allocated in s, which is at depth d, its depth. */
  predicate LevelsOf(s: Stmt, d: nat, inThread: bool, levels: Levels) {
    match s
    case Store(_, _, _) => true
    case Evaluate(_) => true
    case Block(first, rest) => LevelsOf(first, d, inThread, levels) && LevelsOf(rest, d, inThread, levels)
    case For(_, _, _, _, _, body) => LevelsOf(body, d + 1, inThread, levels)
    case IfThenElse(_, _, thenCase, elseCase) =>
      LevelsOf(thenCase, d + 1, inThread, levels) && LevelsOf(elseCase, d + 1, inThread, levels)
    case Allocate(b, _, body) => b in levels && levels[b] == d && LevelsOf(body, d, inThread, levels)
    case Attr(_, key, body) =>
      if key == ThreadExtent && inThread then LevelsOf(body, d, inThread, levels)
      else LevelsOf(body, d + 1, inThread || key == ThreadExtent, levels)
  }

  /** The touched lists of the open scopes after accesses to bs. */
  function Touch(scope: seq<seq<nat>>, bs: seq<nat>, levels: Levels): seq<seq<nat>> {
    seq(|scope|, k requires 0 <= k < |scope| => scope[k] + Filter(bs, levels, k))
  }

  lemma {:induction false} FilterAppend(bs: seq<nat>, cs: seq<nat>, levels: Levels, d: nat)
    ensures Filter(bs + cs, levels, d) == Filter(bs, levels, d) + Filter(cs, levels, d)
  {
    if bs == [] {
      assert bs + cs == cs;
    } else {
      assert (bs + cs)[1..] == bs[1..] + cs;
      FilterAppend(bs[1..], cs, levels, d);
    }
  }

  lemma {:induction false} TouchAppend(scope: seq<seq<nat>>, bs: seq<nat>, cs: seq<nat>, levels: Levels)
    ensures Touch(Touch(scope, bs, levels), cs, levels) == Touch(scope, bs + cs, levels)
  {
    forall k | 0 <= k < |scope|
      ensures Touch(Touch(scope, bs, levels), cs, levels)[k] == Touch(scope, bs + cs, levels)[k]
    {
      FilterAppend(bs, cs, levels, k);
    }
  }

  lemma {:induction false} TouchNothing(scope: seq<seq<nat>>, levels: Levels)
    ensures Touch(scope, [], levels) == scope
  {
    assert forall k :: 0 <= k < |scope| ==> scope[k] + [] == scope[k];
  }

  /** Touching with the levels known so far, when they cover the buffers at hand. */
  lemma {:induction false} TouchSame(scope: seq<seq<nat>>, bs: seq<nat>, known: Levels, levels: Levels, inScope: set<nat>)
    requires Known(known, levels, inScope) && AllIn(bs, levels.Keys, inScope)
    ensures Touch(scope, bs, known) == Touch(scope, bs, levels)
    ensures forall d: nat :: Filter(bs, known, d) == Filter(bs, levels, d)
  {
    forall d: nat ensures Filter(bs, known, d) == Filter(bs, levels, d) {
      FilterSame(bs, known, levels, d);
    }
  }

  /** The levels known during a visit: right as far as they go, and complete for the buffers in scope. */
  predicate Known(known: Levels, levels: Levels, inScope: set<nat>) {
    inScope <= known.Keys && forall b <- known :: b in levels && levels[b] == known[b]
  }

  /** An inner scope of the stack: opened with nothing touched, closed with what counts at its depth. */
  lemma {:induction false} TouchInner(scope: seq<seq<nat>>, bs: seq<nat>, levels: Levels)
    ensures var inner := Touch(scope + [[]], bs, levels);
            inner[..|scope|] == Touch(scope, bs, levels) && inner[|scope|] == Filter(bs, levels, |scope|)
  {
  }

  lemma {:induction false} InFilter(bs: seq<nat>, levels: Levels, d: nat, b: nat)
    ensures b in Filter(bs, levels, d) <==> b in bs && b in levels && levels[b] == d
  {
    if bs != [] {
      InFilter(bs[1..], levels, d, b);
    }
  }

  /** With the same levels for the buffers at hand, filters agree. */
  lemma {:induction false} FilterSame(bs: seq<nat>, levels: Levels, more: Levels, d: nat)
    requires forall b <- bs :: (b in levels <==> b in more) && (b in levels ==> levels[b] == more[b])
    ensures Filter(bs, levels, d) == Filter(bs, more, d)
  {
    if bs != [] {
      FilterSame(bs[1..], levels, more, d);
    }
  }

  class LinearAccessPatternFinder {
    var linearSeq: seq<StmtEntry>
    /** The touched lists of the open scopes. */
    var scope: seq<seq<nat>>
    var allocScopeLevel: Levels
    var inThreadEnv: bool

    constructor ()
      ensures linearSeq == [] && scope == [] && allocScopeLevel == map[] && !inThreadEnv
    {
      linearSeq, scope, allocScopeLevel, inThreadEnv := [], [], map[], false;
    }

    /** Records an access to a buffer; fails outside of the scope of its allocation. */
    method TouchBuffer(b: nat) returns (ok: bool)
      modifies `scope
      ensures ok ==> scope == Touch(old(scope), [b], allocScopeLevel)
      ensures ok <==> (b in allocScopeLevel ==> allocScopeLevel[b] < |old(scope)|)
    {
      FilterOne(b, allocScopeLevel);
      if b in allocScopeLevel {
        var level := allocScopeLevel[b];
        if level >= |scope| {
          return false;
        }
        scope := scope[level := scope[level] + [b]];
      }
      assert forall k :: 0 <= k < |scope| ==> old(scope)[k] + [] == old(scope)[k];
      assert scope == Touch(old(scope), [b], allocScopeLevel);
      return true;
    }

    method VisitExpr(e: Expr) returns (ok: bool)
      modifies `scope
      ensures ok ==> scope == Touch(old(scope), ReadsOf(e), allocScopeLevel)
      ensures ok <==> Reachable(ReadsOf(e), allocScopeLevel, |old(scope)|)
      decreases e
    {
      ok := true;
      match e {
        case Load(b, index) =>
          ok := VisitExpr(index);
          if ok {
            ok := TouchBuffer(b);
            TouchAppend(old(scope), ReadsOf(index), [b], allocScopeLevel);
          }
        case Bin(_, a, b) =>
          ok := VisitExpr(a);
          if ok {
            ok := VisitExpr(b);
            TouchAppend(old(scope), ReadsOf(a), ReadsOf(b), allocScopeLevel);
          }
        case _ =>
          TouchNothing(scope, allocScopeLevel);
      }
    }

    method OpenScope()
      modifies `scope
      ensures scope == old(scope) + [[]]
    {
      scope := scope + [[]];
    }

    method CloseScope() returns (touched: seq<nat>)
      requires scope != []
      modifies `scope
      ensures scope == old(scope)[..|old(scope)| - 1] && touched == old(scope)[|old(scope)| - 1]
    {
      touched, scope := scope[|scope| - 1], scope[..|scope| - 1];
    }

    method Emit(e: StmtEntry)
      modifies `linearSeq
      ensures linearSeq == old(linearSeq) + [e]
    {
      linearSeq := linearSeq + [e];
    }

    /** Closes the scope of a simple statement; its point is left out if nothing counts there. */
    method CloseLeaf()
      requires scope != []
      modifies `scope, `linearSeq
      ensures scope == old(scope)[..|old(scope)| - 1]
      ensures linearSeq == old(linearSeq) + LinearLeaf(old(scope)[|old(scope)| - 1])
    {
      var touched := CloseScope();
      if touched != [] {
        Emit(StmtEntry(LeafPoint, touched));
      }
    }

    method VisitStore(s: Stmt, ghost levels: Levels, ghost inScope: set<nat>) returns (ok: bool)
      requires s.Store? && Ready(s, levels, inScope)
      modifies `scope, `linearSeq
      ensures ok && Visited(s, old(linearSeq), old(scope), old(inThreadEnv), old(allocScopeLevel), levels)
    {
      OpenScope();
      ghost var scope1, known := scope, allocScopeLevel;
      var ok1 := VisitExpr(s.value);
      var ok2 := VisitExpr(s.index);
      var ok3 := TouchBuffer(s.buffer);
      StoreTouched(scope1, s, known);
      TouchSame(scope1, Accessed(s), known, levels, inScope);
      TouchInner(old(scope), Accessed(s), levels);
      CloseLeaf();
      return ok1 && ok2 && ok3;
    }

    method VisitEvaluate(s: Stmt, ghost levels: Levels, ghost inScope: set<nat>) returns (ok: bool)
      requires s.Evaluate? && Ready(s, levels, inScope)
      modifies `scope, `linearSeq
      ensures ok && Visited(s, old(linearSeq), old(scope), old(inThreadEnv), old(allocScopeLevel), levels)
    {
      OpenScope();
      ok := VisitExpr(s.e);
      TouchSame(old(scope) + [[]], ReadsOf(s.e), allocScopeLevel, levels, inScope);
      TouchInner(old(scope), ReadsOf(s.e), levels);
      CloseLeaf();
    }

    /** What a visit of s at the current depth relies on. */
    ghost predicate Ready(s: Stmt, levels: Levels, inScope: set<nat>)
      reads this
    {
      && Scoped(s, levels.Keys, inScope) && Known(allocScopeLevel, levels, inScope)
      && LevelsOf(s, |scope|, inThreadEnv, levels)
      && forall b <- inScope :: allocScopeLevel[b] <= |scope|
    }

    /** What a visit of s leaves. */
    ghost predicate Visited(s: Stmt, linearSeq0: seq<StmtEntry>, scope0: seq<seq<nat>>, inThread0: bool, known0: Levels, levels: Levels)
      reads this
    {
      && linearSeq == linearSeq0 + Linear(s, |scope0|, inThread0, levels)
      && scope == Touch(scope0, Accessed(s), levels)
      && inThreadEnv == inThread0
      && allocScopeLevel.Keys == known0.Keys + Allocs(s) && (forall b <- allocScopeLevel :: b in levels && levels[b] == allocScopeLevel[b])
      && UniqueAllocs(s) && Allocs(s) !! known0.Keys
    }

    /** Visits s; fails when a buffer is allocated a second time. */
    method Visit(s: Stmt, ghost levels: Levels, ghost inScope: set<nat>) returns (ok: bool)
      requires Ready(s, levels, inScope)
      modifies this
      ensures ok ==> Visited(s, old(linearSeq), old(scope), old(inThreadEnv), old(allocScopeLevel), levels)
      ensures ok <==> UniqueAllocs(s) && Allocs(s) !! old(allocScopeLevel.Keys)
      decreases s, 2
    {
      match s
      case Store(_, _, _) => ok := VisitStore(s, levels, inScope);
      case Evaluate(_) => ok := VisitEvaluate(s, levels, inScope);
      case Block(_, _) => ok := VisitBlock(s, levels, inScope);
      case For(_, _, _, _, _, _) => ok := VisitFor(s, levels, inScope);
      case IfThenElse(_, _, _, _) => ok := VisitIf(s, levels, inScope);
      case Allocate(_, _, _) => ok := VisitAllocate(s, levels, inScope);
      case Attr(_, _, _) => ok := VisitAttr(s, levels, inScope);
    }

    method VisitBlock(s: Stmt, ghost levels: Levels, ghost inScope: set<nat>) returns (ok: bool)
      requires s.Block? && Ready(s, levels, inScope)
      modifies this
      ensures ok ==> Visited(s, old(linearSeq), old(scope), old(inThreadEnv), old(allocScopeLevel), levels)
      ensures ok <==> UniqueAllocs(s) && Allocs(s) !! old(allocScopeLevel.Keys)
      decreases s, 0
    {
      ok := Visit(s.first, levels, inScope);
      if !ok {
        return;
      }
      ok := Visit(s.rest, levels, inScope);
      TouchAppend(old(scope), Accessed(s.first), Accessed(s.rest), levels);
    }

    method VisitAllocate(s: Stmt, ghost levels: Levels, ghost inScope: set<nat>) returns (ok: bool)
      requires s.Allocate? && Ready(s, levels, inScope)
      modifies this
      ensures ok ==> Visited(s, old(linearSeq), old(scope), old(inThreadEnv), old(allocScopeLevel), levels)
      ensures ok <==> UniqueAllocs(s) && Allocs(s) !! old(allocScopeLevel.Keys)
      decreases s, 0
    {
      if s.buffer in allocScopeLevel {
        return false;
      }
      allocScopeLevel := allocScopeLevel[s.buffer := |scope|];
      Emit(StmtEntry(AllocPoint(s.buffer, s.info), [s.buffer]));
      ok := Visit(s.body, levels, inScope + {s.buffer});
    }

    method VisitFor(s: Stmt, ghost levels: Levels, ghost inScope: set<nat>) returns (ok: bool)
      requires s.For? && Ready(s, levels, inScope)
      modifies this
      ensures ok ==> Visited(s, old(linearSeq), old(scope), old(inThreadEnv), old(allocScopeLevel), levels)
      ensures ok <==> UniqueAllocs(s) && Allocs(s) !! old(allocScopeLevel.Keys)
      decreases s, 0
    {
      var point := ScopePoint(s.id, if s.parallel then ParallelLoop else SerialLoop);
      ghost var scope1 := scope + [[]];
      OpenScope();
      Emit(StmtEntry(point, []));
      var ok1 := VisitBounds(s, levels, inScope);
      ok := Visit(s.body, levels, inScope);
      if !ok {
        return;
      }
      ForTouched(scope1, s, levels);
      TouchInner(old(scope), Accessed(s), levels);
      var touched := CloseScope();
      Emit(StmtEntry(point, touched));
      ScopeEmitted(old(linearSeq), point, Linear(s.body, |scope1|, old(inThreadEnv), levels), touched);
      ok := ok1;
    }

    /** The start and the extent of a loop. */
    method VisitBounds(s: Stmt, ghost levels: Levels, ghost inScope: set<nat>) returns (ok: bool)
      requires s.For? && scope != [] && Known(allocScopeLevel, levels, inScope)
      requires AllIn(ReadsOf(s.min) + ReadsOf(s.extent), levels.Keys, inScope) && forall b <- inScope :: allocScopeLevel[b] < |scope|
      modifies `scope
      ensures ok && scope == Touch(old(scope), ReadsOf(s.min) + ReadsOf(s.extent), levels)
    {
      ghost var scope1, known := scope, allocScopeLevel;
      var ok1 := VisitExpr(s.min);
      var ok2 := VisitExpr(s.extent);
      ForOperandsTouched(scope1, s, known, levels, inScope);
      ok := ok1 && ok2;
    }

    method VisitIf(s: Stmt, ghost levels: Levels, ghost inScope: set<nat>) returns (ok: bool)
      requires s.IfThenElse? && Ready(s, levels, inScope)
      modifies this
      ensures ok ==> Visited(s, old(linearSeq), old(scope), old(inThreadEnv), old(allocScopeLevel), levels)
      ensures ok <==> UniqueAllocs(s) && Allocs(s) !! old(allocScopeLevel.Keys)
      decreases s, 1
    {
      var point := ScopePoint(s.id, Branch);
      ghost var scope1 := scope + [[]];
      OpenScope();
      Emit(StmtEntry(point, []));
      var ok1 := VisitExpr(s.cond);
      TouchSame(scope1, ReadsOf(s.cond), allocScopeLevel, levels, inScope);
      ghost var branches := Block(s.thenCase, s.elseCase);
      ok := VisitBranches(s, branches, levels, inScope);
      if !ok {
        return;
      }
      BranchesTouched(scope1, s, levels);
      TouchInner(old(scope), Accessed(s), levels);
      var touched := CloseScope();
      Emit(StmtEntry(point, touched));
      ScopeEmitted(old(linearSeq), point, Linear(branches, |scope1|, old(inThreadEnv), levels), touched);
      ok := ok1;
    }

    method VisitBranches(s: Stmt, ghost branches: Stmt, ghost levels: Levels, ghost inScope: set<nat>) returns (ok: bool)
      requires s.IfThenElse? && branches == Block(s.thenCase, s.elseCase) && Ready(branches, levels, inScope)
      modifies this
      ensures ok ==> Visited(branches, old(linearSeq), old(scope), old(inThreadEnv), old(allocScopeLevel), levels)
      ensures ok <==> UniqueAllocs(branches) && Allocs(branches) !! old(allocScopeLevel.Keys)
      decreases s, 0
    {
      ok := Visit(s.thenCase, levels, inScope);
      if !ok {
        return;
      }
      ok := Visit(s.elseCase, levels, inScope);
      TouchAppend(old(scope), Accessed(s.thenCase), Accessed(s.elseCase), levels);
    }

    /** Only the outermost thread extent opens a scope; a parallel launch point always does. */
    method VisitAttr(s: Stmt, ghost levels: Levels, ghost inScope: set<nat>) returns (ok: bool)
      requires s.Attr? && Ready(s, levels, inScope)
      modifies this
      ensures ok ==> Visited(s, old(linearSeq), old(scope), old(inThreadEnv), old(allocScopeLevel), levels)
      ensures ok <==> UniqueAllocs(s) && Allocs(s) !! old(allocScopeLevel.Keys)
      decreases s, 0
    {
      if s.key == ThreadExtent && inThreadEnv {
        ok := Visit(s.body, levels, inScope);
        return;
      }
      var wasThread := inThreadEnv;
      var point := ScopePoint(s.id, Thread);
      ghost var scope1 := scope + [[]];
      inThreadEnv := wasThread || s.key == ThreadExtent;
      OpenScope();
      Emit(StmtEntry(point, []));
      ok := Visit(s.body, levels, inScope);
      if !ok {
        return;
      }
      TouchInner(old(scope), Accessed(s), levels);
      var touched := CloseScope();
      Emit(StmtEntry(point, touched));
      ScopeEmitted(old(linearSeq), point, Linear(s.body, |scope1|, wasThread || s.key == ThreadExtent, levels), touched);
      inThreadEnv := wasThread;
    }
  }

  lemma {:induction false} StoreTouched(scope: seq<seq<nat>>, s: Stmt, levels: Levels)
    requires s.Store?
    ensures Touch(Touch(Touch(scope, ReadsOf(s.value), levels), ReadsOf(s.index), levels), [s.buffer], levels) == Touch(scope, Accessed(s), levels)
  {
    TouchAppend(scope, ReadsOf(s.value), ReadsOf(s.index), levels);
    TouchAppend(scope, ReadsOf(s.value) + ReadsOf(s.index), [s.buffer], levels);
  }

  lemma {:induction false} ForOperandsTouched(scope: seq<seq<nat>>, s: Stmt, known: Levels, levels: Levels, inScope: set<nat>)
    requires s.For? && Known(known, levels, inScope) && AllIn(ReadsOf(s.min) + ReadsOf(s.extent), levels.Keys, inScope)
    ensures Touch(Touch(scope, ReadsOf(s.min), known), ReadsOf(s.extent), known) == Touch(scope, ReadsOf(s.min) + ReadsOf(s.extent), levels)
  {
    TouchAppend(scope, ReadsOf(s.min), ReadsOf(s.extent), known);
    TouchSame(scope, ReadsOf(s.min) + ReadsOf(s.extent), known, levels, inScope);
  }

  lemma {:induction false} ForTouched(scope: seq<seq<nat>>, s: Stmt, levels: Levels)
    requires s.For?
    ensures Touch(Touch(scope, ReadsOf(s.min) + ReadsOf(s.extent), levels), Accessed(s.body), levels) == Touch(scope, Accessed(s), levels)
  {
    TouchAppend(scope, ReadsOf(s.min) + ReadsOf(s.extent), Accessed(s.body), levels);
  }

  lemma {:induction false} BranchesTouched(scope: seq<seq<nat>>, s: Stmt, levels: Levels)
    requires s.IfThenElse?
    ensures Touch(Touch(scope, ReadsOf(s.cond), levels), Accessed(s.thenCase) + Accessed(s.elseCase), levels) == Touch(scope, Accessed(s), levels)
  {
    TouchAppend(scope, ReadsOf(s.cond), Accessed(s.thenCase) + Accessed(s.elseCase), levels);
    assert ReadsOf(s.cond) + (Accessed(s.thenCase) + Accessed(s.elseCase)) == Accessed(s);
  }

  lemma {:induction false} ScopeEmitted(seq0: seq<StmtEntry>, point: Point, inner: seq<StmtEntry>, touched: seq<nat>)
    ensures seq0 + [StmtEntry(point, [])] + inner + [StmtEntry(point, touched)] == seq0 + LinearScope(point, inner, touched)
  {
  }

  /** Every buffer of bs is allocated above depth d, as far as the levels are known. */
  predicate Reachable(bs: seq<nat>, known: Levels, d: nat) {
    forall b <- bs :: b in known ==> known[b] < d
  }

  lemma {:induction false} FilterOne(b: nat, levels: Levels)
    ensures forall d: nat :: Filter([b], levels, d) == if b in levels && levels[b] == d then [b] else []
  {
    assert [b][1..] == [];
  }

  /** The depths of the buffers allocated in s. */
  function LevelMap(s: Stmt, d: nat, inThread: bool): Levels {
    match s
    case Store(_, _, _) => map[]
    case Evaluate(_) => map[]
    case Block(first, rest) => LevelMap(first, d, inThread) + LevelMap(rest, d, inThread)
    case For(_, _, _, _, _, body) => LevelMap(body, d + 1, inThread)
    case IfThenElse(_, _, thenCase, elseCase) => LevelMap(thenCase, d + 1, inThread) + LevelMap(elseCase, d + 1, inThread)
    case Allocate(b, _, body) => LevelMap(body, d, inThread)[b := d]
    case Attr(_, key, body) =>
      if key == ThreadExtent && inThread then LevelMap(body, d, inThread)
      else LevelMap(body, d + 1, inThread || key == ThreadExtent)
  }

  lemma {:induction false} LevelMapKeys(s: Stmt, d: nat, inThread: bool)
    ensures LevelMap(s, d, inThread).Keys == Allocs(s)
  {
    match s
    case Block(first, rest) =>
      LevelMapKeys(first, d, inThread);
      LevelMapKeys(rest, d, inThread);
    case For(_, _, _, _, _, body) => LevelMapKeys(body, d + 1, inThread);
    case IfThenElse(_, _, thenCase, elseCase) =>
      LevelMapKeys(thenCase, d + 1, inThread);
      LevelMapKeys(elseCase, d + 1, inThread);
    case Allocate(_, _, body) => LevelMapKeys(body, d, inThread);
    case Attr(_, key, body) =>
      if key == ThreadExtent && inThread {
        LevelMapKeys(body, d, inThread);
      } else {
        LevelMapKeys(body, d + 1, inThread || key == ThreadExtent);
      }
    case _ =>
  }

  lemma {:induction false} LevelMapRight(s: Stmt, d: nat, inThread: bool, levels: Levels)
    requires UniqueAllocs(s)
    requires forall b <- LevelMap(s, d, inThread) :: b in levels && levels[b] == LevelMap(s, d, inThread)[b]
    ensures LevelsOf(s, d, inThread, levels)
  {
    LevelMapKeys(s, d, inThread);
    match s
    case Block(first, rest) =>
      LevelMapKeys(first, d, inThread);
      LevelMapKeys(rest, d, inThread);
      LevelMapRight(first, d, inThread, levels);
      LevelMapRight(rest, d, inThread, levels);
    case For(_, _, _, _, _, body) => LevelMapRight(body, d + 1, inThread, levels);
    case IfThenElse(_, _, thenCase, elseCase) =>
      LevelMapKeys(thenCase, d + 1, inThread);
      LevelMapKeys(elseCase, d + 1, inThread);
      LevelMapRight(thenCase, d + 1, inThread, levels);
      LevelMapRight(elseCase, d + 1, inThread, levels);
    case Allocate(_, _, body) =>
      LevelMapKeys(body, d, inThread);
      LevelMapRight(body, d, inThread, levels);
    case Attr(_, key, body) =>
      if key == ThreadExtent && inThread {
        LevelMapRight(body, d, inThread, levels);
      } else {
        LevelMapRight(body, d + 1, inThread || key == ThreadExtent, levels);
      }
    case _ =>
  }

  /** The linear access pattern of a whole program. */
  function PatternOf(s: Stmt): seq<StmtEntry> {
    Linear(s, 0, false, LevelMap(s, 0, false))
  }

  /** With no buffer allocated twice, no check of the visitor fails. */
  method GetLinearSeq(s: Stmt) returns (linearSeq: seq<StmtEntry>)
    requires UniqueAllocs(s) && Scoped(s, Allocs(s), {})
    ensures linearSeq == PatternOf(s)
  {
    LevelMapKeys(s, 0, false);
    LevelMapRight(s, 0, false, LevelMap(s, 0, false));
    var finder := new LinearAccessPatternFinder();
    var ok := finder.Visit(s, LevelMap(s, 0, false), {});
    assert ok;
    linearSeq := finder.linearSeq;
    assert [] + PatternOf(s) == PatternOf(s);
  }
}
