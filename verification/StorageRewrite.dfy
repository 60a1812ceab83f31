/** Sharing of storage between buffers that are not live at the same time (src/pass/storage_rewrite.cc, StoragePlanRewriter):
    the rewriting for a given plan and why it keeps the meaning of the program. */
module StorageRewrite {
  import opened Wrappers
  import opened StorageIR

  datatype Alloc = Alloc(buffer: nat, info: AllocInfo)

  /** One piece of storage: where it is allocated (None is the top of the program) and the buffers that share it. */
  datatype StorageEntry = StorageEntry(attach: Option<nat>, constNbits: nat, rank: nat, elemType: nat, allocs: seq<Alloc>)

  datatype Plan = Plan(allocMap: map<nat, nat>, entries: seq<StorageEntry>)

  // ----- liveness along the linear pattern -----

  predicate IsAlloc(e: StmtEntry, b: nat) {
    e.point.AllocPoint? && e.point.buffer == b
  }

  ghost predicate AllocBefore(pattern: seq<StmtEntry>, p: nat, b: nat) {
    exists i :: 0 <= i < p && i < |pattern| && IsAlloc(pattern[i], b)
  }

  ghost predicate TouchedFrom(pattern: seq<StmtEntry>, p: nat, b: nat) {
    exists i :: p <= i < |pattern| && b in pattern[i].touched
  }

  /** Allocated before point p and still touched at p or later. */
  ghost predicate Live(pattern: seq<StmtEntry>, p: nat, b: nat) {
    AllocBefore(pattern, p, b) && TouchedFrom(pattern, p, b)
  }

  /** The thread scope after a point: a parallel loop or thread node opens it, and the same node closes it. */
  function ScopeStep(cur: Option<nat>, e: StmtEntry): Option<nat> {
    match e.point
    case ScopePoint(id, ParallelLoop) => if cur == None then Some(id) else if cur == Some(id) then None else cur
    case ScopePoint(id, Thread) => if cur == None then Some(id) else None
    case _ => cur
  }

  /** The thread scope in which point p is planned. */
  function ScopeAt(pattern: seq<StmtEntry>, p: nat): Option<nat>
    requires p <= |pattern|
  {
    if p == 0 then None else ScopeStep(ScopeAt(pattern, p - 1), pattern[p - 1])
  }

  /** A plan that serves: every allocated buffer has one entry, buffers with one entry are never live together,
      agree in storage rank and element type, and the entry is attached to the thread scope of each of them. */
  ghost predicate GoodPlan(pattern: seq<StmtEntry>, plan: Plan) {
    && (forall b: nat :: b in plan.allocMap <==> AllocBefore(pattern, |pattern|, b))
    && (forall b <- plan.allocMap :: plan.allocMap[b] < |plan.entries|)
    && (forall k :: 0 <= k < |plan.entries| ==>
          plan.entries[k].allocs != [] && forall a <- plan.entries[k].allocs :: a.buffer in plan.allocMap && plan.allocMap[a.buffer] == k)
    && (forall b, c, p: nat | b in plan.allocMap && c in plan.allocMap && b != c && plan.allocMap[b] == plan.allocMap[c] ::
          !(Live(pattern, p, b) && Live(pattern, p, c)))
    && (forall b, i | 0 <= i < |pattern| && IsAlloc(pattern[i], b) && b in plan.allocMap ::
          var e := plan.entries[plan.allocMap[b]];
          && e.attach == ScopeAt(pattern, i)
          && e.rank == pattern[i].point.info.rank && e.elemType == pattern[i].point.info.elemType
          && Alloc(b, pattern[i].point.info) in e.allocs)
  }

  /** The variable that stands for the storage of b: the first buffer of its entry. */
  function AllocVar(plan: Plan, b: nat): nat {
    if b in plan.allocMap && plan.allocMap[b] < |plan.entries| && plan.entries[plan.allocMap[b]].allocs != [] then
      plan.entries[plan.allocMap[b]].allocs[0].buffer
    else b
  }

  // ----- the rewriting -----

  function MutateExpr(e: Expr, plan: Plan): Expr {
    match e
    case Load(b, index) => Load(AllocVar(plan, b), MutateExpr(index, plan))
    case Bin(op, a, b) => Bin(op, MutateExpr(a, plan), MutateExpr(b, plan))
    case _ => e
  }

  /** The new allocations of the entries attached to a scope, around the body, in the order of the entries. */
  function MakeAttach(attach: Option<nat>, plan: Plan, news: seq<AllocInfo>, k: nat, body: Stmt): Stmt
    requires |news| == |plan.entries|
    decreases |plan.entries| - k
  {
    if k >= |plan.entries| then body
    else if plan.entries[k].attach == attach && plan.entries[k].allocs != [] then
      Allocate(plan.entries[k].allocs[0].buffer, news[k], MakeAttach(attach, plan, news, k + 1, body))
    else MakeAttach(attach, plan, news, k + 1, body)
  }

  function Mutate(s: Stmt, plan: Plan, news: seq<AllocInfo>): Stmt
    requires |news| == |plan.entries|
  {
    match s
    case Store(b, value, index) => Store(AllocVar(plan, b), MutateExpr(value, plan), MutateExpr(index, plan))
    case Evaluate(e) => Evaluate(MutateExpr(e, plan))
    case Block(first, rest) => Block(Mutate(first, plan, news), Mutate(rest, plan, news))
    case For(id, x, min, extent, parallel, body) =>
      For(id, x, MutateExpr(min, plan), MutateExpr(extent, plan), parallel,
          MakeAttach(Some(id), plan, news, 0, Mutate(body, plan, news)))
    case IfThenElse(id, cond, thenCase, elseCase) =>
      IfThenElse(id, MutateExpr(cond, plan), Mutate(thenCase, plan, news), Mutate(elseCase, plan, news))
    case Allocate(_, _, body) => Mutate(body, plan, news)
    case Attr(id, key, body) => Attr(id, key, MakeAttach(Some(id), plan, news, 0, Mutate(body, plan, news)))
  }

  // ----- a position of the program in the pattern -----

  /** The linear pattern of a whole program and the depths of its buffers. */
  datatype Context = Context(pattern: seq<StmtEntry>, levels: Levels)

  /** A place in the program: the point of the pattern, the scope depth, whether it is inside a thread extent,
      and the buffers in scope. */
  datatype Place = Place(p: nat, d: nat, inThread: bool, inScope: set<nat>)

  function Part(c: Context, w: Place, s: Stmt): seq<StmtEntry> {
    Linear(s, w.d, w.inThread, c.levels)
  }

  /** The point after s. */
  function After(c: Context, w: Place, s: Stmt): nat {
    w.p + |Part(c, w, s)|
  }

  /** s is the part of the pattern that starts at w. The buffers in scope around it are allocated before it,
      at most at its depth, and those that it uses from shallower depths are touched again after it; its own
      buffers and scope nodes are not met before it, and its buffers not touched after it. */
  ghost predicate At(c: Context, w: Place, s: Stmt) {
    && After(c, w, s) <= |c.pattern| && c.pattern[w.p..After(c, w, s)] == Part(c, w, s)
    && UniqueAllocs(s) && UniqueIds(s) && LevelsOf(s, w.d, w.inThread, c.levels) && Scoped(s, c.levels.Keys, w.inScope)
    && InScopeAt(c, w)
    && (forall b <- w.inScope | b in Accessed(s) && c.levels[b] < w.d :: TouchedFrom(c.pattern, After(c, w, s), b))
    && OwnOnly(c, w.p, After(c, w, s), Allocs(s))
    && NoIdsBefore(c.pattern, w.p, Ids(s))
  }

  ghost predicate InScopeAt(c: Context, w: Place) {
    forall b <- w.inScope :: AllocBefore(c.pattern, w.p, b) && b in c.levels && c.levels[b] <= w.d
  }

  /** The buffers are not allocated before p and not touched from q on. */
  ghost predicate OwnOnly(c: Context, p: nat, q: nat, bs: set<nat>) {
    forall b <- bs :: !AllocBefore(c.pattern, p, b) && !TouchedFrom(c.pattern, q, b)
  }

  ghost predicate NoIdsBefore(pattern: seq<StmtEntry>, p: nat, ids: set<nat>) {
    forall i | 0 <= i < p && i < |pattern| && pattern[i].point.ScopePoint? :: pattern[i].point.id !in ids
  }

  predicate TouchedWithin(es: seq<StmtEntry>, bs: set<nat>, d: nat, levels: Levels) {
    forall e <- es, b <- e.touched :: b in levels && levels[b] >= d && b in bs
  }

  function Used(s: Stmt): set<nat> {
    Allocs(s) + set b <- Accessed(s)
  }

  lemma {:induction false} FilterWithin(s: Stmt, d: nat, levels: Levels, bs: set<nat>)
    requires Used(s) <= bs
    ensures forall b <- Filter(Accessed(s), levels, d) :: b in levels && levels[b] == d && b in bs
  {
    FilterAll(Accessed(s), levels, d);
  }

  lemma {:induction false} TouchedWithinAppend(es: seq<StmtEntry>, fs: seq<StmtEntry>, bs: set<nat>, d: nat, levels: Levels)
    requires TouchedWithin(es, bs, d, levels) && TouchedWithin(fs, bs, d, levels)
    ensures TouchedWithin(es + fs, bs, d, levels)
  {
  }

  lemma {:induction false} TouchedWithinLeaf(s: Stmt, bs: set<nat>, d: nat, levels: Levels)
    requires s.Store? || s.Evaluate?
    requires Used(s) <= bs
    ensures forall inThread :: TouchedWithin(Linear(s, d, inThread, levels), bs, d, levels)
  {
    FilterWithin(s, d, levels, bs);
  }

  lemma {:induction false} OneTouchedWithin(e: StmtEntry, b: nat, bs: set<nat>, d: nat, levels: Levels)
    requires e.touched == [b] && b in levels && levels[b] >= d && b in bs
    ensures TouchedWithin([e], bs, d, levels)
  {
  }

  lemma {:induction false} TouchedWithinScope(point: ScopeNode, inner: seq<StmtEntry>, s: Stmt, bs: set<nat>, d: nat, levels: Levels)
    requires TouchedWithin(inner, bs, d + 1, levels) && Used(s) <= bs
    ensures TouchedWithin(LinearScope(point, inner, Filter(Accessed(s), levels, d)), bs, d, levels)
  {
    FilterWithin(s, d, levels, bs);
    TouchedWithinAppend([StmtEntry(point, [])], inner, bs, d, levels);
    TouchedWithinAppend([StmtEntry(point, [])] + inner, [StmtEntry(point, Filter(Accessed(s), levels, d))], bs, d, levels);
  }

  /** Everything that s touches in the pattern belongs to it or is accessed by it, at its depth or deeper. */
  lemma {:induction false} LinearTouched(s: Stmt, d: nat, inThread: bool, levels: Levels, bs: set<nat>)
    requires LevelsOf(s, d, inThread, levels) && Used(s) <= bs
    ensures TouchedWithin(Linear(s, d, inThread, levels), bs, d, levels)
  {
    hide TouchedWithin;
    match s
    case Store(_, _, _) => TouchedWithinLeaf(s, bs, d, levels);
    case Evaluate(_) => TouchedWithinLeaf(s, bs, d, levels);
    case Block(first, rest) =>
      LinearTouched(first, d, inThread, levels, bs);
      LinearTouched(rest, d, inThread, levels, bs);
      TouchedWithinAppend(Linear(first, d, inThread, levels), Linear(rest, d, inThread, levels), bs, d, levels);
    case For(id, _, _, _, parallel, body) =>
      var inner := Linear(body, d + 1, inThread, levels);
      LinearTouched(body, d + 1, inThread, levels, bs);
      TouchedWithinScope(ScopePoint(id, if parallel then ParallelLoop else SerialLoop), inner, s, bs, d, levels);
    case IfThenElse(id, _, thenCase, elseCase) =>
      var inner1, inner2 := Linear(thenCase, d + 1, inThread, levels), Linear(elseCase, d + 1, inThread, levels);
      LinearTouched(thenCase, d + 1, inThread, levels, bs);
      LinearTouched(elseCase, d + 1, inThread, levels, bs);
      TouchedWithinAppend(inner1, inner2, bs, d + 1, levels);
      TouchedWithinScope(ScopePoint(id, Branch), inner1 + inner2, s, bs, d, levels);
    case Allocate(b, info, body) =>
      LinearTouched(body, d, inThread, levels, bs);
      OneTouchedWithin(StmtEntry(AllocPoint(b, info), [b]), b, bs, d, levels);
      TouchedWithinAppend([StmtEntry(AllocPoint(b, info), [b])], Linear(body, d, inThread, levels), bs, d, levels);
    case Attr(id, key, body) =>
      if key == ThreadExtent && inThread {
        LinearTouched(body, d, inThread, levels, bs);
      } else {
        LinearTouched(body, d + 1, inThread || key == ThreadExtent, levels, bs);
        TouchedWithinScope(ScopePoint(id, Thread), Linear(body, d + 1, inThread || key == ThreadExtent, levels), s, bs, d, levels);
      }
  }

  lemma {:induction false} FilterAll(bs: seq<nat>, levels: Levels, d: nat)
    ensures forall b: nat :: b in Filter(bs, levels, d) <==> b in bs && b in levels && levels[b] == d
  {
    forall b: nat {
      InFilter(bs, levels, d, b);
    }
  }

  /** The allocations and the scope nodes that occur in the pattern of s are those of s. */
  lemma {:induction false} LinearPoints(s: Stmt, d: nat, inThread: bool, levels: Levels)
    ensures forall e <- Linear(s, d, inThread, levels) ::
      && (e.point.AllocPoint? ==> e.point.buffer in Allocs(s))
      && (e.point.ScopePoint? ==> e.point.id in Ids(s))
  {
    match s
    case Block(first, rest) =>
      LinearPoints(first, d, inThread, levels);
      LinearPoints(rest, d, inThread, levels);
    case For(_, _, _, _, _, body) => LinearPoints(body, d + 1, inThread, levels);
    case IfThenElse(_, _, thenCase, elseCase) =>
      LinearPoints(thenCase, d + 1, inThread, levels);
      LinearPoints(elseCase, d + 1, inThread, levels);
    case Allocate(_, _, body) => LinearPoints(body, d, inThread, levels);
    case Attr(_, key, body) =>
      if key == ThreadExtent && inThread {
        LinearPoints(body, d, inThread, levels);
      } else {
        LinearPoints(body, d + 1, inThread || key == ThreadExtent, levels);
      }
    case _ =>
  }

  lemma {:induction false} ScopedAccess(s: Stmt, all: set<nat>, inScope: set<nat>)
    requires Scoped(s, all, inScope)
    ensures forall b <- Accessed(s) | b in all :: b in inScope + Allocs(s)
  {
    match s
    case Block(first, rest) =>
      ScopedAccess(first, all, inScope);
      ScopedAccess(rest, all, inScope);
    case For(_, _, _, _, _, body) => ScopedAccess(body, all, inScope);
    case IfThenElse(_, _, thenCase, elseCase) =>
      ScopedAccess(thenCase, all, inScope);
      ScopedAccess(elseCase, all, inScope);
    case Allocate(b, _, body) => ScopedAccess(body, all, inScope + {b});
    case Attr(_, _, body) => ScopedAccess(body, all, inScope);
    case _ =>
  }

  lemma {:induction false} TouchedFromLess(pattern: seq<StmtEntry>, p: nat, q: nat, b: nat)
    requires p <= q && TouchedFrom(pattern, q, b)
    ensures TouchedFrom(pattern, p, b)
  {
  }

  /** s fills the pattern from w on. */
  ghost predicate Fills(c: Context, w: Place, s: Stmt) {
    && After(c, w, s) <= |c.pattern| && c.pattern[w.p..After(c, w, s)] == Part(c, w, s)
    && LevelsOf(s, w.d, w.inThread, c.levels)
  }

  /** A buffer allocated within s is its own. */
  lemma {:induction false} InPartAlloc(c: Context, w: Place, s: Stmt, b: nat)
    requires Fills(c, w, s) && AllocBefore(c.pattern, After(c, w, s), b)
    ensures AllocBefore(c.pattern, w.p, b) || b in Allocs(s)
  {
    hide Linear, Allocs;
    LinearPoints(s, w.d, w.inThread, c.levels);
    var i :| 0 <= i < After(c, w, s) && i < |c.pattern| && IsAlloc(c.pattern[i], b);
    if i >= w.p {
      assert c.pattern[i] == Part(c, w, s)[i - w.p];
    }
  }

  /** A buffer touched within s is used by it, at its depth or deeper. */
  lemma {:induction false} InPartTouched(c: Context, w: Place, s: Stmt, b: nat)
    requires Fills(c, w, s) && TouchedFrom(c.pattern, w.p, b)
    ensures TouchedFrom(c.pattern, After(c, w, s), b) || (b in c.levels && c.levels[b] >= w.d && b in Used(s))
  {
    hide Linear, Used, LevelsOf;
    LinearTouched(s, w.d, w.inThread, c.levels, Used(s));
    var i :| w.p <= i < |c.pattern| && b in c.pattern[i].touched;
    if i < After(c, w, s) {
      assert c.pattern[i] == Part(c, w, s)[i - w.p];
    }
  }

  lemma {:induction false} InPartIds(c: Context, w: Place, s: Stmt, ids: set<nat>)
    requires Fills(c, w, s) && NoIdsBefore(c.pattern, w.p, ids) && ids !! Ids(s)
    ensures NoIdsBefore(c.pattern, After(c, w, s), ids)
  {
    LinearPoints(s, w.d, w.inThread, c.levels);
    forall i | w.p <= i < After(c, w, s) ensures c.pattern[i] in Part(c, w, s) {
    }
  }

  lemma {:induction false} BlockParts(c: Context, w: Place, s: Stmt)
    requires s.Block? && After(c, w, s) <= |c.pattern| && c.pattern[w.p..After(c, w, s)] == Part(c, w, s)
    ensures After(c, w.(p := After(c, w, s.first)), s.rest) == After(c, w, s)
    ensures c.pattern[w.p..After(c, w, s.first)] == Part(c, w, s.first)
    ensures c.pattern[After(c, w, s.first)..After(c, w, s)] == Part(c, w, s.rest)
  {
    SliceTwo(c.pattern, w.p, Part(c, w, s.first), Part(c, w, s.rest));
  }

  lemma {:induction false} SliceTwo(pattern: seq<StmtEntry>, p: nat, u: seq<StmtEntry>, v: seq<StmtEntry>)
    requires p + |u| + |v| <= |pattern| && pattern[p..p + |u| + |v|] == u + v
    ensures pattern[p..p + |u|] == u && pattern[p + |u|..p + |u| + |v|] == v
  {
    var all := pattern[p..p + |u| + |v|];
    forall k | 0 <= k < |u| ensures pattern[p + k] == u[k] {
      assert all[k] == pattern[p + k];
    }
    forall k | 0 <= k < |v| ensures pattern[p + |u| + k] == v[k] {
      assert all[|u| + k] == pattern[p + |u| + k];
    }
  }

  lemma {:induction false} AtFirst(c: Context, w: Place, s: Stmt)
    requires s.Block? && At(c, w, s)
    ensures At(c, w, s.first)
  {
    BlockParts(c, w, s);
    var q1 := After(c, w, s.first);
    ScopedAccess(s.rest, c.levels.Keys, w.inScope);
    forall b <- w.inScope | b in Accessed(s.first) && c.levels[b] < w.d ensures TouchedFrom(c.pattern, q1, b) {
      assert b in Accessed(s);
    }
    forall b <- Allocs(s.first) ensures !AllocBefore(c.pattern, w.p, b) && !TouchedFrom(c.pattern, q1, b) {
      assert b in Allocs(s);
      if TouchedFrom(c.pattern, q1, b) {
        InPartTouched(c, w.(p := q1), s.rest, b);
      }
    }
  }

  lemma {:induction false} AtRest(c: Context, w: Place, s: Stmt)
    requires s.Block? && At(c, w, s)
    ensures At(c, w.(p := After(c, w, s.first)), s.rest)
    ensures After(c, w.(p := After(c, w, s.first)), s.rest) == After(c, w, s)
  {
    BlockParts(c, w, s);
    var q1 := After(c, w, s.first);
    InPartIds(c, w, s.first, Ids(s.rest));
    forall b <- w.inScope ensures AllocBefore(c.pattern, q1, b) {
    }
    forall b <- Allocs(s.rest) ensures !AllocBefore(c.pattern, q1, b) && !TouchedFrom(c.pattern, After(c, w, s), b) {
      assert b in Allocs(s);
      if AllocBefore(c.pattern, q1, b) {
        InPartAlloc(c, w, s.first, b);
      }
    }
    assert forall b <- Accessed(s.rest) :: b in Accessed(s);
  }

  lemma {:induction false} AtAllocated(c: Context, w: Place, s: Stmt)
    requires s.Allocate? && At(c, w, s)
    ensures At(c, w.(p := w.p + 1, inScope := w.inScope + {s.buffer}), s.body)
    ensures w.p < |c.pattern| && c.pattern[w.p] == StmtEntry(AllocPoint(s.buffer, s.info), [s.buffer])
    ensures s.buffer in c.levels
  {
    var q := After(c, w, s);
    assert c.pattern[w.p] == c.pattern[w.p..q][0];
    assert c.pattern[w.p + 1..q] == c.pattern[w.p..q][1..];
    forall b <- w.inScope + {s.buffer} ensures AllocBefore(c.pattern, w.p + 1, b) {
      assert IsAlloc(c.pattern[w.p], s.buffer);
    }
    forall b <- Allocs(s.body) ensures !AllocBefore(c.pattern, w.p + 1, b) && !TouchedFrom(c.pattern, q, b) {
      assert b in Allocs(s) && !AllocBefore(c.pattern, w.p, b) && !IsAlloc(c.pattern[w.p], b);
    }
  }

  type ScopeNode = e: Point | e.ScopePoint? witness ScopePoint(0, Branch)

  /** The scope node s at w opens a scope with the given point, and inner is the statement in it. */
  ghost predicate Encloses(c: Context, w: Place, s: Stmt, inner: Stmt, innerThread: bool, point: ScopeNode) {
    && point.id in Ids(s) && point.id !in Ids(inner) && Ids(inner) <= Ids(s)
    && Part(c, w, s) == LinearScope(point, Part(c, Inner(w, innerThread), inner), Filter(Accessed(s), c.levels, w.d))
    && Allocs(inner) == Allocs(s) && (forall b <- Accessed(inner) :: b in Accessed(s))
    && UniqueAllocs(inner) && UniqueIds(inner)
    && LevelsOf(inner, w.d + 1, innerThread, c.levels) && Scoped(inner, c.levels.Keys, w.inScope)
  }

  /** The place at the start of the scope opened at w. */
  function Inner(w: Place, innerThread: bool): Place {
    Place(w.p + 1, w.d + 1, innerThread, w.inScope)
  }

  lemma {:induction false} ScopeParts(c: Context, w: Place, s: Stmt, inner: Stmt, innerThread: bool, point: ScopeNode)
    requires At(c, w, s) && Encloses(c, w, s, inner, innerThread, point)
    ensures var q := After(c, w, s);
      && q == After(c, Inner(w, innerThread), inner) + 1
      && c.pattern[w.p] == StmtEntry(point, []) && c.pattern[q - 1] == StmtEntry(point, Filter(Accessed(s), c.levels, w.d))
      && c.pattern[w.p + 1..q - 1] == Part(c, Inner(w, innerThread), inner)
  {
    hide InScopeAt, OwnOnly, NoIdsBefore, Linear, LevelsOf, UniqueAllocs, UniqueIds, Scoped;
    SliceScope(c.pattern, w.p, point, Part(c, Inner(w, innerThread), inner), Filter(Accessed(s), c.levels, w.d));
  }

  lemma {:induction false} SliceScope(pattern: seq<StmtEntry>, p: nat, point: Point, part: seq<StmtEntry>, touched: seq<nat>)
    requires p + |part| + 2 <= |pattern| && pattern[p..p + |part| + 2] == LinearScope(point, part, touched)
    ensures pattern[p] == StmtEntry(point, []) && pattern[p + |part| + 1] == StmtEntry(point, touched)
    ensures pattern[p + 1..p + |part| + 1] == part
  {
    var all := pattern[p..p + |part| + 2];
    assert all[0] == pattern[p] && all[|part| + 1] == pattern[p + |part| + 1];
    forall k | 0 <= k < |part| ensures pattern[p + 1 + k] == part[k] {
      assert all[k + 1] == pattern[p + 1 + k];
    }
  }

  lemma {:induction false} InnerOutside(c: Context, w: Place, s: Stmt, inner: Stmt, innerThread: bool, point: ScopeNode)
    requires At(c, w, s) && Encloses(c, w, s, inner, innerThread, point)
    ensures InScopeAt(c, Inner(w, innerThread))
    ensures forall b <- w.inScope | b in Accessed(inner) && c.levels[b] < w.d + 1 :: TouchedFrom(c.pattern, After(c, w, s) - 1, b)
  {
    hide OwnOnly, NoIdsBefore, Linear, LevelsOf, UniqueAllocs, UniqueIds, Scoped;
    var q := After(c, w, s);
    ScopeParts(c, w, s, inner, innerThread, point);
    forall b <- w.inScope ensures AllocBefore(c.pattern, w.p + 1, b) {
    }
    forall b <- w.inScope | b in Accessed(inner) && c.levels[b] < w.d + 1 ensures TouchedFrom(c.pattern, q - 1, b) {
      if c.levels[b] == w.d {
        InFilter(Accessed(s), c.levels, w.d, b);
        assert b in c.pattern[q - 1].touched;
      } else {
        TouchedFromLess(c.pattern, q - 1, q, b);
      }
    }
  }

  lemma {:induction false} InnerIds(c: Context, w: Place, s: Stmt, inner: Stmt, innerThread: bool, point: ScopeNode)
    requires At(c, w, s) && Encloses(c, w, s, inner, innerThread, point)
    ensures NoIdsBefore(c.pattern, w.p + 1, Ids(inner))
  {
    hide NoIdsBefore, OwnOnly, InScopeAt, AllocBefore, TouchedFrom;
    ScopeParts(c, w, s, inner, innerThread, point);
    NoIdsStep(c.pattern, w.p, Ids(s), Ids(inner));
  }

  lemma {:induction false} NoIdsStep(pattern: seq<StmtEntry>, p: nat, ids: set<nat>, ids1: set<nat>)
    requires p < |pattern| && NoIdsBefore(pattern, p, ids) && ids1 <= ids
    requires pattern[p].point.ScopePoint? ==> pattern[p].point.id !in ids1
    ensures NoIdsBefore(pattern, p + 1, ids1)
  {
  }

  lemma {:induction false} InnerAllocs(c: Context, w: Place, s: Stmt, inner: Stmt, innerThread: bool, point: ScopeNode, b: nat)
    requires At(c, w, s) && Encloses(c, w, s, inner, innerThread, point) && b in Allocs(inner)
    ensures !AllocBefore(c.pattern, w.p + 1, b) && !TouchedFrom(c.pattern, After(c, w, s) - 1, b)
  {
    hide InScopeAt, NoIdsBefore, Linear, LevelsOf, UniqueAllocs, UniqueIds, Scoped;
    ScopeParts(c, w, s, inner, innerThread, point);
    AllocLevels(inner, w.d + 1, innerThread, c.levels);
    InFilter(Accessed(s), c.levels, w.d, b);
    assert !AllocBefore(c.pattern, w.p, b) && !TouchedFrom(c.pattern, After(c, w, s), b);
  }

  lemma {:induction false} AtInner(c: Context, w: Place, s: Stmt, inner: Stmt, innerThread: bool, point: ScopeNode)
    requires At(c, w, s) && Encloses(c, w, s, inner, innerThread, point)
    ensures At(c, Inner(w, innerThread), inner)
  {
    hide Linear, UniqueAllocs, UniqueIds, Scoped;
    ScopeParts(c, w, s, inner, innerThread, point);
    InnerOutside(c, w, s, inner, innerThread, point);
    InnerIds(c, w, s, inner, innerThread, point);
    forall b <- Allocs(inner) ensures !AllocBefore(c.pattern, w.p + 1, b) && !TouchedFrom(c.pattern, After(c, w, s) - 1, b) {
      InnerAllocs(c, w, s, inner, innerThread, point, b);
    }
  }

  lemma {:induction false} AllocLevels(s: Stmt, d: nat, inThread: bool, levels: Levels)
    requires LevelsOf(s, d, inThread, levels)
    ensures forall b <- Allocs(s) :: b in levels && levels[b] >= d
  {
    match s
    case Block(first, rest) =>
      AllocLevels(first, d, inThread, levels);
      AllocLevels(rest, d, inThread, levels);
    case For(_, _, _, _, _, body) => AllocLevels(body, d + 1, inThread, levels);
    case IfThenElse(_, _, thenCase, elseCase) =>
      AllocLevels(thenCase, d + 1, inThread, levels);
      AllocLevels(elseCase, d + 1, inThread, levels);
    case Allocate(_, _, body) => AllocLevels(body, d, inThread, levels);
    case Attr(_, key, body) =>
      if key == ThreadExtent && inThread {
        AllocLevels(body, d, inThread, levels);
      } else {
        AllocLevels(body, d + 1, inThread || key == ThreadExtent, levels);
      }
    case _ =>
  }

  /** A buffer that is live when a loop body starts is live when it ends: accesses from inside count after the loop. */
  lemma {:induction false} LiveThroughBody(c: Context, w: Place, s: Stmt, inner: Stmt, innerThread: bool, point: ScopeNode, b: nat)
    requires At(c, w, s) && Encloses(c, w, s, inner, innerThread, point) && Live(c.pattern, w.p + 1, b)
    ensures Live(c.pattern, After(c, Inner(w, innerThread), inner), b)
  {
    hide Linear, LevelsOf, NoIdsBefore, UniqueAllocs, UniqueIds;
    AtInner(c, w, s, inner, innerThread, point);
    var q := After(c, Inner(w, innerThread), inner);
    if !TouchedFrom(c.pattern, q, b) {
      InPartTouched(c, Inner(w, innerThread), inner, b);
      ScopedAccess(inner, c.levels.Keys, w.inScope);
      assert false;
    }
  }

  /** Past a statement, what is live was live before it: its own buffers are dead. */
  lemma {:induction false} LiveBack(c: Context, w: Place, s: Stmt, mid: nat, b: nat)
    requires At(c, w, s) && w.p <= mid <= After(c, w, s) && Live(c.pattern, After(c, w, s), b)
    ensures Live(c.pattern, mid, b)
  {
    hide Linear, LevelsOf, InScopeAt, NoIdsBefore, UniqueAllocs, UniqueIds, Scoped;
    InPartAlloc(c, w, s, b);
    assert AllocBefore(c.pattern, w.p, b);
    TouchedFromLess(c.pattern, mid, After(c, w, s), b);
  }

  /** A simple statement or a scope finds the outer buffers that it uses live. */
  lemma {:induction false} UsedLive(c: Context, w: Place, s: Stmt, b: nat)
    requires At(c, w, s) && (s.Store? || s.Evaluate? || s.For? || s.IfThenElse?)
    requires b in w.inScope && b in Accessed(s)
    ensures Live(c.pattern, w.p, b)
  {
    hide OwnOnly, NoIdsBefore, LevelsOf, UniqueAllocs, UniqueIds, Scoped;
    if c.levels[b] == w.d {
      var part, q := Part(c, w, s), After(c, w, s);
      InFilter(Accessed(s), c.levels, w.d, b);
      assert b in part[|part| - 1].touched;
      assert c.pattern[w.p..q][|part| - 1] == c.pattern[q - 1];
    } else {
      TouchedFromLess(c.pattern, w.p, After(c, w, s), b);
    }
  }

  // ----- the rewritten program follows the original one -----

  /** The memories m1 of the original and m2 of the rewritten program at point p: the same outside of the allocated
      buffers, and every cell of a live buffer is found in the storage of its entry. */
  ghost predicate Sim(pattern: seq<StmtEntry>, p: nat, plan: Plan, m1: Mem, m2: Mem) {
    && (forall c: (nat, int) | c.0 !in plan.allocMap :: (c in m1 <==> c in m2) && (c in m1 ==> m1[c] == m2[c]))
    && (forall c <- m1 | c.0 in plan.allocMap && Live(pattern, p, c.0) ::
          (AllocVar(plan, c.0), c.1) in m2 && m2[(AllocVar(plan, c.0), c.1)] == m1[c])
  }

  lemma {:induction false} SimMove(pattern: seq<StmtEntry>, p: nat, q: nat, plan: Plan, m1: Mem, m2: Mem)
    requires Sim(pattern, p, plan, m1, m2) && forall b: nat | Live(pattern, q, b) :: Live(pattern, p, b)
    ensures Sim(pattern, q, plan, m1, m2)
  {
  }

  lemma {:induction false} LiveStep(pattern: seq<StmtEntry>, p: nat, b: nat)
    requires p < |pattern| && Live(pattern, p + 1, b)
    ensures Live(pattern, p, b) || IsAlloc(pattern[p], b)
  {
  }

  ghost predicate AllLive(pattern: seq<StmtEntry>, p: nat, plan: Plan, bs: seq<nat>) {
    forall b <- bs | b in plan.allocMap :: Live(pattern, p, b)
  }

  lemma {:induction false} EvalSim(e: Expr, env: Env, pattern: seq<StmtEntry>, p: nat, plan: Plan, m1: Mem, m2: Mem)
    requires Sim(pattern, p, plan, m1, m2) && AllLive(pattern, p, plan, ReadsOf(e)) && Eval(e, env, m1).Some?
    ensures Eval(MutateExpr(e, plan), env, m2) == Eval(e, env, m1)
  {
    match e
    case Load(b, index) =>
      EvalSim(index, env, pattern, p, plan, m1, m2);
      assert b in ReadsOf(e);
    case Bin(_, a, b) =>
      EvalSim(a, env, pattern, p, plan, m1, m2);
      EvalSim(b, env, pattern, p, plan, m1, m2);
    case _ =>
  }

  /** Live buffers have storage of their own. */
  lemma {:induction false} LiveApart(pattern: seq<StmtEntry>, p: nat, plan: Plan, b: nat, c: nat)
    requires GoodPlan(pattern, plan) && b != c && b in plan.allocMap && Live(pattern, p, c)
    requires Live(pattern, p, b)
    ensures c in plan.allocMap && AllocVar(plan, b) != AllocVar(plan, c)
  {
  }

  lemma {:induction false} StoreSim(pattern: seq<StmtEntry>, p: nat, plan: Plan, m1: Mem, m2: Mem, b: nat, i: int, v: int)
    requires GoodPlan(pattern, plan) && Sim(pattern, p, plan, m1, m2) && AllLive(pattern, p, plan, [b])
    ensures Sim(pattern, p, plan, m1[(b, i) := v], m2[(AllocVar(plan, b), i) := v])
  {
    assert b in [b];
    if b in plan.allocMap {
      forall c: nat | Live(pattern, p, c) && c != b ensures AllocVar(plan, c) != AllocVar(plan, b) {
        LiveApart(pattern, p, plan, b, c);
      }
    }
  }

  // ----- attached allocations -----

  function DropAll(mem: Mem, bs: set<nat>): Mem {
    map c <- mem | c.0 !in bs :: mem[c]
  }

  /** The variables allocated at a scope, from entry k on. */
  function Attached(attach: Option<nat>, plan: Plan, k: nat): set<nat>
    decreases |plan.entries| - k
  {
    if k >= |plan.entries| then {}
    else (if plan.entries[k].attach == attach && plan.entries[k].allocs != [] then {plan.entries[k].allocs[0].buffer} else {})
         + Attached(attach, plan, k + 1)
  }

  predicate HoldsVar(e: StorageEntry, attach: Option<nat>, v: nat) {
    e.attach == attach && e.allocs != [] && e.allocs[0].buffer == v
  }

  lemma {:induction false} AttachedEntry(attach: Option<nat>, plan: Plan, k: nat, v: nat)
    requires v in Attached(attach, plan, k)
    ensures exists j :: k <= j < |plan.entries| && HoldsVar(plan.entries[j], attach, v)
    decreases |plan.entries| - k
  {
    if v in Attached(attach, plan, k + 1) {
      AttachedEntry(attach, plan, k + 1, v);
    } else {
      assert HoldsVar(plan.entries[k], attach, v);
    }
  }

  lemma {:induction false} ExecAttach(attach: Option<nat>, plan: Plan, news: seq<AllocInfo>, k: nat, body: Stmt, env: Env, mem: Mem)
    requires |news| == |plan.entries|
    requires Exec(body, env, DropAll(mem, Attached(attach, plan, k))).Some?
    ensures Exec(MakeAttach(attach, plan, news, k, body), env, mem)
      == Some(DropAll(Exec(body, env, DropAll(mem, Attached(attach, plan, k))).value, Attached(attach, plan, k)))
    decreases |plan.entries| - k
  {
    var vs := Attached(attach, plan, k);
    if k >= |plan.entries| {
      DropNothing(mem);
      DropNothing(Exec(body, env, mem).value);
    } else if plan.entries[k].attach == attach && plan.entries[k].allocs != [] {
      var v, rest := plan.entries[k].allocs[0].buffer, Attached(attach, plan, k + 1);
      assert DropAll(Drop(mem, v), rest) == DropAll(mem, vs);
      ExecAttach(attach, plan, news, k + 1, body, env, Drop(mem, v));
      var m := Exec(body, env, DropAll(mem, vs)).value;
      assert Drop(DropAll(m, rest), v) == DropAll(m, vs);
    } else {
      assert vs == Attached(attach, plan, k + 1);
      ExecAttach(attach, plan, news, k + 1, body, env, mem);
    }
  }

  lemma {:induction false} DropNothing(mem: Mem)
    ensures DropAll(mem, {}) == mem
  {
  }

  lemma {:induction false} ScopeAtPoint(pattern: seq<StmtEntry>, p: nat, id: nat)
    requires p <= |pattern| && ScopeAt(pattern, p) == Some(id)
    ensures exists j :: 0 <= j < p && pattern[j].point.ScopePoint? && pattern[j].point.id == id
  {
    if ScopeAt(pattern, p - 1) == Some(id) {
      ScopeAtPoint(pattern, p - 1, id);
    } else {
      assert pattern[p - 1].point.ScopePoint? && pattern[p - 1].point.id == id;
    }
  }

  /** Storage attached to a scope node is not in use by a buffer that was allocated before the node. */
  lemma {:induction false} DropSim(pattern: seq<StmtEntry>, p: nat, q: nat, plan: Plan, m1: Mem, m2: Mem, id: nat)
    requires GoodPlan(pattern, plan) && Sim(pattern, q, plan, m1, m2)
    requires NoIdsBefore(pattern, p, {id}) && p <= |pattern|
    requires forall b: nat | Live(pattern, q, b) :: Live(pattern, p, b)
    ensures Sim(pattern, q, plan, m1, DropAll(m2, Attached(Some(id), plan, 0)))
  {
    var vs := Attached(Some(id), plan, 0);
    forall v <- vs ensures v in plan.allocMap && plan.entries[plan.allocMap[v]].attach == Some(id) {
      AttachedEntry(Some(id), plan, 0, v);
      var j :| 0 <= j < |plan.entries| && HoldsVar(plan.entries[j], Some(id), v);
      assert plan.entries[j].allocs[0] in plan.entries[j].allocs;
    }
    forall b: nat | Live(pattern, q, b) && b in plan.allocMap ensures AllocVar(plan, b) !in vs {
      var i :| 0 <= i < p && i < |pattern| && IsAlloc(pattern[i], b);
      if ScopeAt(pattern, i) == Some(id) {
        ScopeAtPoint(pattern, i, id);
      }
    }
  }

  ghost predicate PlanFor(c: Context, plan: Plan, news: seq<AllocInfo>) {
    GoodPlan(c.pattern, plan) && |news| == |plan.entries| && plan.allocMap.Keys == c.levels.Keys
  }

  /** The expressions that s evaluates itself read live buffers only. */
  lemma {:induction false} OperandsLive(c: Context, w: Place, s: Stmt, plan: Plan, news: seq<AllocInfo>)
    requires At(c, w, s) && PlanFor(c, plan, news)
    ensures match s
            case Store(b, value, index) =>
              AllLive(c.pattern, w.p, plan, ReadsOf(value)) && AllLive(c.pattern, w.p, plan, ReadsOf(index)) && AllLive(c.pattern, w.p, plan, [b])
            case Evaluate(e) => AllLive(c.pattern, w.p, plan, ReadsOf(e))
            case For(_, _, min, extent, _, _) => AllLive(c.pattern, w.p, plan, ReadsOf(min)) && AllLive(c.pattern, w.p, plan, ReadsOf(extent))
            case IfThenElse(_, cond, _, _) => AllLive(c.pattern, w.p, plan, ReadsOf(cond))
            case _ => true
  {
    if s.Store? || s.Evaluate? || s.For? || s.IfThenElse? {
      forall b <- Accessed(s) | b in w.inScope ensures Live(c.pattern, w.p, b) {
        UsedLive(c, w, s, b);
      }
    }
  }

  lemma {:induction false} SimBack(c: Context, w: Place, s: Stmt, mid: nat, plan: Plan, m1: Mem, m2: Mem)
    requires At(c, w, s) && w.p <= mid <= After(c, w, s) && Sim(c.pattern, mid, plan, m1, m2)
    ensures Sim(c.pattern, After(c, w, s), plan, m1, m2)
  {
    hide At, Sim, Live;
    forall b: nat | Live(c.pattern, After(c, w, s), b) ensures Live(c.pattern, mid, b) {
      LiveBack(c, w, s, mid, b);
    }
    SimMove(c.pattern, mid, After(c, w, s), plan, m1, m2);
  }

  /** What it means that s and its rewriting run side by side from m1 and m2. */
  ghost predicate Follows(c: Context, p: nat, q: nat, plan: Plan, s: Stmt, r: Stmt, env: Env, m1: Mem, m2: Mem) {
    Sim(c.pattern, p, plan, m1, m2) && Exec(s, env, m1).Some? ==>
      Exec(r, env, m2).Some? && Sim(c.pattern, q, plan, Exec(s, env, m1).value, Exec(r, env, m2).value)
  }

  /** From any two memories that agree on what is live before s, the rewritten s does what s does. */
  lemma {:induction false} ExecSim(c: Context, w: Place, s: Stmt, plan: Plan, news: seq<AllocInfo>, env: Env, m1: Mem, m2: Mem)
    requires At(c, w, s) && PlanFor(c, plan, news)
    ensures Follows(c, w.p, After(c, w, s), plan, s, Mutate(s, plan, news), env, m1, m2)
    decreases s, 2
  {
    hide At, GoodPlan, Sim, AllLive;
    if Sim(c.pattern, w.p, plan, m1, m2) && Exec(s, env, m1).Some? {
      match s
      case Store(_, _, _) => ExecSimStore(c, w, s, plan, news, env, m1, m2);
      case Evaluate(e) =>
        OperandsLive(c, w, s, plan, news);
        EvalSim(e, env, c.pattern, w.p, plan, m1, m2);
        SimBack(c, w, s, w.p, plan, m1, m2);
      case Block(first, rest) =>
        AtFirst(c, w, s);
        AtRest(c, w, s);
        ExecSim(c, w, first, plan, news, env, m1, m2);
        ExecSim(c, w.(p := After(c, w, first)), rest, plan, news, env,
                Exec(first, env, m1).value, Exec(Mutate(first, plan, news), env, m2).value);
      case For(_, _, _, _, _, _) => ExecSimFor(c, w, s, plan, news, env, m1, m2);
      case IfThenElse(_, _, _, _) => ExecSimIf(c, w, s, plan, news, env, m1, m2);
      case Allocate(_, _, _) => ExecSimAllocate(c, w, s, plan, news, env, m1, m2);
      case Attr(_, _, _) => ExecSimAttr(c, w, s, plan, news, env, m1, m2);
    }
  }

  lemma {:induction false} ExecSimStore(c: Context, w: Place, s: Stmt, plan: Plan, news: seq<AllocInfo>, env: Env, m1: Mem, m2: Mem)
    requires s.Store? && At(c, w, s) && PlanFor(c, plan, news)
    requires Sim(c.pattern, w.p, plan, m1, m2) && Exec(s, env, m1).Some?
    ensures Follows(c, w.p, After(c, w, s), plan, s, Mutate(s, plan, news), env, m1, m2)
  {
    hide At, GoodPlan, Sim, AllLive;
    OperandsLive(c, w, s, plan, news);
    EvalSim(s.value, env, c.pattern, w.p, plan, m1, m2);
    EvalSim(s.index, env, c.pattern, w.p, plan, m1, m2);
    StoreSim(c.pattern, w.p, plan, m1, m2, s.buffer, Eval(s.index, env, m1).value, Eval(s.value, env, m1).value);
    SimBack(c, w, s, w.p, plan, Exec(s, env, m1).value, Exec(Mutate(s, plan, news), env, m2).value);
  }

  lemma {:induction false} SimForget(pattern: seq<StmtEntry>, p: nat, plan: Plan, m1: Mem, m2: Mem, b: nat)
    requires Sim(pattern, p, plan, m1, m2) && b in plan.allocMap
    ensures Sim(pattern, p, plan, Drop(m1, b), m2)
  {
  }

  lemma {:induction false} AllocateSim(c: Context, w: Place, s: Stmt, plan: Plan, m1: Mem, m2: Mem)
    requires s.Allocate? && At(c, w, s) && Sim(c.pattern, w.p, plan, m1, m2) && s.buffer in plan.allocMap
    ensures Sim(c.pattern, w.p + 1, plan, Drop(m1, s.buffer), m2)
  {
    AtAllocated(c, w, s);
    forall b: nat | Live(c.pattern, w.p + 1, b) && b != s.buffer ensures Live(c.pattern, w.p, b) {
      LiveStep(c.pattern, w.p, b);
    }
  }

  lemma {:induction false} ExecSimAllocate(c: Context, w: Place, s: Stmt, plan: Plan, news: seq<AllocInfo>, env: Env, m1: Mem, m2: Mem)
    requires s.Allocate? && At(c, w, s) && PlanFor(c, plan, news)
    requires Sim(c.pattern, w.p, plan, m1, m2) && Exec(s, env, m1).Some?
    ensures Follows(c, w.p, After(c, w, s), plan, s, Mutate(s, plan, news), env, m1, m2)
    decreases s, 0
  {
    hide At, GoodPlan, Sim;
    AtAllocated(c, w, s);
    AllocateSim(c, w, s, plan, m1, m2);
    var m := Drop(m1, s.buffer);
    ExecSim(c, w.(p := w.p + 1, inScope := w.inScope + {s.buffer}), s.body, plan, news, env, m, m2);
    SimForget(c.pattern, After(c, w, s), plan, Exec(s.body, env, m).value, Exec(Mutate(s.body, plan, news), env, m2).value, s.buffer);
  }

  lemma {:induction false} EnterScope(c: Context, w: Place, s: Stmt, inner: Stmt, innerThread: bool, point: ScopeNode, b: nat)
    requires At(c, w, s) && Encloses(c, w, s, inner, innerThread, point) && Live(c.pattern, w.p + 1, b)
    ensures Live(c.pattern, w.p, b)
  {
    ScopeParts(c, w, s, inner, innerThread, point);
    LiveStep(c.pattern, w.p, b);
  }

  lemma {:induction false} EnterScopeSim(c: Context, w: Place, s: Stmt, inner: Stmt, innerThread: bool, point: ScopeNode, plan: Plan, m1: Mem, m2: Mem)
    requires At(c, w, s) && Encloses(c, w, s, inner, innerThread, point) && Sim(c.pattern, w.p, plan, m1, m2)
    ensures Sim(c.pattern, w.p + 1, plan, m1, m2)
  {
    hide At, Encloses, Sim, Live;
    forall b: nat | Live(c.pattern, w.p + 1, b) ensures Live(c.pattern, w.p, b) {
      EnterScope(c, w, s, inner, innerThread, point, b);
    }
    SimMove(c.pattern, w.p, w.p + 1, plan, m1, m2);
  }

  function Body(point: ScopeNode, inner: Stmt, plan: Plan, news: seq<AllocInfo>): Stmt
    requires |news| == |plan.entries|
  {
    MakeAttach(Some(point.id), plan, news, 0, Mutate(inner, plan, news))
  }

  /** The storage attached to a scope node can be opened at the start of the scope and closed at its end. */
  lemma {:induction false} AttachedApart(c: Context, w: Place, s: Stmt, inner: Stmt, innerThread: bool, point: ScopeNode, plan: Plan, q: nat, m1: Mem, m2: Mem)
    requires At(c, w, s) && Encloses(c, w, s, inner, innerThread, point) && GoodPlan(c.pattern, plan)
    requires q == w.p + 1 || q == After(c, Inner(w, innerThread), inner)
    requires Sim(c.pattern, q, plan, m1, m2)
    ensures Sim(c.pattern, q, plan, m1, DropAll(m2, Attached(Some(point.id), plan, 0)))
  {
    AtInner(c, w, s, inner, innerThread, point);
    forall b: nat | Live(c.pattern, q, b) ensures Live(c.pattern, w.p, b) {
      if q != w.p + 1 {
        LiveBack(c, Inner(w, innerThread), inner, w.p + 1, b);
      }
      EnterScope(c, w, s, inner, innerThread, point, b);
    }
    DropSim(c.pattern, w.p, q, plan, m1, m2, point.id);
  }

  /** One execution of the body of a scope node, inside the allocations attached to the node. */
  lemma {:induction false} BodySim(c: Context, w: Place, s: Stmt, inner: Stmt, innerThread: bool, point: ScopeNode,
                                   plan: Plan, news: seq<AllocInfo>, env: Env, m1: Mem, m2: Mem)
    requires At(c, w, s) && Encloses(c, w, s, inner, innerThread, point) && PlanFor(c, plan, news)
    ensures Follows(c, w.p + 1, w.p + 1, plan, inner, Body(point, inner, plan, news), env, m1, m2)
    decreases inner, 3
  {
    hide At, Encloses, GoodPlan, Sim;
    if Sim(c.pattern, w.p + 1, plan, m1, m2) && Exec(inner, env, m1).Some? {
      AtInner(c, w, s, inner, innerThread, point);
      AttachedApart(c, w, s, inner, innerThread, point, plan, w.p + 1, m1, m2);
      var m := DropAll(m2, Attached(Some(point.id), plan, 0));
      ExecSim(c, Inner(w, innerThread), inner, plan, news, env, m1, m);
      ExecAttach(Some(point.id), plan, news, 0, Mutate(inner, plan, news), env, m2);
      BodyEnd(c, w, s, inner, innerThread, point, plan, Exec(inner, env, m1).value, Exec(Mutate(inner, plan, news), env, m).value);
    }
  }

  lemma {:induction false} BodyEnd(c: Context, w: Place, s: Stmt, inner: Stmt, innerThread: bool, point: ScopeNode, plan: Plan, m1: Mem, m2: Mem)
    requires At(c, w, s) && Encloses(c, w, s, inner, innerThread, point) && GoodPlan(c.pattern, plan)
    requires Sim(c.pattern, After(c, Inner(w, innerThread), inner), plan, m1, m2)
    ensures Sim(c.pattern, w.p + 1, plan, m1, DropAll(m2, Attached(Some(point.id), plan, 0)))
  {
    hide At, Encloses, GoodPlan, Sim, Live;
    var q := After(c, Inner(w, innerThread), inner);
    AttachedApart(c, w, s, inner, innerThread, point, plan, q, m1, m2);
    forall b: nat | Live(c.pattern, w.p + 1, b) ensures Live(c.pattern, q, b) {
      LiveThroughBody(c, w, s, inner, innerThread, point, b);
    }
    SimMove(c.pattern, q, w.p + 1, plan, m1, DropAll(m2, Attached(Some(point.id), plan, 0)));
  }

  lemma {:induction false} LoopSim(c: Context, w: Place, s: Stmt, inner: Stmt, innerThread: bool, point: ScopeNode,
                                   plan: Plan, news: seq<AllocInfo>, x: nat, lo: int, n: nat, env: Env, m1: Mem, m2: Mem)
    requires At(c, w, s) && Encloses(c, w, s, inner, innerThread, point) && PlanFor(c, plan, news)
    requires Sim(c.pattern, w.p + 1, plan, m1, m2) && ExecLoop(inner, x, lo, n, env, m1).Some?
    ensures ExecLoop(Body(point, inner, plan, news), x, lo, n, env, m2).Some?
    ensures Sim(c.pattern, w.p + 1, plan,
                ExecLoop(inner, x, lo, n, env, m1).value, ExecLoop(Body(point, inner, plan, news), x, lo, n, env, m2).value)
    decreases inner, 4, n
  {
    hide At, Encloses, GoodPlan, Sim;
    if n > 0 {
      BodySim(c, w, s, inner, innerThread, point, plan, news, env[x := lo], m1, m2);
      LoopSim(c, w, s, inner, innerThread, point, plan, news, x, lo + 1, n - 1, env,
              Exec(inner, env[x := lo], m1).value, Exec(Body(point, inner, plan, news), env[x := lo], m2).value);
    }
  }

  lemma {:induction false} ExecSimFor(c: Context, w: Place, s: Stmt, plan: Plan, news: seq<AllocInfo>, env: Env, m1: Mem, m2: Mem)
    requires s.For? && At(c, w, s) && PlanFor(c, plan, news)
    requires Sim(c.pattern, w.p, plan, m1, m2) && Exec(s, env, m1).Some?
    ensures Follows(c, w.p, After(c, w, s), plan, s, Mutate(s, plan, news), env, m1, m2)
    decreases s, 0
  {
    hide At, GoodPlan, Sim, AllLive;
    var point: ScopeNode := ScopePoint(s.id, if s.parallel then ParallelLoop else SerialLoop);
    ForEncloses(c, w, s);
    OperandsLive(c, w, s, plan, news);
    EvalSim(s.min, env, c.pattern, w.p, plan, m1, m2);
    EvalSim(s.extent, env, c.pattern, w.p, plan, m1, m2);
    EnterScopeSim(c, w, s, s.body, w.inThread, point, plan, m1, m2);
    var n := Eval(s.extent, env, m1).value;
    LoopSim(c, w, s, s.body, w.inThread, point, plan, news,
            s.loopVar, Eval(s.min, env, m1).value, if n < 0 then 0 else n, env, m1, m2);
    ScopeParts(c, w, s, s.body, w.inThread, point);
    SimBack(c, w, s, w.p + 1, plan, Exec(s, env, m1).value, Exec(Mutate(s, plan, news), env, m2).value);
  }

  lemma {:induction false} ForEncloses(c: Context, w: Place, s: Stmt)
    requires s.For? && At(c, w, s)
    ensures Encloses(c, w, s, s.body, w.inThread, ScopePoint(s.id, if s.parallel then ParallelLoop else SerialLoop))
  {
  }

  lemma {:induction false} AttrEncloses(c: Context, w: Place, s: Stmt)
    requires s.Attr? && At(c, w, s) && !(s.key == ThreadExtent && w.inThread)
    ensures Encloses(c, w, s, s.body, w.inThread || s.key == ThreadExtent, ScopePoint(s.id, Thread))
  {
  }

  lemma {:induction false} IfEncloses(c: Context, w: Place, s: Stmt)
    requires s.IfThenElse? && At(c, w, s)
    ensures Encloses(c, w, s, Block(s.thenCase, s.elseCase), w.inThread, ScopePoint(s.id, Branch))
  {
  }

  lemma {:induction false} IfExec(s: Stmt, plan: Plan, news: seq<AllocInfo>, env: Env, m1: Mem, m2: Mem)
    requires s.IfThenElse? && |news| == |plan.entries| && Exec(s, env, m1).Some?
    ensures Eval(s.cond, env, m1).Some?
    ensures Eval(MutateExpr(s.cond, plan), env, m2) == Eval(s.cond, env, m1) ==>
      var branch := if Eval(s.cond, env, m1).value != 0 then s.thenCase else s.elseCase;
      Exec(s, env, m1) == Exec(branch, env, m1) && Exec(Mutate(s, plan, news), env, m2) == Exec(Mutate(branch, plan, news), env, m2)
  {
  }

  lemma {:induction false} IfCond(c: Context, w: Place, s: Stmt, plan: Plan, news: seq<AllocInfo>, env: Env, m1: Mem, m2: Mem)
    requires s.IfThenElse? && At(c, w, s) && PlanFor(c, plan, news)
    requires Sim(c.pattern, w.p, plan, m1, m2) && Eval(s.cond, env, m1).Some?
    ensures Eval(MutateExpr(s.cond, plan), env, m2) == Eval(s.cond, env, m1)
  {
    hide At, GoodPlan, Sim, AllLive;
    OperandsLive(c, w, s, plan, news);
    EvalSim(s.cond, env, c.pattern, w.p, plan, m1, m2);
  }

  lemma {:induction false} ExecSimIf(c: Context, w: Place, s: Stmt, plan: Plan, news: seq<AllocInfo>, env: Env, m1: Mem, m2: Mem)
    requires s.IfThenElse? && At(c, w, s) && PlanFor(c, plan, news)
    requires Sim(c.pattern, w.p, plan, m1, m2) && Exec(s, env, m1).Some?
    ensures Follows(c, w.p, After(c, w, s), plan, s, Mutate(s, plan, news), env, m1, m2)
    decreases s, 1
  {
    hide Exec, Mutate, At, Encloses, GoodPlan, Sim, AllLive, Linear, LevelsOf, Ids, Used, Allocs;
    IfExec(s, plan, news, env, m1, m2);
    IfCond(c, w, s, plan, news, env, m1, m2);
    var both: Stmt, point: ScopeNode := Block(s.thenCase, s.elseCase), ScopePoint(s.id, Branch);
    IfEncloses(c, w, s);
    EnterScopeSim(c, w, s, both, w.inThread, point, plan, m1, m2);
    AtInner(c, w, s, both, w.inThread, point);
    ScopeParts(c, w, s, both, w.inThread, point);
    BranchSim(c, Inner(w, w.inThread), s, Eval(s.cond, env, m1).value != 0, plan, news, env, m1, m2);
    SimBack(c, w, s, After(c, w, s) - 1, plan, Exec(s, env, m1).value, Exec(Mutate(s, plan, news), env, m2).value);
  }

  /** Either branch, as a part of the two branches one after the other. */
  lemma {:induction false} BranchSim(c: Context, w: Place, s: Stmt, taken: bool, plan: Plan, news: seq<AllocInfo>, env: Env, m1: Mem, m2: Mem)
    requires s.IfThenElse? && At(c, w, Block(s.thenCase, s.elseCase)) && PlanFor(c, plan, news)
    ensures var branch := if taken then s.thenCase else s.elseCase;
      Follows(c, w.p, After(c, w, Block(s.thenCase, s.elseCase)), plan, branch, Mutate(branch, plan, news), env, m1, m2)
    decreases s, 0
  {
    hide At, GoodPlan, Sim;
    var both := Block(s.thenCase, s.elseCase);
    var mid := After(c, w, s.thenCase);
    AtFirst(c, w, both);
    AtRest(c, w, both);
    if taken {
      ExecSim(c, w, s.thenCase, plan, news, env, m1, m2);
      if Sim(c.pattern, w.p, plan, m1, m2) && Exec(s.thenCase, env, m1).Some? {
        SimBack(c, w, both, mid, plan, Exec(s.thenCase, env, m1).value, Exec(Mutate(s.thenCase, plan, news), env, m2).value);
      }
    } else {
      if Sim(c.pattern, w.p, plan, m1, m2) {
        SimBack(c, w, s.thenCase, w.p, plan, m1, m2);
      }
      ExecSim(c, w.(p := mid), s.elseCase, plan, news, env, m1, m2);
    }
  }

  lemma {:induction false} ExecSimAttr(c: Context, w: Place, s: Stmt, plan: Plan, news: seq<AllocInfo>, env: Env, m1: Mem, m2: Mem)
    requires s.Attr? && At(c, w, s) && PlanFor(c, plan, news)
    requires Sim(c.pattern, w.p, plan, m1, m2) && Exec(s, env, m1).Some?
    ensures Follows(c, w.p, After(c, w, s), plan, s, Mutate(s, plan, news), env, m1, m2)
    decreases s, 1
  {
    hide At, GoodPlan, Sim;
    if s.key == ThreadExtent && w.inThread {
      ExecSimNested(c, w, s, plan, news, env, m1, m2);
    } else {
      var innerThread: bool, point: ScopeNode := w.inThread || s.key == ThreadExtent, ScopePoint(s.id, Thread);
      AttrEncloses(c, w, s);
      EnterScopeSim(c, w, s, s.body, innerThread, point, plan, m1, m2);
      BodySim(c, w, s, s.body, innerThread, point, plan, news, env, m1, m2);
      ScopeParts(c, w, s, s.body, innerThread, point);
      SimBack(c, w, s, w.p + 1, plan, Exec(s, env, m1).value, Exec(Mutate(s, plan, news), env, m2).value);
    }
  }

  /** A thread extent inside another one opens no scope, and nothing is attached to it. */
  lemma {:induction false} ExecSimNested(c: Context, w: Place, s: Stmt, plan: Plan, news: seq<AllocInfo>, env: Env, m1: Mem, m2: Mem)
    requires s.Attr? && s.key == ThreadExtent && w.inThread && At(c, w, s) && PlanFor(c, plan, news)
    requires Sim(c.pattern, w.p, plan, m1, m2) && Exec(s, env, m1).Some?
    ensures Follows(c, w.p, After(c, w, s), plan, s, Mutate(s, plan, news), env, m1, m2)
    decreases s, 0
  {
    hide GoodPlan, Sim;
    var q := After(c, w, s);
    DropSim(c.pattern, w.p, w.p, plan, m1, m2, s.id);
    var m := DropAll(m2, Attached(Some(s.id), plan, 0));
    ExecSim(c, w, s.body, plan, news, env, m1, m);
    ExecAttach(Some(s.id), plan, news, 0, Mutate(s.body, plan, news), env, m2);
    forall b: nat | Live(c.pattern, q, b) ensures Live(c.pattern, w.p, b) {
      LiveBack(c, w, s, w.p, b);
    }
    DropSim(c.pattern, w.p, q, plan, Exec(s.body, env, m1).value, Exec(Mutate(s.body, plan, news), env, m).value, s.id);
  }

  // ----- the whole program -----

  /** Every allocation of s has its point. */
  lemma {:induction false} LinearAlloc(s: Stmt, d: nat, inThread: bool, levels: Levels, b: nat)
    requires b in Allocs(s)
    ensures exists e <- Linear(s, d, inThread, levels) :: IsAlloc(e, b)
  {
    match s
    case Block(first, rest) =>
      if b in Allocs(first) {
        LinearAlloc(first, d, inThread, levels, b);
      } else {
        LinearAlloc(rest, d, inThread, levels, b);
      }
    case For(_, _, _, _, _, body) => LinearAlloc(body, d + 1, inThread, levels, b);
    case IfThenElse(_, _, thenCase, elseCase) =>
      if b in Allocs(thenCase) {
        LinearAlloc(thenCase, d + 1, inThread, levels, b);
      } else {
        LinearAlloc(elseCase, d + 1, inThread, levels, b);
      }
    case Allocate(b1, info, body) =>
      if b == b1 {
        var e := StmtEntry(AllocPoint(b, info), [b]);
        assert e in Linear(s, d, inThread, levels) && IsAlloc(e, b);
      } else {
        LinearAlloc(body, d, inThread, levels, b);
      }
    case Attr(_, key, body) =>
      if key == ThreadExtent && inThread {
        LinearAlloc(body, d, inThread, levels, b);
      } else {
        LinearAlloc(body, d + 1, inThread || key == ThreadExtent, levels, b);
      }
  }

  /** What the pass is given: no buffer is allocated twice, nodes are different objects, and buffers are used in scope. */
  predicate WellFormed(s: Stmt) {
    UniqueAllocs(s) && UniqueIds(s) && Scoped(s, Allocs(s), {})
  }

  lemma {:induction false} PatternAllocs(s: Stmt, b: nat)
    ensures AllocBefore(PatternOf(s), |PatternOf(s)|, b) <==> b in Allocs(s)
  {
    var levels := LevelMap(s, 0, false);
    LinearPoints(s, 0, false, levels);
    if b in Allocs(s) {
      LinearAlloc(s, 0, false, levels, b);
      var e :| e in Linear(s, 0, false, levels) && IsAlloc(e, b);
      var i :| 0 <= i < |PatternOf(s)| && PatternOf(s)[i] == e;
    }
  }

  lemma {:induction false} AtTop(s: Stmt)
    requires WellFormed(s)
    ensures At(Context(PatternOf(s), LevelMap(s, 0, false)), Place(0, 0, false, {}), s)
  {
    LevelMapKeys(s, 0, false);
    LevelMapRight(s, 0, false, LevelMap(s, 0, false));
    assert PatternOf(s)[0..|PatternOf(s)|] == PatternOf(s);
  }

  /** The rewritten program, with the storage of the outermost scope around it. */
  function Rewritten(s: Stmt, plan: Plan, news: seq<AllocInfo>): Stmt
    requires |news| == |plan.entries|
  {
    MakeAttach(None, plan, news, 0, Mutate(s, plan, news))
  }

  /** The same contents in every buffer outside of bs. */
  ghost predicate SameOutside(m1: Mem, m2: Mem, bs: set<nat>) {
    forall c: (nat, int) | c.0 !in bs :: (c in m1 <==> c in m2) && (c in m1 ==> m1[c] == m2[c])
  }

  /** r does what s does to every buffer that s does not allocate itself. */
  ghost predicate SameEffect(s: Stmt, r: Stmt) {
    forall env: Env, mem: Mem | Exec(s, env, mem).Some? ::
      Exec(r, env, mem).Some? && SameOutside(Exec(s, env, mem).value, Exec(r, env, mem).value, Allocs(s))
  }

  lemma {:induction false} AttachedAllocs(pattern: seq<StmtEntry>, plan: Plan, attach: Option<nat>, v: nat)
    requires GoodPlan(pattern, plan) && v in Attached(attach, plan, 0)
    ensures v in plan.allocMap
  {
    AttachedEntry(attach, plan, 0, v);
    var j :| 0 <= j < |plan.entries| && HoldsVar(plan.entries[j], attach, v);
    assert plan.entries[j].allocs[0] in plan.entries[j].allocs;
  }

  lemma {:induction false} PlanFits(s: Stmt, plan: Plan, news: seq<AllocInfo>)
    requires WellFormed(s) && GoodPlan(PatternOf(s), plan) && |news| == |plan.entries|
    ensures plan.allocMap.Keys == Allocs(s) && PlanFor(Context(PatternOf(s), LevelMap(s, 0, false)), plan, news)
  {
    LevelMapKeys(s, 0, false);
    forall b: nat ensures b in plan.allocMap <==> b in Allocs(s) {
      PatternAllocs(s, b);
    }
  }

  lemma {:induction false} StartSim(pattern: seq<StmtEntry>, plan: Plan, mem: Mem)
    requires GoodPlan(pattern, plan)
    ensures Sim(pattern, 0, plan, mem, DropAll(mem, Attached(None, plan, 0)))
  {
    forall v <- Attached(None, plan, 0) ensures v in plan.allocMap {
      AttachedAllocs(pattern, plan, None, v);
    }
  }

  lemma {:induction false} EndSim(pattern: seq<StmtEntry>, p: nat, plan: Plan, m1: Mem, m2: Mem)
    requires GoodPlan(pattern, plan) && Sim(pattern, p, plan, m1, m2)
    ensures SameOutside(m1, DropAll(m2, Attached(None, plan, 0)), plan.allocMap.Keys)
  {
    forall v <- Attached(None, plan, 0) ensures v in plan.allocMap {
      AttachedAllocs(pattern, plan, None, v);
    }
  }

  lemma {:induction false} RewriteSoundFrom(s: Stmt, plan: Plan, news: seq<AllocInfo>, env: Env, mem: Mem)
    requires WellFormed(s) && GoodPlan(PatternOf(s), plan) && |news| == |plan.entries|
    requires Exec(s, env, mem).Some?
    ensures var r := Exec(Rewritten(s, plan, news), env, mem);
      r.Some? && SameOutside(Exec(s, env, mem).value, r.value, Allocs(s))
  {
    hide At, GoodPlan, Sim, SameOutside, WellFormed;
    var c, w := Context(PatternOf(s), LevelMap(s, 0, false)), Place(0, 0, false, {});
    var m := DropAll(mem, Attached(None, plan, 0));
    PlanFits(s, plan, news);
    AtTop(s);
    StartSim(c.pattern, plan, mem);
    ExecSim(c, w, s, plan, news, env, mem, m);
    ExecAttach(None, plan, news, 0, Mutate(s, plan, news), env, mem);
    EndSim(c.pattern, After(c, w, s), plan, Exec(s, env, mem).value, Exec(Mutate(s, plan, news), env, m).value);
  }

  /** Sharing storage according to a good plan keeps the meaning of the program: wherever the original reads
      only what it has written, the rewritten program runs and leaves the same contents in every outer buffer. */
  lemma {:induction false} RewriteSound(s: Stmt, plan: Plan, news: seq<AllocInfo>)
    requires WellFormed(s) && GoodPlan(PatternOf(s), plan) && |news| == |plan.entries|
    ensures SameEffect(s, Rewritten(s, plan, news))
  {
    forall env: Env, mem: Mem | Exec(s, env, mem).Some?
      ensures var r := Exec(Rewritten(s, plan, news), env, mem);
        r.Some? && SameOutside(Exec(s, env, mem).value, r.value, Allocs(s))
    {
      RewriteSoundFrom(s, plan, news, env, mem);
    }
  }

  // ----- the size of a merged allocation -----

  function EvalExtent(e: Extent, env: map<nat, nat>): nat {
    match e
    case Const(n) => n
    case Symbolic(x) => if x in env then env[x] else 0
    case Times(a, b) => EvalExtent(a, env) * EvalExtent(b, env)
    case CeilDiv(a, m, d) => if d == 0 then 0 else (EvalExtent(a, env) * m + d - 1) / d
    case Larger(a, b) => if EvalExtent(a, env) >= EvalExtent(b, env) then EvalExtent(a, env) else EvalExtent(b, env)
  }

  function Product(extents: seq<Extent>, env: map<nat, nat>): nat {
    if extents == [] then 1 else EvalExtent(extents[0], env) * Product(extents[1..], env)
  }

  /** The number of scalar elements of an allocation. */
  function Elements(info: AllocInfo, env: map<nat, nat>): nat {
    Product(info.extents, env) * info.lanes
  }
}
