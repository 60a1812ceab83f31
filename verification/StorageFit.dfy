/** The rewritten program itself: every access is inside an allocation that fits its buffer, and no storage is allocated twice
    (src/pass/storage_rewrite.cc, StoragePlanRewriter::Rewrite, PrepareNewAlloc and MakeAttach). */
module StorageFit {
  import opened Wrappers
  import opened StorageIR
  import opened StorageRewrite
  import opened StoragePlanner

  // ----- what the rewritten program must be -----

  /** An allocation around a place, and whether it is inside a parallel loop or a thread scope. */
  datatype Home = Home(info: AllocInfo, inside: bool)

  type Homes = map<nat, Home>

  /** The same memory and element type, and at least as many elements, whatever the symbolic extents are. */
  ghost predicate Holds(have: AllocInfo, need: AllocInfo) {
    have.rank == need.rank && have.elemType == need.elemType && forall env: map<nat, nat> :: Elements(need, env) <= Elements(have, env)
  }

  /** An access to b became one to c: storage that is allocated around it where b was, in a thread scope or outside, and holds b; other
      buffers stay. */
  ghost predicate Housed(b: nat, c: nat, mine: Homes, theirs: Homes) {
    if b in mine then c in theirs && theirs[c].inside == mine[b].inside && Holds(theirs[c].info, mine[b].info)
    else c == b && b !in theirs
  }

  ghost predicate ExprHoused(e: Expr, r: Expr, mine: Homes, theirs: Homes) {
    match e
    case Load(b, index) => r.Load? && Housed(b, r.buffer, mine, theirs) && ExprHoused(index, r.index, mine, theirs)
    case Bin(op, a, b) => r.Bin? && r.op == op && ExprHoused(a, r.a, mine, theirs) && ExprHoused(b, r.b, mine, theirs)
    case _ => r == e
  }

  /** r is s with other allocations, which house all accesses. mine and theirs are the allocations around the two. */
  ghost predicate StmtHoused(s: Stmt, r: Stmt, mine: Homes, theirs: Homes, inside: bool)
    decreases s, r
  {
    if r.Allocate? then StmtHoused(s, r.body, mine, theirs[r.buffer := Home(r.info, inside)], inside)
    else
      match s
      case Allocate(b, info, body) => StmtHoused(body, r, mine[b := Home(info, inside)], theirs, inside)
      case Store(b, value, index) =>
        r.Store? && Housed(b, r.buffer, mine, theirs) && ExprHoused(value, r.value, mine, theirs) && ExprHoused(index, r.index, mine, theirs)
      case Evaluate(e) => r.Evaluate? && ExprHoused(e, r.e, mine, theirs)
      case Block(first, rest) => r.Block? && StmtHoused(first, r.first, mine, theirs, inside) && StmtHoused(rest, r.rest, mine, theirs, inside)
      case For(id, x, min, extent, parallel, body) =>
        && r.For? && r.id == id && r.loopVar == x && r.parallel == parallel
        && ExprHoused(min, r.min, mine, theirs) && ExprHoused(extent, r.extent, mine, theirs)
        && StmtHoused(body, r.body, mine, theirs, inside || parallel)
      case IfThenElse(id, cond, thenCase, elseCase) =>
        && r.IfThenElse? && r.id == id && ExprHoused(cond, r.cond, mine, theirs)
        && StmtHoused(thenCase, r.thenCase, mine, theirs, inside) && StmtHoused(elseCase, r.elseCase, mine, theirs, inside)
      case Attr(id, key, body) => r.Attr? && r.id == id && r.key == key && StmtHoused(body, r.body, mine, theirs, true)
  }

  // ----- thread scopes in the pattern -----

  lemma {:induction false} FitsLess(pattern: seq<StmtEntry>, p: nat, q: nat)
    requires FitsBefore(pattern, q) && p <= q
    ensures FitsBefore(pattern, p)
  {
  }

  /** A scope node leaves the thread scope as it finds it. */
  lemma {:induction false} ScopeTwice(cur: Option<nat>, e: StmtEntry, f: StmtEntry)
    requires e.point == f.point && (e.point.ScopePoint? && e.point.kind == Thread ==> cur in {None, Some(e.point.id)})
    ensures e.point.ScopePoint? ==> ScopeStep(ScopeStep(cur, e), f) == cur
  {
  }

  /** After a statement the thread scope is the one before it. */
  lemma {:induction false} ScopeBack(c: Context, w: Place, s: Stmt)
    requires At(c, w, s) && FitsBefore(c.pattern, After(c, w, s))
    ensures ScopeAt(c.pattern, After(c, w, s)) == ScopeAt(c.pattern, w.p)
    decreases s, 1
  {
    hide At, ScopeAt, FitsBefore;
    match s
    case Block(first, rest) =>
      AtFirst(c, w, s);
      AtRest(c, w, s);
      FitsLess(c.pattern, After(c, w, first), After(c, w, s));
      ScopeBack(c, w, first);
      ScopeBack(c, w.(p := After(c, w, first)), rest);
    case For(id, _, _, _, parallel, body) =>
      ForEncloses(c, w, s);
      ScopeBackThrough(c, w, s, body, w.inThread, ScopePoint(id, if parallel then ParallelLoop else SerialLoop));
    case IfThenElse(id, _, thenCase, elseCase) =>
      IfEncloses(c, w, s);
      ScopeBackBranches(c, w, s);
    case Allocate(_, _, body) =>
      AtAllocated(c, w, s);
      ScopeBack(c, w.(p := w.p + 1, inScope := w.inScope + {s.buffer}), body);
      NoScope(c.pattern, w.p);
    case Attr(id, key, body) =>
      if key == ThreadExtent && w.inThread {
        AtNested(c, w, s);
        ScopeBack(c, w, body);
      } else {
        AttrEncloses(c, w, s);
        ScopeBackThrough(c, w, s, body, w.inThread || key == ThreadExtent, ScopePoint(id, Thread));
      }
    case _ => LeafScope(c, w, s);
  }

  lemma {:induction false} NoScope(pattern: seq<StmtEntry>, p: nat)
    requires p < |pattern| && !pattern[p].point.ScopePoint?
    ensures ScopeAt(pattern, p + 1) == ScopeAt(pattern, p)
  {
  }

  lemma {:induction false} LeafScope(c: Context, w: Place, s: Stmt)
    requires At(c, w, s) && (s.Store? || s.Evaluate?)
    ensures ScopeAt(c.pattern, After(c, w, s)) == ScopeAt(c.pattern, w.p)
  {
    if Part(c, w, s) != [] {
      assert c.pattern[w.p] == c.pattern[w.p..After(c, w, s)][0];
    }
  }

  /** A thread extent inside another one is no point of the pattern. */
  lemma {:induction false} AtNested(c: Context, w: Place, s: Stmt)
    requires s.Attr? && s.key == ThreadExtent && w.inThread && At(c, w, s)
    ensures At(c, w, s.body) && After(c, w, s.body) == After(c, w, s)
  {
  }

  lemma {:induction false} ScopeBackThrough(c: Context, w: Place, s: Stmt, inner: Stmt, innerThread: bool, point: ScopeNode)
    requires At(c, w, s) && Encloses(c, w, s, inner, innerThread, point) && FitsBefore(c.pattern, After(c, w, s)) && inner < s
    ensures ScopeAt(c.pattern, After(c, w, s)) == ScopeAt(c.pattern, w.p)
    decreases s, 0
  {
    hide At, Encloses;
    ScopeParts(c, w, s, inner, innerThread, point);
    AtInner(c, w, s, inner, innerThread, point);
    ScopeBack(c, Inner(w, innerThread), inner);
    ScopeClosed(c, w, s, inner, innerThread, point);
  }

  lemma {:induction false} ScopeClosed(c: Context, w: Place, s: Stmt, inner: Stmt, innerThread: bool, point: ScopeNode)
    requires At(c, w, s) && Encloses(c, w, s, inner, innerThread, point) && FitsBefore(c.pattern, After(c, w, s))
    requires ScopeAt(c.pattern, After(c, w, s) - 1) == ScopeAt(c.pattern, w.p + 1)
    ensures ScopeAt(c.pattern, After(c, w, s)) == ScopeAt(c.pattern, w.p)
  {
    hide At, Encloses;
    ScopeParts(c, w, s, inner, innerThread, point);
    var q := After(c, w, s);
    assert ScopeFits(c.pattern, w.p);
    ScopeTwice(ScopeAt(c.pattern, w.p), c.pattern[w.p], c.pattern[q - 1]);
  }

  lemma {:induction false} ScopeBackBranches(c: Context, w: Place, s: Stmt)
    requires s.IfThenElse? && At(c, w, s) && Encloses(c, w, s, Block(s.thenCase, s.elseCase), w.inThread, ScopePoint(s.id, Branch))
    requires FitsBefore(c.pattern, After(c, w, s))
    ensures ScopeAt(c.pattern, After(c, w, s)) == ScopeAt(c.pattern, w.p)
    decreases s, 0
  {
    hide At, Encloses;
    var both := Block(s.thenCase, s.elseCase);
    var inner := Inner(w, w.inThread);
    ScopeParts(c, w, s, both, w.inThread, ScopePoint(s.id, Branch));
    AtInner(c, w, s, both, w.inThread, ScopePoint(s.id, Branch));
    AtFirst(c, inner, both);
    AtRest(c, inner, both);
    ScopeBack(c, inner, s.thenCase);
    ScopeBack(c, inner.(p := After(c, inner, s.thenCase)), s.elseCase);
    ScopeClosed(c, w, s, both, w.inThread, ScopePoint(s.id, Branch));
  }

  // ----- the patterns of programs are regular -----

  /** Where a node opens a thread scope, it has no earlier point. */
  lemma {:induction false} OpenedOnce(c: Context, w: Place, s: Stmt, i: nat, id: nat)
    requires At(c, w, s) && w.p <= i < After(c, w, s) && FitsBefore(c.pattern, i) && i < |c.pattern| && OpensAt(c.pattern, i, id)
    ensures NoIdsBefore(c.pattern, i, {id})
    decreases s, 1
  {
    hide At, ScopeAt, FitsBefore, NoIdsBefore;
    match s
    case Block(first, rest) =>
      AtFirst(c, w, s);
      AtRest(c, w, s);
      if i < After(c, w, first) {
        OpenedOnce(c, w, first, i, id);
      } else {
        OpenedOnce(c, w.(p := After(c, w, first)), rest, i, id);
      }
    case For(id1, _, _, _, parallel, body) =>
      ForEncloses(c, w, s);
      OpenedIn(c, w, s, body, w.inThread, ScopePoint(id1, if parallel then ParallelLoop else SerialLoop), i, id);
    case IfThenElse(_, _, _, _) =>
      IfEncloses(c, w, s);
      OpenedInBranches(c, w, s, i, id);
    case Allocate(_, _, body) =>
      AtAllocated(c, w, s);
      assert i != w.p;
      OpenedOnce(c, w.(p := w.p + 1, inScope := w.inScope + {s.buffer}), body, i, id);
    case Attr(id1, key, body) =>
      if key == ThreadExtent && w.inThread {
        AtNested(c, w, s);
        OpenedOnce(c, w, body, i, id);
      } else {
        AttrEncloses(c, w, s);
        OpenedIn(c, w, s, body, w.inThread || key == ThreadExtent, ScopePoint(id1, Thread), i, id);
      }
    case _ => LeafOpens(c, w, s, i, id);
  }

  lemma {:induction false} LeafOpens(c: Context, w: Place, s: Stmt, i: nat, id: nat)
    requires At(c, w, s) && (s.Store? || s.Evaluate?) && w.p <= i < After(c, w, s) && i < |c.pattern|
    ensures !OpensAt(c.pattern, i, id)
  {
    assert c.pattern[i] == c.pattern[w.p..After(c, w, s)][i - w.p];
  }

  /** A node opens its scope at its first point only. */
  lemma {:induction false} OpenedAtEnds(c: Context, w: Place, s: Stmt, inner: Stmt, innerThread: bool, point: ScopeNode, i: nat, id: nat)
    requires At(c, w, s) && Encloses(c, w, s, inner, innerThread, point) && (i == w.p || i == After(c, w, s) - 1) && i < |c.pattern|
    requires FitsBefore(c.pattern, i) && OpensAt(c.pattern, i, id)
    requires i != w.p ==> ScopeAt(c.pattern, i) == ScopeAt(c.pattern, w.p + 1)
    ensures NoIdsBefore(c.pattern, i, {id})
  {
    hide Encloses;
    ScopeParts(c, w, s, inner, innerThread, point);
    EnclosesId(c, w, s, inner, innerThread, point);
    if i != w.p {
      assert ScopeFits(c.pattern, w.p);
      assert ScopeAt(c.pattern, w.p) == Some(point.id);
      var j := OpenNode(c.pattern, w.p, point.id);
      assert false;
    }
  }

  lemma {:induction false} OpenedIn(c: Context, w: Place, s: Stmt, inner: Stmt, innerThread: bool, point: ScopeNode, i: nat, id: nat)
    requires At(c, w, s) && Encloses(c, w, s, inner, innerThread, point) && inner < s
    requires w.p <= i < After(c, w, s) && FitsBefore(c.pattern, i) && i < |c.pattern| && OpensAt(c.pattern, i, id)
    ensures NoIdsBefore(c.pattern, i, {id})
    decreases s, 0
  {
    hide At, Encloses, FitsBefore, OpensAt;
    ScopeParts(c, w, s, inner, innerThread, point);
    AtInner(c, w, s, inner, innerThread, point);
    if w.p < i < After(c, w, s) - 1 {
      OpenedOnce(c, Inner(w, innerThread), inner, i, id);
    } else {
      if i != w.p {
        ScopeBack(c, Inner(w, innerThread), inner);
      }
      OpenedAtEnds(c, w, s, inner, innerThread, point, i, id);
    }
  }

  lemma {:induction false} OpenedInBranches(c: Context, w: Place, s: Stmt, i: nat, id: nat)
    requires s.IfThenElse? && At(c, w, s) && Encloses(c, w, s, Block(s.thenCase, s.elseCase), w.inThread, ScopePoint(s.id, Branch))
    requires w.p <= i < After(c, w, s) && FitsBefore(c.pattern, i) && i < |c.pattern| && OpensAt(c.pattern, i, id)
    ensures NoIdsBefore(c.pattern, i, {id})
    decreases s, 0
  {
    hide At, Encloses, FitsBefore;
    var both, inner := Block(s.thenCase, s.elseCase), Inner(w, w.inThread);
    ScopeParts(c, w, s, both, w.inThread, ScopePoint(s.id, Branch));
    AtInner(c, w, s, both, w.inThread, ScopePoint(s.id, Branch));
    AtFirst(c, inner, both);
    AtRest(c, inner, both);
    assert i != w.p && i != After(c, w, s) - 1;
    if i < After(c, inner, s.thenCase) {
      OpenedOnce(c, inner, s.thenCase, i, id);
    } else {
      OpenedOnce(c, inner.(p := After(c, inner, s.thenCase)), s.elseCase, i, id);
    }
  }

  lemma {:induction false} LinearTouches(s: Stmt, d: nat, inThread: bool, levels: Levels)
    ensures forall e <- Linear(s, d, inThread, levels) | e.point.AllocPoint? :: e.point.buffer in e.touched
  {
    match s
    case Block(first, rest) =>
      LinearTouches(first, d, inThread, levels);
      LinearTouches(rest, d, inThread, levels);
    case For(_, _, _, _, _, body) => LinearTouches(body, d + 1, inThread, levels);
    case IfThenElse(_, _, thenCase, elseCase) =>
      LinearTouches(thenCase, d + 1, inThread, levels);
      LinearTouches(elseCase, d + 1, inThread, levels);
    case Allocate(_, _, body) => LinearTouches(body, d, inThread, levels);
    case Attr(_, key, body) =>
      LinearTouches(body, d, inThread, levels);
      LinearTouches(body, d + 1, inThread || key == ThreadExtent, levels);
    case _ =>
  }

  lemma {:induction false} PatternRegular(s: Stmt)
    requires WellFormed(s)
    ensures Regular(PatternOf(s))
  {
    hide At, OpensAt, FitsBefore, NoIdsBefore;
    var c, w := Context(PatternOf(s), LevelMap(s, 0, false)), Place(0, 0, false, {});
    AtTop(s);
    LinearTouches(s, 0, false, LevelMap(s, 0, false));
    forall i | 0 <= i < |c.pattern| && c.pattern[i].point.AllocPoint? ensures c.pattern[i].point.buffer in c.pattern[i].touched {
      assert c.pattern[i] in c.pattern;
    }
    forall i, id | 0 <= i < |c.pattern| && FitsBefore(c.pattern, i) && OpensAt(c.pattern, i, id) ensures NoIdsBefore(c.pattern, i, {id}) {
      OpenedOnce(c, w, s, i, id);
    }
  }

  /** All points of one scope node are of one kind. */
  ghost predicate KindsFit(es: seq<StmtEntry>) {
    forall e <- es, f <- es | e.point.ScopePoint? && f.point.ScopePoint? && e.point.id == f.point.id :: e.point == f.point
  }

  ghost predicate IdsWithin(es: seq<StmtEntry>, ids: set<nat>) {
    forall e <- es | e.point.ScopePoint? :: e.point.id in ids
  }

  lemma {:induction false} KindsAppend(es: seq<StmtEntry>, fs: seq<StmtEntry>, ids: set<nat>, jds: set<nat>)
    requires KindsFit(es) && KindsFit(fs) && IdsWithin(es, ids) && IdsWithin(fs, jds) && ids !! jds
    ensures KindsFit(es + fs)
  {
  }

  lemma {:induction false} KindsScope(point: ScopeNode, inner: seq<StmtEntry>, touched: seq<nat>, ids: set<nat>)
    requires KindsFit(inner) && IdsWithin(inner, ids) && point.id !in ids
    ensures KindsFit(LinearScope(point, inner, touched))
  {
  }

  lemma {:induction false} LinearKinds(s: Stmt, d: nat, inThread: bool, levels: Levels)
    requires UniqueIds(s)
    ensures KindsFit(Linear(s, d, inThread, levels)) && IdsWithin(Linear(s, d, inThread, levels), Ids(s))
    decreases s
  {
    hide KindsFit, Filter;
    LinearPoints(s, d, inThread, levels);
    match s
    case Block(first, rest) =>
      LinearKinds(first, d, inThread, levels);
      LinearKinds(rest, d, inThread, levels);
      KindsAppend(Linear(first, d, inThread, levels), Linear(rest, d, inThread, levels), Ids(first), Ids(rest));
    case For(id, _, _, _, parallel, body) =>
      LinearKinds(body, d + 1, inThread, levels);
      KindsScope(ScopePoint(id, if parallel then ParallelLoop else SerialLoop), Linear(body, d + 1, inThread, levels), Filter(Accessed(s), levels, d), Ids(body));
    case IfThenElse(id, _, thenCase, elseCase) =>
      var inner1, inner2 := Linear(thenCase, d + 1, inThread, levels), Linear(elseCase, d + 1, inThread, levels);
      LinearKinds(thenCase, d + 1, inThread, levels);
      LinearKinds(elseCase, d + 1, inThread, levels);
      KindsAppend(inner1, inner2, Ids(thenCase), Ids(elseCase));
      KindsScope(ScopePoint(id, Branch), inner1 + inner2, Filter(Accessed(s), levels, d), Ids(thenCase) + Ids(elseCase));
    case Allocate(b, info, body) =>
      LinearKinds(body, d, inThread, levels);
      OnePoint(StmtEntry(AllocPoint(b, info), [b]));
      KindsAppend([StmtEntry(AllocPoint(b, info), [b])], Linear(body, d, inThread, levels), {}, Ids(body));
    case Attr(id, key, body) =>
      if key == ThreadExtent && inThread {
        LinearKinds(body, d, inThread, levels);
      } else {
        LinearKinds(body, d + 1, inThread || key == ThreadExtent, levels);
        KindsScope(ScopePoint(id, Thread), Linear(body, d + 1, inThread || key == ThreadExtent, levels), Filter(Accessed(s), levels, d), Ids(body));
      }
    case _ =>
      if Linear(s, d, inThread, levels) == [] {
        NoPoint();
      } else {
        OnePoint(StmtEntry(LeafPoint, Filter(Accessed(s), levels, d)));
      }
  }

  lemma {:induction false} OnePoint(e: StmtEntry)
    ensures KindsFit([e])
  {
  }

  lemma {:induction false} NoPoint()
    ensures KindsFit([])
  {
  }

  /** The node of an open thread scope is a parallel loop or a thread node before. */
  lemma {:induction false} OpenNode(pattern: seq<StmtEntry>, p: nat, id: nat) returns (j: nat)
    requires p <= |pattern| && ScopeAt(pattern, p) == Some(id)
    ensures j < p && pattern[j].point in {ScopePoint(id, ParallelLoop), ScopePoint(id, Thread)}
  {
    if ScopeAt(pattern, p - 1) == Some(id) {
      j := OpenNode(pattern, p - 1, id);
    } else {
      j := p - 1;
    }
  }

  // ----- the allocations around a place -----

  /** theirs with the storage attached to a scope, from entry k on. */
  function WithAttached(attach: Option<nat>, plan: Plan, news: seq<AllocInfo>, k: nat, theirs: Homes, inside: bool): Homes
    requires |news| == |plan.entries|
    decreases |plan.entries| - k
  {
    if k >= |plan.entries| then theirs
    else if plan.entries[k].attach == attach && plan.entries[k].allocs != [] then
      WithAttached(attach, plan, news, k + 1, theirs[plan.entries[k].allocs[0].buffer := Home(news[k], inside)], inside)
    else WithAttached(attach, plan, news, k + 1, theirs, inside)
  }

  lemma {:induction false} AllocateHoused(s: Stmt, v: nat, info: AllocInfo, r: Stmt, mine: Homes, theirs: Homes, inside: bool)
    requires StmtHoused(s, r, mine, theirs[v := Home(info, inside)], inside)
    ensures StmtHoused(s, Allocate(v, info, r), mine, theirs, inside)
  {
  }

  lemma {:induction false} AttachHoused(s: Stmt, attach: Option<nat>, plan: Plan, news: seq<AllocInfo>, k: nat, body: Stmt, mine: Homes, theirs: Homes, inside: bool)
    requires |news| == |plan.entries|
    requires StmtHoused(s, body, mine, WithAttached(attach, plan, news, k, theirs, inside), inside)
    ensures StmtHoused(s, MakeAttach(attach, plan, news, k, body), mine, theirs, inside)
    decreases |plan.entries| - k
  {
    hide StmtHoused;
    if k < |plan.entries| {
      if plan.entries[k].attach == attach && plan.entries[k].allocs != [] {
        AttachHoused(s, attach, plan, news, k + 1, body, mine, theirs[plan.entries[k].allocs[0].buffer := Home(news[k], inside)], inside);
        AllocateHoused(s, plan.entries[k].allocs[0].buffer, news[k], MakeAttach(attach, plan, news, k + 1, body), mine, theirs, inside);
      } else {
        AttachHoused(s, attach, plan, news, k + 1, body, mine, theirs, inside);
      }
    }
  }

  /** v is the storage of its entry, allocated as the entry says. */
  ghost predicate TheirsRight(plan: Plan, news: seq<AllocInfo>, theirs: Homes, v: nat) {
    && v in theirs && v in plan.allocMap && plan.allocMap[v] < |plan.entries| && |news| == |plan.entries|
    && plan.entries[plan.allocMap[v]].allocs != [] && plan.entries[plan.allocMap[v]].allocs[0].buffer == v
    && theirs[v] == Home(news[plan.allocMap[v]], plan.entries[plan.allocMap[v]].attach.Some?)
  }

  ghost predicate HasStorage(plan: Plan, theirs: Homes, k: nat)
    requires k < |plan.entries|
  {
    plan.entries[k].allocs != [] && plan.entries[k].allocs[0].buffer in theirs
  }

  ghost predicate EntriesNamed(plan: Plan) {
    forall k | 0 <= k < |plan.entries| ::
      && plan.entries[k].allocs != []
      && plan.entries[k].allocs[0].buffer in plan.allocMap && plan.allocMap[plan.entries[k].allocs[0].buffer] == k
  }

  lemma {:induction false} PlanNamed(pattern: seq<StmtEntry>, plan: Plan)
    requires GoodPlan(pattern, plan)
    ensures EntriesNamed(plan)
  {
    forall k | 0 <= k < |plan.entries|
      ensures plan.entries[k].allocs[0].buffer in plan.allocMap && plan.allocMap[plan.entries[k].allocs[0].buffer] == k
    {
      assert plan.entries[k].allocs[0] in plan.entries[k].allocs;
    }
  }

  lemma {:induction false} AttachedThere(attach: Option<nat>, plan: Plan, news: seq<AllocInfo>, k: nat, theirs: Homes, inside: bool)
    requires EntriesNamed(plan) && |news| == |plan.entries| && forall v <- theirs :: TheirsRight(plan, news, theirs, v)
    requires inside == attach.Some? || forall j | k <= j < |plan.entries| :: plan.entries[j].attach != attach
    ensures var theirs1 := WithAttached(attach, plan, news, k, theirs, inside);
      && (forall v <- theirs1 :: TheirsRight(plan, news, theirs1, v))
      && theirs.Keys <= theirs1.Keys
      && (forall j | k <= j < |plan.entries| && plan.entries[j].attach == attach :: HasStorage(plan, theirs1, j))
    decreases |plan.entries| - k
  {
    if k < |plan.entries| {
      if plan.entries[k].attach == attach {
        var theirs1 := theirs[plan.entries[k].allocs[0].buffer := Home(news[k], inside)];
        forall v <- theirs1 ensures TheirsRight(plan, news, theirs1, v) {
          assert v in theirs ==> TheirsRight(plan, news, theirs, v);
        }
        AttachedThere(attach, plan, news, k + 1, theirs1, inside);
      } else {
        AttachedThere(attach, plan, news, k + 1, theirs, inside);
      }
    }
  }

  /** b is allocated before p in the current thread scope or outside of all, as home says. */
  ghost predicate MineRight(pattern: seq<StmtEntry>, p: nat, b: nat, home: Home) {
    exists i: nat :: i < p && i < |pattern| && AllocatedHere(pattern, i, p, b, home)
  }

  predicate AllocatedHere(pattern: seq<StmtEntry>, i: nat, p: nat, b: nat, home: Home)
    requires i < p && i < |pattern|
  {
    pattern[i].point == AllocPoint(b, home.info) && p <= |pattern| && ScopeAt(pattern, i) in {None, ScopeAt(pattern, p)} && home.inside == ScopeAt(pattern, i).Some?
  }

  /** What is allocated around a place in the two programs. */
  ghost predicate Around(c: Context, w: Place, plan: Plan, news: seq<AllocInfo>, mine: Homes, theirs: Homes, inside: bool) {
    && w.p <= |c.pattern| && mine.Keys == w.inScope && inside == ScopeAt(c.pattern, w.p).Some? && (w.inThread ==> inside)
    && (forall b <- mine :: MineRight(c.pattern, w.p, b, mine[b]))
    && (forall v <- theirs :: TheirsRight(plan, news, theirs, v))
    && (forall k | 0 <= k < |plan.entries| && plan.entries[k].attach in {None, ScopeAt(c.pattern, w.p)} :: HasStorage(plan, theirs, k))
  }

  /** A plan with new allocations that hold the buffers of their entries. */
  ghost predicate FitPlan(c: Context, plan: Plan, news: seq<AllocInfo>) {
    && PlanFor(c, plan, news) && KindsFit(c.pattern) && FitsBefore(c.pattern, |c.pattern|)
    && forall k, a | 0 <= k < |news| && a in plan.entries[k].allocs :: Holds(news[k], a.info)
  }

  /** The storage of a buffer in scope is allocated around, and holds it. */
  lemma {:induction false} AccessHoused(c: Context, w: Place, plan: Plan, news: seq<AllocInfo>, mine: Homes, theirs: Homes, inside: bool, b: nat)
    requires FitPlan(c, plan, news) && Around(c, w, plan, news, mine, theirs, inside) && (b in c.levels ==> b in w.inScope)
    ensures Housed(b, AllocVar(plan, b), mine, theirs)
  {
    hide Holds, KindsFit, FitsBefore;
    if b in mine {
      var i: nat :| i < w.p && i < |c.pattern| && AllocatedHere(c.pattern, i, w.p, b, mine[b]);
      assert IsAlloc(c.pattern[i], b) && b in plan.allocMap by {
        assert AllocBefore(c.pattern, |c.pattern|, b);
      }
      var k := plan.allocMap[b];
      assert Alloc(b, mine[b].info) in plan.entries[k].allocs;
      assert HasStorage(plan, theirs, k);
      assert TheirsRight(plan, news, theirs, AllocVar(plan, b));
      assert plan.entries[k].allocs[0] in plan.entries[k].allocs;
    } else {
      assert b !in plan.allocMap;
      assert b in theirs ==> TheirsRight(plan, news, theirs, b);
    }
  }

  lemma {:induction false} AllHoused(e: Expr, c: Context, w: Place, plan: Plan, news: seq<AllocInfo>, mine: Homes, theirs: Homes, inside: bool)
    requires FitPlan(c, plan, news) && Around(c, w, plan, news, mine, theirs, inside) && AllIn(ReadsOf(e), c.levels.Keys, w.inScope)
    ensures ExprHoused(e, MutateExpr(e, plan), mine, theirs)
  {
    hide FitPlan, Around, Housed;
    match e
    case Load(b, index) =>
      assert b in ReadsOf(e);
      AccessHoused(c, w, plan, news, mine, theirs, inside, b);
      AllHoused(index, c, w, plan, news, mine, theirs, inside);
    case Bin(_, a, b) =>
      AllHoused(a, c, w, plan, news, mine, theirs, inside);
      AllHoused(b, c, w, plan, news, mine, theirs, inside);
    case _ =>
  }

  /** After a statement the same is allocated around. */
  lemma {:induction false} AroundNext(c: Context, w: Place, q: nat, plan: Plan, news: seq<AllocInfo>, mine: Homes, theirs: Homes, inside: bool)
    requires Around(c, w, plan, news, mine, theirs, inside) && w.p <= q <= |c.pattern| && ScopeAt(c.pattern, q) == ScopeAt(c.pattern, w.p)
    ensures Around(c, w.(p := q), plan, news, mine, theirs, inside)
  {
    hide ScopeAt, TheirsRight, HasStorage;
    forall b <- mine ensures MineRight(c.pattern, q, b, mine[b]) {
      assert MineRight(c.pattern, w.p, b, mine[b]);
      var i: nat :| i < w.p && i < |c.pattern| && AllocatedHere(c.pattern, i, w.p, b, mine[b]);
      assert AllocatedHere(c.pattern, i, q, b, mine[b]);
    }
  }

  lemma {:induction false} AroundAllocated(c: Context, w: Place, s: Stmt, plan: Plan, news: seq<AllocInfo>, mine: Homes, theirs: Homes, inside: bool)
    requires s.Allocate? && At(c, w, s) && Around(c, w, plan, news, mine, theirs, inside)
    ensures Around(c, w.(p := w.p + 1, inScope := w.inScope + {s.buffer}), plan, news, mine[s.buffer := Home(s.info, inside)], theirs, inside)
  {
    hide At, TheirsRight, HasStorage;
    AtAllocated(c, w, s);
    NoScope(c.pattern, w.p);
    AroundNext(c, w, w.p + 1, plan, news, mine, theirs, inside);
    var mine1 := mine[s.buffer := Home(s.info, inside)];
    forall b <- mine1 ensures MineRight(c.pattern, w.p + 1, b, mine1[b]) {
      if b == s.buffer {
        assert AllocatedHere(c.pattern, w.p, w.p + 1, b, mine1[b]);
      } else {
        assert MineRight(c.pattern, w.p + 1, b, mine[b]);
      }
    }
  }

  /** Inside of an open thread scope, a scope node keeps it. */
  lemma {:induction false} ScopeKept(c: Context, w: Place, s: Stmt, inner: Stmt, innerThread: bool, point: ScopeNode)
    requires At(c, w, s) && Encloses(c, w, s, inner, innerThread, point) && FitsBefore(c.pattern, After(c, w, s))
    ensures w.p + 1 <= |c.pattern|
    ensures var cur, cur1 := ScopeAt(c.pattern, w.p), ScopeAt(c.pattern, w.p + 1);
      && (cur.Some? ==> cur1 == cur)
      && (cur == None ==> cur1 == if point.kind in {ParallelLoop, Thread} then Some(point.id) else None)
  {
    hide Encloses;
    ScopeParts(c, w, s, inner, innerThread, point);
    assert ScopeFits(c.pattern, w.p);
    if ScopeAt(c.pattern, w.p) == Some(point.id) {
      var j := OpenNode(c.pattern, w.p, point.id);
      assert point.id in Ids(s) by {
        EnclosesId(c, w, s, inner, innerThread, point);
      }
      assert false;
    }
  }

  lemma {:induction false} EnclosesId(c: Context, w: Place, s: Stmt, inner: Stmt, innerThread: bool, point: ScopeNode)
    requires Encloses(c, w, s, inner, innerThread, point)
    ensures point.id in Ids(s)
  {
  }

  lemma {:induction false} AroundInner(c: Context, w: Place, cur1: Option<nat>, w1: Place, plan: Plan, news: seq<AllocInfo>, mine: Homes, theirs: Homes,
                                       theirs1: Homes, inside: bool)
    requires Around(c, w, plan, news, mine, theirs, inside) && w1.p == w.p + 1 <= |c.pattern| && w1.inScope == w.inScope
    requires ScopeAt(c.pattern, w1.p) == cur1 && (ScopeAt(c.pattern, w.p).Some? ==> cur1 == ScopeAt(c.pattern, w.p))
    requires w1.inThread ==> cur1.Some?
    requires theirs.Keys <= theirs1.Keys && forall v <- theirs1 :: TheirsRight(plan, news, theirs1, v)
    requires forall k | 0 <= k < |plan.entries| && plan.entries[k].attach == cur1 && cur1 != ScopeAt(c.pattern, w.p) :: HasStorage(plan, theirs1, k)
    ensures Around(c, w1, plan, news, mine, theirs1, cur1.Some?)
  {
    hide ScopeAt, TheirsRight;
    forall b <- mine ensures MineRight(c.pattern, w1.p, b, mine[b]) {
      assert MineRight(c.pattern, w.p, b, mine[b]);
      var i: nat :| i < w.p && i < |c.pattern| && AllocatedHere(c.pattern, i, w.p, b, mine[b]);
      assert AllocatedHere(c.pattern, i, w1.p, b, mine[b]);
    }
    forall k | 0 <= k < |plan.entries| && plan.entries[k].attach in {None, cur1} ensures HasStorage(plan, theirs1, k) {
      if plan.entries[k].attach in {None, ScopeAt(c.pattern, w.p)} {
        assert HasStorage(plan, theirs, k);
      }
    }
  }

  lemma {:induction false} SameNode(pattern: seq<StmtEntry>, i: nat, j: nat)
    requires KindsFit(pattern) && i < |pattern| && j < |pattern| && pattern[i].point.ScopePoint? && pattern[j].point.ScopePoint?
    requires pattern[i].point.id == pattern[j].point.id
    ensures pattern[i].point == pattern[j].point
  {
    assert pattern[i] in pattern && pattern[j] in pattern;
  }

  /** Nothing is attached to a serial loop. */
  lemma {:induction false} NoneAttached(c: Context, plan: Plan, p: nat, id: nat, kind: ScopeKind)
    requires GoodPlan(c.pattern, plan) && KindsFit(c.pattern) && p < |c.pattern| && c.pattern[p].point == ScopePoint(id, kind)
    requires kind !in {ParallelLoop, Thread}
    ensures forall k | 0 <= k < |plan.entries| :: plan.entries[k].attach != Some(id)
  {
    forall k | 0 <= k < |plan.entries| ensures plan.entries[k].attach != Some(id) {
      var a := plan.entries[k].allocs[0];
      assert a in plan.entries[k].allocs && a.buffer in plan.allocMap;
      assert AllocBefore(c.pattern, |c.pattern|, a.buffer);
      var i :| 0 <= i < |c.pattern| && IsAlloc(c.pattern[i], a.buffer);
      assert plan.entries[k].attach == ScopeAt(c.pattern, i);
      if plan.entries[k].attach == Some(id) {
        var j := OpenNode(c.pattern, i, id);
        SameNode(c.pattern, j, p);
      }
    }
  }

  /** The body of a scope node, inside the allocations attached to the node. */
  lemma {:induction false} EnterHoused(c: Context, w: Place, s: Stmt, inner: Stmt, innerThread: bool, point: ScopeNode, plan: Plan, news: seq<AllocInfo>,
                                       mine: Homes, theirs: Homes, inside: bool) returns (theirs1: Homes)
    requires At(c, w, s) && Encloses(c, w, s, inner, innerThread, point) && FitPlan(c, plan, news)
    requires Around(c, w, plan, news, mine, theirs, inside) && innerThread == (w.inThread || (innerThread && point.kind == Thread))
    ensures var inside1 := inside || point.kind in {ParallelLoop, Thread};
      theirs1 == WithAttached(Some(point.id), plan, news, 0, theirs, inside1) && Around(c, Inner(w, innerThread), plan, news, mine, theirs1, inside1)
  {
    hide At, Encloses, TheirsRight, HasStorage, KindsFit, WithAttached, Holds;
    var inside1 := inside || point.kind in {ParallelLoop, Thread};
    ScopeParts(c, w, s, inner, innerThread, point);
    AtInPattern(c, w, s);
    FitsLess(c.pattern, After(c, w, s), |c.pattern|);
    ScopeKept(c, w, s, inner, innerThread, point);
    PlanNamed(c.pattern, plan);
    if point.kind !in {ParallelLoop, Thread} {
      NoneAttached(c, plan, w.p, point.id, point.kind);
    }
    AttachedThere(Some(point.id), plan, news, 0, theirs, inside1);
    theirs1 := WithAttached(Some(point.id), plan, news, 0, theirs, inside1);
    AroundInner(c, w, ScopeAt(c.pattern, w.p + 1), Inner(w, innerThread), plan, news, mine, theirs, theirs1, inside);
  }

  /** A branch opens no thread scope. */
  lemma {:induction false} AroundBranch(c: Context, w: Place, s: Stmt, plan: Plan, news: seq<AllocInfo>, mine: Homes, theirs: Homes, inside: bool)
    requires s.IfThenElse? && At(c, w, s) && FitPlan(c, plan, news) && Around(c, w, plan, news, mine, theirs, inside)
    ensures Around(c, Inner(w, w.inThread), plan, news, mine, theirs, inside)
  {
    hide At, Encloses, TheirsRight, HasStorage, KindsFit, Holds;
    var both := Block(s.thenCase, s.elseCase);
    IfEncloses(c, w, s);
    ScopeParts(c, w, s, both, w.inThread, ScopePoint(s.id, Branch));
    AtInPattern(c, w, s);
    FitsLess(c.pattern, After(c, w, s), |c.pattern|);
    ScopeKept(c, w, s, both, w.inThread, ScopePoint(s.id, Branch));
    AroundInner(c, w, ScopeAt(c.pattern, w.p + 1), Inner(w, w.inThread), plan, news, mine, theirs, theirs, inside);
  }

  // ----- the rewriting -----

  /** The rewritten statement houses all accesses. */
  lemma {:induction false} MutateHoused(c: Context, w: Place, s: Stmt, plan: Plan, news: seq<AllocInfo>, mine: Homes, theirs: Homes, inside: bool)
    requires At(c, w, s) && FitPlan(c, plan, news) && Around(c, w, plan, news, mine, theirs, inside)
    ensures StmtHoused(s, Mutate(s, plan, news), mine, theirs, inside)
    decreases s, 2
  {
    hide At, FitPlan, Around, Housed, AllIn, Encloses;
    OwnAccesses(c, w, s);
    FitLengths(c, plan, news);
    match s
    case Store(b, value, index) =>
      AccessHoused(c, w, plan, news, mine, theirs, inside, b);
      AllHoused(value, c, w, plan, news, mine, theirs, inside);
      AllHoused(index, c, w, plan, news, mine, theirs, inside);
    case Evaluate(e) => AllHoused(e, c, w, plan, news, mine, theirs, inside);
    case Block(first, rest) =>
      AtFirst(c, w, s);
      AtRest(c, w, s);
      MutateHoused(c, w, first, plan, news, mine, theirs, inside);
      AroundRest(c, w, s, plan, news, mine, theirs, inside);
      MutateHoused(c, w.(p := After(c, w, first)), rest, plan, news, mine, theirs, inside);
      NoAllocate(first, plan, news);
    case For(id, _, min, extent, parallel, body) =>
      AllHoused(min, c, w, plan, news, mine, theirs, inside);
      AllHoused(extent, c, w, plan, news, mine, theirs, inside);
      ForEncloses(c, w, s);
      ScopeHoused(c, w, s, body, w.inThread, ScopePoint(id, if parallel then ParallelLoop else SerialLoop), plan, news, mine, theirs, inside);
    case IfThenElse(_, cond, _, _) =>
      AllHoused(cond, c, w, plan, news, mine, theirs, inside);
      BranchesHoused(c, w, s, plan, news, mine, theirs, inside);
    case Allocate(b, info, body) =>
      AtAllocated(c, w, s);
      AroundAllocated(c, w, s, plan, news, mine, theirs, inside);
      MutateHoused(c, w.(p := w.p + 1, inScope := w.inScope + {b}), body, plan, news, mine[b := Home(info, inside)], theirs, inside);
      NoAllocate(body, plan, news);
    case Attr(id, key, body) =>
      if key == ThreadExtent && w.inThread {
        NestedHoused(c, w, s, plan, news, mine, theirs, inside);
      } else {
        AttrEncloses(c, w, s);
        ScopeHoused(c, w, s, body, w.inThread || key == ThreadExtent, ScopePoint(id, Thread), plan, news, mine, theirs, inside);
      }
  }

  /** The rewriting of a statement is no allocation itself. */
  lemma {:induction false} NoAllocate(s: Stmt, plan: Plan, news: seq<AllocInfo>)
    requires |news| == |plan.entries|
    ensures !Mutate(s, plan, news).Allocate?
  {
    if s.Allocate? {
      NoAllocate(s.body, plan, news);
    }
  }

  /** What a statement evaluates and stores itself is in scope. */
  lemma {:induction false} OwnAccesses(c: Context, w: Place, s: Stmt)
    requires At(c, w, s)
    ensures match s
            case Store(b, value, index) =>
              && AllIn(ReadsOf(value), c.levels.Keys, w.inScope) && AllIn(ReadsOf(index), c.levels.Keys, w.inScope)
              && (b in c.levels ==> b in w.inScope)
            case Evaluate(e) => AllIn(ReadsOf(e), c.levels.Keys, w.inScope)
            case For(_, _, min, extent, _, _) => AllIn(ReadsOf(min), c.levels.Keys, w.inScope) && AllIn(ReadsOf(extent), c.levels.Keys, w.inScope)
            case IfThenElse(_, cond, _, _) => AllIn(ReadsOf(cond), c.levels.Keys, w.inScope)
            case _ => true
  {
    if s.Store? {
      assert s.buffer in Accessed(s);
    }
  }

  lemma {:induction false} AroundRest(c: Context, w: Place, s: Stmt, plan: Plan, news: seq<AllocInfo>, mine: Homes, theirs: Homes, inside: bool)
    requires s.Block? && At(c, w, s) && FitPlan(c, plan, news) && Around(c, w, plan, news, mine, theirs, inside)
    ensures Around(c, w.(p := After(c, w, s.first)), plan, news, mine, theirs, inside)
  {
    hide At, Around;
    AtFirst(c, w, s);
    AtInPattern(c, w, s.first);
    FitsLess(c.pattern, After(c, w, s.first), |c.pattern|);
    ScopeBack(c, w, s.first);
    AroundNext(c, w, After(c, w, s.first), plan, news, mine, theirs, inside);
  }

  lemma {:induction false} AtInPattern(c: Context, w: Place, s: Stmt)
    requires At(c, w, s)
    ensures w.p <= After(c, w, s) <= |c.pattern|
  {
  }

  lemma {:induction false} ScopeHoused(c: Context, w: Place, s: Stmt, inner: Stmt, innerThread: bool, point: ScopeNode, plan: Plan, news: seq<AllocInfo>,
                                       mine: Homes, theirs: Homes, inside: bool)
    requires At(c, w, s) && Encloses(c, w, s, inner, innerThread, point) && FitPlan(c, plan, news) && inner < s
    requires Around(c, w, plan, news, mine, theirs, inside) && innerThread == (w.inThread || (innerThread && point.kind == Thread))
    ensures StmtHoused(inner, Body(point, inner, plan, news), mine, theirs, inside || point.kind in {ParallelLoop, Thread})
    decreases s, 1
  {
    hide At, Encloses, FitPlan, Around;
    FitLengths(c, plan, news);
    var theirs1 := EnterHoused(c, w, s, inner, innerThread, point, plan, news, mine, theirs, inside);
    AtInner(c, w, s, inner, innerThread, point);
    MutateHoused(c, Inner(w, innerThread), inner, plan, news, mine, theirs1, inside || point.kind in {ParallelLoop, Thread});
    AttachHoused(inner, Some(point.id), plan, news, 0, Mutate(inner, plan, news), mine, theirs, inside || point.kind in {ParallelLoop, Thread});
  }

  lemma {:induction false} FitLengths(c: Context, plan: Plan, news: seq<AllocInfo>)
    requires FitPlan(c, plan, news)
    ensures |news| == |plan.entries|
  {
  }

  lemma {:induction false} BranchesHoused(c: Context, w: Place, s: Stmt, plan: Plan, news: seq<AllocInfo>, mine: Homes, theirs: Homes, inside: bool)
    requires s.IfThenElse? && At(c, w, s) && FitPlan(c, plan, news) && Around(c, w, plan, news, mine, theirs, inside)
    ensures |news| == |plan.entries|
    ensures StmtHoused(s.thenCase, Mutate(s.thenCase, plan, news), mine, theirs, inside)
    ensures StmtHoused(s.elseCase, Mutate(s.elseCase, plan, news), mine, theirs, inside)
    decreases s, 1
  {
    hide At, Encloses, FitPlan, Around;
    FitLengths(c, plan, news);
    var both, inner := Block(s.thenCase, s.elseCase), Inner(w, w.inThread);
    IfEncloses(c, w, s);
    AroundBranch(c, w, s, plan, news, mine, theirs, inside);
    AtInner(c, w, s, both, w.inThread, ScopePoint(s.id, Branch));
    AtFirst(c, inner, both);
    AtRest(c, inner, both);
    MutateHoused(c, inner, s.thenCase, plan, news, mine, theirs, inside);
    AroundRest(c, inner, both, plan, news, mine, theirs, inside);
    MutateHoused(c, inner.(p := After(c, inner, s.thenCase)), s.elseCase, plan, news, mine, theirs, inside);
  }

  lemma {:induction false} NestedHoused(c: Context, w: Place, s: Stmt, plan: Plan, news: seq<AllocInfo>, mine: Homes, theirs: Homes, inside: bool)
    requires s.Attr? && s.key == ThreadExtent && w.inThread && At(c, w, s) && FitPlan(c, plan, news)
    requires Around(c, w, plan, news, mine, theirs, inside)
    ensures |news| == |plan.entries|
    ensures StmtHoused(s.body, MakeAttach(Some(s.id), plan, news, 0, Mutate(s.body, plan, news)), mine, theirs, true)
    decreases s, 1
  {
    hide At, TheirsRight, HasStorage, WithAttached, Holds, KindsFit, FitsBefore, StmtHoused;
    AtNested(c, w, s);
    PlanNamed(c.pattern, plan);
    AttachedThere(Some(s.id), plan, news, 0, theirs, true);
    var theirs1 := WithAttached(Some(s.id), plan, news, 0, theirs, true);
    assert Around(c, w, plan, news, mine, theirs1, true) by {
      MoreAround(c, w, plan, news, mine, theirs, theirs1);
    }
    MutateHoused(c, w, s.body, plan, news, mine, theirs1, true);
    AttachHoused(s.body, Some(s.id), plan, news, 0, Mutate(s.body, plan, news), mine, theirs, true);
  }

  lemma {:induction false} MoreAround(c: Context, w: Place, plan: Plan, news: seq<AllocInfo>, mine: Homes, theirs: Homes, theirs1: Homes)
    requires Around(c, w, plan, news, mine, theirs, true)
    requires theirs.Keys <= theirs1.Keys && forall v <- theirs1 :: TheirsRight(plan, news, theirs1, v)
    ensures Around(c, w, plan, news, mine, theirs1, true)
  {
    hide ScopeAt, TheirsRight, MineRight;
    forall k | 0 <= k < |plan.entries| && plan.entries[k].attach in {None, ScopeAt(c.pattern, w.p)} ensures HasStorage(plan, theirs1, k) {
      assert HasStorage(plan, theirs, k);
    }
  }

  /** Every access of the rewritten program is to storage that is allocated around it and holds the buffer. */
  lemma {:induction false} RewrittenHoused(s: Stmt, plan: Plan, news: seq<AllocInfo>)
    requires WellFormed(s) && GoodPlan(PatternOf(s), plan) && |news| == |plan.entries| && FitsBefore(PatternOf(s), |PatternOf(s)|)
    requires forall k, a | 0 <= k < |news| && a in plan.entries[k].allocs :: Holds(news[k], a.info)
    ensures StmtHoused(s, Rewritten(s, plan, news), map[], map[], false)
  {
    hide At, StmtHoused, GoodPlan, Holds, FitsBefore;
    var c, w := Context(PatternOf(s), LevelMap(s, 0, false)), Place(0, 0, false, {});
    PlanFits(s, plan, news);
    AtTop(s);
    LinearKinds(s, 0, false, c.levels);
    PlanNamed(c.pattern, plan);
    AttachedThere(None, plan, news, 0, map[], false);
    var theirs := WithAttached(None, plan, news, 0, map[], false);
    assert Around(c, w, plan, news, map[], theirs, false);
    MutateHoused(c, w, s, plan, news, map[], theirs, false);
    AttachHoused(s, None, plan, news, 0, Mutate(s, plan, news), map[], map[], false);
  }

  // ----- every storage is allocated once -----

  /** The storage attached to the scope nodes ids. */
  function AttachedIn(ids: set<nat>, plan: Plan): set<nat> {
    set id, v | id in ids && v in Attached(Some(id), plan, 0) :: v
  }

  lemma {:induction false} AttachedTo(plan: Plan, attach: Option<nat>, k: nat, v: nat)
    requires EntriesNamed(plan) && v in Attached(attach, plan, k)
    ensures v in plan.allocMap && k <= plan.allocMap[v] < |plan.entries| && plan.entries[plan.allocMap[v]].attach == attach
  {
    AttachedEntry(attach, plan, k, v);
    var j :| k <= j < |plan.entries| && HoldsVar(plan.entries[j], attach, v);
    assert plan.entries[j].allocs[0].buffer == v;
  }

  /** Different scopes have different storage. */
  lemma {:induction false} AttachedOnce(plan: Plan, a: Option<nat>, b: Option<nat>, j: nat, k: nat)
    requires EntriesNamed(plan) && a != b
    ensures Attached(a, plan, j) !! Attached(b, plan, k)
  {
    forall v | v in Attached(a, plan, j) && v in Attached(b, plan, k) ensures false {
      AttachedTo(plan, a, j, v);
      AttachedTo(plan, b, k, v);
    }
  }

  lemma {:induction false} AttachAllocs(attach: Option<nat>, plan: Plan, news: seq<AllocInfo>, k: nat, body: Stmt)
    requires EntriesNamed(plan) && |news| == |plan.entries| && UniqueAllocs(body) && Allocs(body) !! Attached(attach, plan, k)
    ensures var r := MakeAttach(attach, plan, news, k, body); UniqueAllocs(r) && Allocs(r) == Attached(attach, plan, k) + Allocs(body)
    decreases |plan.entries| - k
  {
    if k < |plan.entries| {
      AttachAllocs(attach, plan, news, k + 1, body);
      var v := plan.entries[k].allocs[0].buffer;
      if v in Attached(attach, plan, k + 1) {
        AttachedTo(plan, attach, k + 1, v);
      }
    }
  }

  lemma {:induction false} AttachedApartIn(plan: Plan, a: Option<nat>, ids: set<nat>)
    requires EntriesNamed(plan) && (a.Some? ==> a.value !in ids)
    ensures Attached(a, plan, 0) !! AttachedIn(ids, plan)
  {
    forall v | v in Attached(a, plan, 0) && v in AttachedIn(ids, plan) ensures false {
      var id :| id in ids && v in Attached(Some(id), plan, 0);
      AttachedOnce(plan, a, Some(id), 0, 0);
    }
  }

  lemma {:induction false} AttachedInApart(plan: Plan, ids: set<nat>, jds: set<nat>)
    requires EntriesNamed(plan) && ids !! jds
    ensures AttachedIn(ids, plan) !! AttachedIn(jds, plan)
  {
    forall v | v in AttachedIn(ids, plan) && v in AttachedIn(jds, plan) ensures false {
      var id :| id in ids && v in Attached(Some(id), plan, 0);
      AttachedApartIn(plan, Some(id), jds);
    }
  }

  lemma {:induction false} AttachedMore(plan: Plan, ids: set<nat>, jds: set<nat>)
    requires ids <= jds
    ensures AttachedIn(ids, plan) <= AttachedIn(jds, plan)
  {
  }

  lemma {:induction false} MutateAllocs(s: Stmt, plan: Plan, news: seq<AllocInfo>)
    requires UniqueIds(s) && EntriesNamed(plan) && |news| == |plan.entries|
    ensures UniqueAllocs(Mutate(s, plan, news)) && Allocs(Mutate(s, plan, news)) <= AttachedIn(Ids(s), plan)
    decreases s
  {
    hide AttachedIn, EntriesNamed, Attached;
    match s
    case Block(first, rest) =>
      MutateAllocs(first, plan, news);
      MutateAllocs(rest, plan, news);
      AttachedInApart(plan, Ids(first), Ids(rest));
      AttachedMore(plan, Ids(first), Ids(s));
      AttachedMore(plan, Ids(rest), Ids(s));
    case IfThenElse(_, _, thenCase, elseCase) =>
      MutateAllocs(thenCase, plan, news);
      MutateAllocs(elseCase, plan, news);
      AttachedInApart(plan, Ids(thenCase), Ids(elseCase));
      AttachedMore(plan, Ids(thenCase), Ids(s));
      AttachedMore(plan, Ids(elseCase), Ids(s));
    case For(id, _, _, _, _, body) =>
      MutateAllocs(body, plan, news);
      NodeAllocs(id, body, plan, news);
    case Attr(id, _, body) =>
      MutateAllocs(body, plan, news);
      NodeAllocs(id, body, plan, news);
    case Allocate(_, _, body) => MutateAllocs(body, plan, news);
    case _ =>
  }

  lemma {:induction false} NodeAllocs(id: nat, body: Stmt, plan: Plan, news: seq<AllocInfo>)
    requires EntriesNamed(plan) && |news| == |plan.entries| && id !in Ids(body)
    requires UniqueAllocs(Mutate(body, plan, news)) && Allocs(Mutate(body, plan, news)) <= AttachedIn(Ids(body), plan)
    ensures var r := MakeAttach(Some(id), plan, news, 0, Mutate(body, plan, news));
      UniqueAllocs(r) && Allocs(r) <= AttachedIn({id} + Ids(body), plan)
  {
    hide EntriesNamed, Attached, Mutate, MakeAttach, UniqueAllocs, Allocs;
    AttachedApartIn(plan, Some(id), Ids(body));
    AttachAllocs(Some(id), plan, news, 0, Mutate(body, plan, news));
    AttachedMore(plan, Ids(body), {id} + Ids(body));
  }

  /** The rewritten program allocates no storage twice. */
  lemma {:induction false} RewrittenOnce(s: Stmt, plan: Plan, news: seq<AllocInfo>)
    requires WellFormed(s) && GoodPlan(PatternOf(s), plan) && |news| == |plan.entries|
    ensures UniqueAllocs(Rewritten(s, plan, news))
  {
    hide GoodPlan, EntriesNamed, Attached, Mutate, MakeAttach, UniqueAllocs, Allocs, AttachedIn;
    PlanNamed(PatternOf(s), plan);
    MutateAllocs(s, plan, news);
    AttachedApartIn(plan, None, Ids(s));
    AttachAllocs(None, plan, news, 0, Mutate(s, plan, news));
  }
}
