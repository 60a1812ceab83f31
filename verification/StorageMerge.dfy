/** The new allocations of a plan and the whole storage rewriting pass (src/pass/storage_rewrite.cc,
    StoragePlanRewriter::PrepareNewAlloc and Rewrite). */
module StorageMerge {
  import opened Wrappers
  import opened StorageIR
  import opened StorageRewrite
  import opened StoragePlanner
  import opened StorageFit
  import Arithmetic

  // ----- each buffer of a well-formed program is touched only after its one allocation -----

  /** Buffers outside of inScope are touched only after their allocation. */
  ghost predicate TouchedAfterAlloc(es: seq<StmtEntry>, inScope: set<nat>) {
    forall i | 0 <= i < |es| :: TouchedAt(es, i, inScope)
  }

  ghost predicate TouchedAt(es: seq<StmtEntry>, i: nat, inScope: set<nat>)
    requires i < |es|
  {
    forall b <- es[i].touched :: b in inScope || AllocBefore(es, i + 1, b)
  }

  ghost predicate OneAllocEach(es: seq<StmtEntry>) {
    forall i, j, b: nat | 0 <= i < j < |es| && IsAlloc(es[i], b) :: !IsAlloc(es[j], b)
  }

  ghost predicate AllocsWithin(es: seq<StmtEntry>, bs: set<nat>) {
    forall e <- es | e.point.AllocPoint? :: e.point.buffer in bs
  }

  lemma {:induction false} AppendTouched(es: seq<StmtEntry>, fs: seq<StmtEntry>, inScope: set<nat>)
    requires TouchedAfterAlloc(es, inScope) && TouchedAfterAlloc(fs, inScope)
    ensures TouchedAfterAlloc(es + fs, inScope)
  {
    forall i | 0 <= i < |es + fs| ensures TouchedAt(es + fs, i, inScope) {
      forall b | b in (es + fs)[i].touched && b !in inScope ensures AllocBefore(es + fs, i + 1, b) {
        if i < |es| {
          assert TouchedAt(es, i, inScope);
          var j :| 0 <= j < i + 1 && j < |es| && IsAlloc(es[j], b);
          assert IsAlloc((es + fs)[j], b);
        } else {
          assert TouchedAt(fs, i - |es|, inScope);
          var j :| 0 <= j < i - |es| + 1 && j < |fs| && IsAlloc(fs[j], b);
          assert IsAlloc((es + fs)[|es| + j], b);
        }
      }
    }
  }

  lemma {:induction false} AppendOnce(es: seq<StmtEntry>, fs: seq<StmtEntry>, bs: set<nat>, cs: set<nat>)
    requires OneAllocEach(es) && OneAllocEach(fs) && AllocsWithin(es, bs) && AllocsWithin(fs, cs) && bs !! cs
    ensures OneAllocEach(es + fs)
  {
    forall i, j, b: nat | 0 <= i < j < |es + fs| && IsAlloc((es + fs)[i], b) ensures !IsAlloc((es + fs)[j], b) {
      if j < |es| {
        assert IsAlloc(es[i], b);
      } else if i >= |es| {
        assert IsAlloc(fs[i - |es|], b);
      } else {
        assert es[i] in es && fs[j - |es|] in fs;
      }
    }
  }

  lemma {:induction false} ScopeTouched(point: ScopeNode, inner: seq<StmtEntry>, touched: seq<nat>, inScope: set<nat>)
    requires TouchedAfterAlloc(inner, inScope)
    requires forall b <- touched :: b in inScope || exists e <- inner :: IsAlloc(e, b)
    ensures TouchedAfterAlloc(LinearScope(point, inner, touched), inScope)
  {
    var es := LinearScope(point, inner, touched);
    forall i | 0 <= i < |es| ensures TouchedAt(es, i, inScope) {
      forall b | b in es[i].touched && b !in inScope ensures AllocBefore(es, i + 1, b) {
        if i <= |inner| {
          assert TouchedAt(inner, i - 1, inScope);
          var j :| 0 <= j < i && j < |inner| && IsAlloc(inner[j], b);
          assert IsAlloc(es[j + 1], b);
        } else {
          var e :| e in inner && IsAlloc(e, b);
          var j :| 0 <= j < |inner| && inner[j] == e;
          assert IsAlloc(es[j + 1], b);
        }
      }
    }
  }

  lemma {:induction false} ScopeOnce(point: ScopeNode, inner: seq<StmtEntry>, touched: seq<nat>)
    requires OneAllocEach(inner)
    ensures OneAllocEach(LinearScope(point, inner, touched))
  {
    var es := LinearScope(point, inner, touched);
    forall i, j, b: nat | 0 <= i < j < |es| && IsAlloc(es[i], b) ensures !IsAlloc(es[j], b) {
      assert IsAlloc(inner[i - 1], b);
    }
  }

  /** What counts at the end of a scope is in scope around it or allocated inside. */
  lemma {:induction false} EndTouched(s: Stmt, inner: seq<StmtEntry>, d: nat, levels: Levels, inScope: set<nat>)
    requires Scoped(s, levels.Keys, inScope)
    requires forall b <- Allocs(s) :: exists e <- inner :: IsAlloc(e, b)
    ensures forall b <- Filter(Accessed(s), levels, d) :: b in inScope || exists e <- inner :: IsAlloc(e, b)
  {
    FilterAll(Accessed(s), levels, d);
    ScopedAccess(s, levels.Keys, inScope);
  }

  lemma {:induction false} LeafTouched(s: Stmt, d: nat, levels: Levels, inScope: set<nat>)
    requires Scoped(s, levels.Keys, inScope) && Allocs(s) == {}
    ensures TouchedAfterAlloc(LinearLeaf(Filter(Accessed(s), levels, d)), inScope)
  {
    FilterAll(Accessed(s), levels, d);
    ScopedAccess(s, levels.Keys, inScope);
  }

  lemma {:induction false} LinearAllocAll(s: Stmt, d: nat, inThread: bool, levels: Levels)
    ensures forall b <- Allocs(s) :: exists e <- Linear(s, d, inThread, levels) :: IsAlloc(e, b)
  {
    forall b <- Allocs(s) ensures exists e <- Linear(s, d, inThread, levels) :: IsAlloc(e, b) {
      LinearAlloc(s, d, inThread, levels, b);
    }
  }

  lemma {:induction false} AllocateTouched(b: nat, info: AllocInfo, inner: seq<StmtEntry>, inScope: set<nat>)
    requires TouchedAfterAlloc(inner, inScope + {b})
    ensures TouchedAfterAlloc([StmtEntry(AllocPoint(b, info), [b])] + inner, inScope)
  {
    var es := [StmtEntry(AllocPoint(b, info), [b])] + inner;
    assert IsAlloc(es[0], b);
    forall i | 0 < i < |es| ensures TouchedAt(es, i, inScope) {
      assert inner[i - 1] == es[i];
      forall c | c in es[i].touched && c !in inScope && c != b ensures AllocBefore(es, i + 1, c) {
        assert TouchedAt(inner, i - 1, inScope + {b});
        var j :| 0 <= j < i && j < |inner| && IsAlloc(inner[j], c);
        assert IsAlloc(es[j + 1], c);
      }
    }
  }

  lemma {:induction false} LinearTouchedAfter(s: Stmt, d: nat, inThread: bool, levels: Levels, inScope: set<nat>)
    requires Scoped(s, levels.Keys, inScope)
    ensures TouchedAfterAlloc(Linear(s, d, inThread, levels), inScope)
    decreases s
  {
    hide TouchedAfterAlloc, Filter, IsAlloc;
    match s
    case Store(_, _, _) => LeafTouched(s, d, levels, inScope);
    case Evaluate(_) => LeafTouched(s, d, levels, inScope);
    case Block(first, rest) =>
      LinearTouchedAfter(first, d, inThread, levels, inScope);
      LinearTouchedAfter(rest, d, inThread, levels, inScope);
      AppendTouched(Linear(first, d, inThread, levels), Linear(rest, d, inThread, levels), inScope);
    case For(id, _, _, _, parallel, body) =>
      var inner := Linear(body, d + 1, inThread, levels);
      LinearTouchedAfter(body, d + 1, inThread, levels, inScope);
      LinearAllocAll(body, d + 1, inThread, levels);
      EndTouched(s, inner, d, levels, inScope);
      ScopeTouched(ScopePoint(id, if parallel then ParallelLoop else SerialLoop), inner, Filter(Accessed(s), levels, d), inScope);
    case IfThenElse(id, _, thenCase, elseCase) =>
      LinearTouchedAfter(thenCase, d + 1, inThread, levels, inScope);
      LinearTouchedAfter(elseCase, d + 1, inThread, levels, inScope);
      BranchesTouchedAfter(s, d, inThread, levels, inScope);
    case Allocate(b, info, body) =>
      LinearTouchedAfter(body, d, inThread, levels, inScope + {b});
      AllocateTouched(b, info, Linear(body, d, inThread, levels), inScope);
    case Attr(id, key, body) =>
      if key == ThreadExtent && inThread {
        LinearTouchedAfter(body, d, inThread, levels, inScope);
      } else {
        var inner := Linear(body, d + 1, inThread || key == ThreadExtent, levels);
        LinearTouchedAfter(body, d + 1, inThread || key == ThreadExtent, levels, inScope);
        LinearAllocAll(body, d + 1, inThread || key == ThreadExtent, levels);
        EndTouched(s, inner, d, levels, inScope);
        ScopeTouched(ScopePoint(id, Thread), inner, Filter(Accessed(s), levels, d), inScope);
      }
  }

  lemma {:induction false} BranchesTouchedAfter(s: Stmt, d: nat, inThread: bool, levels: Levels, inScope: set<nat>)
    requires s.IfThenElse? && Scoped(s, levels.Keys, inScope)
    requires TouchedAfterAlloc(Linear(s.thenCase, d + 1, inThread, levels), inScope)
    requires TouchedAfterAlloc(Linear(s.elseCase, d + 1, inThread, levels), inScope)
    ensures TouchedAfterAlloc(Linear(s, d, inThread, levels), inScope)
  {
    hide TouchedAfterAlloc, Filter;
    var inner1, inner2 := Linear(s.thenCase, d + 1, inThread, levels), Linear(s.elseCase, d + 1, inThread, levels);
    AppendTouched(inner1, inner2, inScope);
    LinearAllocAll(s.thenCase, d + 1, inThread, levels);
    LinearAllocAll(s.elseCase, d + 1, inThread, levels);
    forall b <- Allocs(s) ensures exists e <- inner1 + inner2 :: IsAlloc(e, b) {
      if b in Allocs(s.thenCase) {
        var e :| e in inner1 && IsAlloc(e, b);
        assert e in inner1 + inner2;
      } else {
        assert b in Allocs(s.elseCase);
        var e :| e in inner2 && IsAlloc(e, b);
        assert e in inner1 + inner2;
      }
    }
    EndTouched(s, inner1 + inner2, d, levels, inScope);
    ScopeTouched(ScopePoint(s.id, Branch), inner1 + inner2, Filter(Accessed(s), levels, d), inScope);
  }

  lemma {:induction false} LinearAllocsWithin(s: Stmt, d: nat, inThread: bool, levels: Levels)
    ensures AllocsWithin(Linear(s, d, inThread, levels), Allocs(s))
  {
    LinearPoints(s, d, inThread, levels);
  }

  lemma {:induction false} LinearOnce(s: Stmt, d: nat, inThread: bool, levels: Levels)
    requires UniqueAllocs(s)
    ensures OneAllocEach(Linear(s, d, inThread, levels))
    decreases s
  {
    hide OneAllocEach, Filter, AllocsWithin;
    match s
    case Store(_, _, _) => LeafOnce(Filter(Accessed(s), levels, d));
    case Evaluate(_) => LeafOnce(Filter(Accessed(s), levels, d));
    case Block(first, rest) =>
      LinearOnce(first, d, inThread, levels);
      LinearOnce(rest, d, inThread, levels);
      LinearAllocsWithin(first, d, inThread, levels);
      LinearAllocsWithin(rest, d, inThread, levels);
      AppendOnce(Linear(first, d, inThread, levels), Linear(rest, d, inThread, levels), Allocs(first), Allocs(rest));
    case For(id, _, _, _, parallel, body) =>
      LinearOnce(body, d + 1, inThread, levels);
      ScopeOnce(ScopePoint(id, if parallel then ParallelLoop else SerialLoop), Linear(body, d + 1, inThread, levels), Filter(Accessed(s), levels, d));
    case IfThenElse(id, _, thenCase, elseCase) =>
      var inner1, inner2 := Linear(thenCase, d + 1, inThread, levels), Linear(elseCase, d + 1, inThread, levels);
      LinearOnce(thenCase, d + 1, inThread, levels);
      LinearOnce(elseCase, d + 1, inThread, levels);
      LinearAllocsWithin(thenCase, d + 1, inThread, levels);
      LinearAllocsWithin(elseCase, d + 1, inThread, levels);
      AppendOnce(inner1, inner2, Allocs(thenCase), Allocs(elseCase));
      ScopeOnce(ScopePoint(id, Branch), inner1 + inner2, Filter(Accessed(s), levels, d));
    case Allocate(b, info, body) =>
      LinearOnce(body, d, inThread, levels);
      LinearAllocsWithin(body, d, inThread, levels);
      AppendOnce([StmtEntry(AllocPoint(b, info), [b])], Linear(body, d, inThread, levels), {b}, Allocs(body));
    case Attr(id, key, body) =>
      if key == ThreadExtent && inThread {
        LinearOnce(body, d, inThread, levels);
      } else {
        LinearOnce(body, d + 1, inThread || key == ThreadExtent, levels);
        ScopeOnce(ScopePoint(id, Thread), Linear(body, d + 1, inThread || key == ThreadExtent, levels), Filter(Accessed(s), levels, d));
      }
  }

  lemma {:induction false} LeafOnce(touched: seq<nat>)
    ensures OneAllocEach(LinearLeaf(touched))
  {
  }

  /** What the planner relies on holds of every well-formed program. */
  lemma {:induction false} PatternAllocatedOnce(s: Stmt)
    requires WellFormed(s)
    ensures AllocatedOnce(PatternOf(s))
  {
    LevelMapKeys(s, 0, false);
    LinearTouchedAfter(s, 0, false, LevelMap(s, 0, false), {});
    LinearOnce(s, 0, false, LevelMap(s, 0, false));
    forall i, b | 0 <= i < |PatternOf(s)| && b in PatternOf(s)[i].touched ensures AllocBefore(PatternOf(s), i + 1, b) {
      assert TouchedAt(PatternOf(s), i, {});
    }
  }

  // ----- the size of a merged allocation -----

  /** The number of elements, as one expression. */
  function ComputeProduct(extents: seq<Extent>): Extent
    requires extents != []
  {
    if |extents| == 1 then extents[0] else Times(ComputeProduct(extents[..|extents| - 1]), extents[|extents| - 1])
  }

  lemma {:induction false} ProductSnoc(extents: seq<Extent>, e: Extent, env: map<nat, nat>)
    ensures Product(extents + [e], env) == Product(extents, env) * EvalExtent(e, env)
  {
    if extents == [] {
      assert [e][1..] == [];
    } else {
      ProductSnoc(extents[1..], e, env);
      assert (extents + [e])[1..] == extents[1..] + [e];
      Arithmetic.MulAssoc(EvalExtent(extents[0], env), Product(extents[1..], env), EvalExtent(e, env));
    }
  }

  lemma {:induction false} ComputeProductRight(extents: seq<Extent>, env: map<nat, nat>)
    requires extents != []
    ensures EvalExtent(ComputeProduct(extents), env) == Product(extents, env)
  {
    var n := |extents| - 1;
    assert extents == extents[..n] + [extents[n]];
    ProductSnoc(extents[..n], extents[n], env);
    if n > 0 {
      ComputeProductRight(extents[..n], env);
    }
  }

  /** The size of an allocation in vectors of the given number of lanes. */
  function SizeIn(info: AllocInfo, lanes: nat): Extent
    requires info.extents != []
  {
    if info.lanes == lanes then ComputeProduct(info.extents) else CeilDiv(ComputeProduct(info.extents), info.lanes, lanes)
  }

  lemma {:induction false} CeilLeast(n: nat, d: nat)
    requires d > 0
    ensures n <= (n + d - 1) / d * d < n + d
  {
    var m := n + d - 1;
    assert m == m / d * d + m % d;
  }

  /** It is the least number of vectors that hold all elements. */
  lemma {:induction false} SizeInLeast(info: AllocInfo, lanes: nat, env: map<nat, nat>)
    requires info.extents != [] && lanes >= info.lanes
    ensures EvalExtent(SizeIn(info, lanes), env) * lanes >= Elements(info, env)
    ensures lanes > 0 ==> EvalExtent(SizeIn(info, lanes), env) * lanes < Elements(info, env) + lanes
  {
    ComputeProductRight(info.extents, env);
    if info.lanes != lanes {
      CeilLeast(Elements(info, env), lanes);
    }
  }

  /** The allocation is large enough for every buffer of the entry, and by less than one vector too large for one of them. */
  ghost predicate RightSize(e: StorageEntry, info: AllocInfo) {
    forall env: map<nat, nat> :: RightSizeUnder(e, info, env)
  }

  ghost predicate RightSizeUnder(e: StorageEntry, info: AllocInfo, env: map<nat, nat>) {
    && (forall a <- e.allocs :: Elements(a.info, env) <= Elements(info, env))
    && (info.lanes > 0 ==> exists a <- e.allocs :: Elements(info, env) < Elements(a.info, env) + info.lanes)
  }

  /** combo is the largest size among the first i buffers. */
  ghost predicate Largest(e: StorageEntry, i: nat, lanes: nat, combo: Extent)
    requires i <= |e.allocs| && forall a <- e.allocs[..i] :: a.info.extents != []
  {
    forall env: map<nat, nat> :: LargestUnder(e, i, lanes, combo, env)
  }

  ghost predicate LargestUnder(e: StorageEntry, i: nat, lanes: nat, combo: Extent, env: map<nat, nat>)
    requires i <= |e.allocs| && forall a <- e.allocs[..i] :: a.info.extents != []
  {
    && (forall j | 0 <= j < i :: Vectors(e, j, lanes, env) <= EvalExtent(combo, env))
    && (exists j :: 0 <= j < i && Vectors(e, j, lanes, env) == EvalExtent(combo, env))
  }

  function Vectors(e: StorageEntry, j: nat, lanes: nat, env: map<nat, nat>): nat
    requires j < |e.allocs|
  {
    if e.allocs[j].info.extents == [] then 0 else EvalExtent(SizeIn(e.allocs[j].info, lanes), env)
  }

  lemma {:induction false} LargestRight(e: StorageEntry, widest: AllocInfo, combo: Extent)
    requires forall a <- e.allocs :: a.info.extents != [] && a.info.lanes <= widest.lanes
    requires Largest(e, |e.allocs|, widest.lanes, combo)
    ensures RightSize(e, widest.(extents := [combo]))
  {
    var info := widest.(extents := [combo]);
    forall env: map<nat, nat> ensures RightSizeUnder(e, info, env) {
      assert e.allocs[..|e.allocs|] == e.allocs && LargestUnder(e, |e.allocs|, widest.lanes, combo, env);
      LargestRightUnder(e, widest, combo, env);
    }
  }

  lemma {:induction false} LargestRightUnder(e: StorageEntry, widest: AllocInfo, combo: Extent, env: map<nat, nat>)
    requires forall a <- e.allocs :: a.info.extents != [] && a.info.lanes <= widest.lanes
    requires LargestUnder(e, |e.allocs|, widest.lanes, combo, env)
    ensures RightSizeUnder(e, widest.(extents := [combo]), env)
  {
    var info := widest.(extents := [combo]);
    assert [combo][1..] == [];
    assert Product([combo], env) == EvalExtent(combo, env) * Product([combo][1..], env);
    assert Elements(info, env) == EvalExtent(combo, env) * info.lanes;
    forall a <- e.allocs ensures Elements(a.info, env) <= Elements(info, env) {
      var j :| 0 <= j < |e.allocs| && e.allocs[j] == a;
      SizeInLeast(a.info, info.lanes, env);
      MulLess(Vectors(e, j, info.lanes, env), EvalExtent(combo, env), info.lanes);
    }
    var j :| 0 <= j < |e.allocs| && Vectors(e, j, info.lanes, env) == EvalExtent(combo, env);
    assert e.allocs[j] in e.allocs;
    SizeInLeast(e.allocs[j].info, info.lanes, env);
  }

  lemma {:induction false} MulLess(x: nat, y: nat, n: nat)
    requires x <= y
    ensures x * n <= y * n
  {
  }

  lemma {:induction false} LargestStep(e: StorageEntry, i: nat, lanes: nat, combo: Extent)
    requires i < |e.allocs| && forall a <- e.allocs[..i + 1] :: a.info.extents != []
    requires (forall a <- e.allocs[..i] :: a.info.extents != []) && (i > 0 ==> Largest(e, i, lanes, combo))
    requires e.allocs[i].info.extents != []
    ensures var sz := SizeIn(e.allocs[i].info, lanes);
      Largest(e, i + 1, lanes, if i == 0 then sz else Larger(combo, sz))
  {
    var sz := SizeIn(e.allocs[i].info, lanes);
    var combo1 := if i == 0 then sz else Larger(combo, sz);
    var next := i + 1;
    forall env: map<nat, nat> ensures LargestUnder(e, next, lanes, combo1, env) {
      assert Vectors(e, i, lanes, env) == EvalExtent(sz, env);
      if i > 0 {
        assert LargestUnder(e, i, lanes, combo, env);
      }
    }
  }

  /** The widest type among the buffers of an entry. */
  method WidestType(e: StorageEntry) returns (widest: AllocInfo)
    requires e.allocs != []
    ensures (exists a <- e.allocs :: a.info == widest) && forall a <- e.allocs :: a.info.lanes <= widest.lanes
  {
    widest := e.allocs[0].info;
    for i := 0 to |e.allocs|
      invariant exists a <- e.allocs :: a.info == widest
      invariant forall j | 0 <= j < i :: e.allocs[j].info.lanes <= widest.lanes
    {
      if e.allocs[i].info.lanes > widest.lanes {
        widest := e.allocs[i].info;
      }
    }
  }

  /** The allocation for an entry: its only one as it is, or one with the widest type and the largest size.
      Fails when a merged allocation has no extents. */
  method NewAllocation(e: StorageEntry) returns (ok: bool, info: AllocInfo)
    requires e.allocs != []
    ensures ok <==> |e.allocs| == 1 || forall a <- e.allocs :: a.info.extents != []
    ensures ok ==> RightSize(e, info) && exists a <- e.allocs :: info == a.info.(extents := info.extents)
    ensures ok && |e.allocs| == 1 ==> info == e.allocs[0].info
  {
    var widest := WidestType(e);
    info := widest;
    if |e.allocs| == 1 {
      info := widest.(extents := e.allocs[0].info.extents);
      return true, info;
    }
    var combo := Const(0);
    for i := 0 to |e.allocs|
      invariant forall a <- e.allocs[..i] :: a.info.extents != []
      invariant i > 0 ==> Largest(e, i, widest.lanes, combo)
    {
      assert e.allocs[i] in e.allocs;
      if e.allocs[i].info.extents == [] {
        return false, info;
      }
      assert e.allocs[..i + 1] == e.allocs[..i] + [e.allocs[i]];
      LargestStep(e, i, widest.lanes, combo);
      var sz := SizeIn(e.allocs[i].info, widest.lanes);
      combo := if i == 0 then sz else Larger(combo, sz);
    }
    assert e.allocs[..|e.allocs|] == e.allocs;
    LargestRight(e, widest, combo);
    return true, widest.(extents := [combo]);
  }

  /** The new allocations of all entries, in the order of the entries. */
  method PrepareNewAlloc(allocVec: seq<StorageEntry>) returns (ok: bool, news: seq<AllocInfo>)
    requires forall e <- allocVec :: e.allocs != []
    ensures ok <==> forall e <- allocVec :: |e.allocs| == 1 || forall a <- e.allocs :: a.info.extents != []
    ensures ok ==> |news| == |allocVec| && forall k | 0 <= k < |news| ::
      RightSize(allocVec[k], news[k]) && exists a <- allocVec[k].allocs :: news[k] == a.info.(extents := news[k].extents)
  {
    news := [];
    for i := 0 to |allocVec|
      invariant |news| == i
      invariant forall k | 0 <= k < i :: |allocVec[k].allocs| == 1 || forall a <- allocVec[k].allocs :: a.info.extents != []
      invariant forall k | 0 <= k < i ::
        RightSize(allocVec[k], news[k]) && exists a <- allocVec[k].allocs :: news[k] == a.info.(extents := news[k].extents)
    {
      var one, info := NewAllocation(allocVec[i]);
      if !one {
        assert allocVec[i] in allocVec;
        return false, news;
      }
      news := news + [info];
    }
    return true, news;
  }

  // ----- the pass -----

  /** Thread nodes do not nest, and everything allocated outside of them is global memory. */
  predicate Plannable(pattern: seq<StmtEntry>) {
    && (forall i | 0 <= i < |pattern| :: ScopeFits(pattern, i))
    && (forall i | 0 <= i < |pattern| && pattern[i].point.AllocPoint? && ScopeAt(pattern, i) == None :: pattern[i].point.info.rank == 0)
  }

  predicate HasExtents(pattern: seq<StmtEntry>) {
    forall i | 0 <= i < |pattern| && pattern[i].point.AllocPoint? :: pattern[i].point.info.extents != []
  }

  /** The check that storage outside of all thread scopes is global. */
  method CheckGlobal(allocVec: seq<StorageEntry>) returns (ok: bool)
    ensures ok <==> forall e <- allocVec :: e.attach == None ==> e.rank == 0
  {
    for i := 0 to |allocVec|
      invariant forall k | 0 <= k < i :: allocVec[k].attach == None ==> allocVec[k].rank == 0
    {
      if allocVec[i].attach == None && allocVec[i].rank != 0 {
        assert allocVec[i] in allocVec;
        return false;
      }
    }
    return true;
  }

  /** Shares storage. Where it succeeds, the plan is good and shares wherever it may, every new allocation has the right size and type for
      its buffers, every access of the result is inside an allocation that fits, no storage is allocated twice, and the result does what
      the program did. It succeeds exactly on plannable programs, if every allocation has extents. */
  method Rewrite(s: Stmt) returns (r: Option<Stmt>, ghost plan: Plan, ghost news: seq<AllocInfo>)
    requires WellFormed(s)
    ensures r.Some? ==> GoodPlan(PatternOf(s), plan) && |news| == |plan.entries| && r.value == Rewritten(s, plan, news)
    ensures r.Some? ==> forall k | 0 <= k < |news| :: RightSize(plan.entries[k], news[k])
    ensures r.Some? ==> SharesAll(PatternOf(s), |PatternOf(s)|, plan)
    ensures r.Some? ==> StmtHoused(s, r.value, map[], map[], false) && UniqueAllocs(r.value)
    ensures r.Some? ==> SameEffect(s, r.value)
    ensures HasExtents(PatternOf(s)) ==> (r.Some? <==> Plannable(PatternOf(s)))
    ensures r.Some? ==> Plannable(PatternOf(s))
  {
    hide *;
    var ok;
    var planned;
    ok, planned := PlanProgram(s);
    plan, news := planned, [];
    if !ok {
      NotPlannable(PatternOf(s));
      return None, plan, news;
    }
    PlannedEntries(PatternOf(s), plan);
    EntriesAllocated(PatternOf(s), plan);
    var infos, global;
    ok, infos := PrepareNewAlloc(planned.entries);
    news := infos;
    global := CheckGlobal(planned.entries);
    PlannableParts(PatternOf(s));
    if !ok || !global {
      return None, plan, news;
    }
    RewriteSound(s, plan, infos);
    AllHold(PatternOf(s), plan, infos);
    AllFits(PatternOf(s));
    RewrittenHoused(s, plan, infos);
    RewrittenOnce(s, plan, infos);
    r := Some(Rewritten(s, planned, infos));
  }

  method PlanProgram(s: Stmt) returns (ok: bool, plan: Plan)
    requires WellFormed(s)
    ensures ok <==> forall i | 0 <= i < |PatternOf(s)| :: ScopeFits(PatternOf(s), i)
    ensures ok ==> GoodPlan(PatternOf(s), plan) && EntriesOf(PatternOf(s), |PatternOf(s)|, plan)
    ensures ok ==> SharesAll(PatternOf(s), |PatternOf(s)|, plan)
  {
    hide SharesAll, Regular, AllocatedOnce, FreesLastTouches, GoodPlan, EntriesOf, NeverTogether, FreeDead, ScopeFits;
    var pattern := GetLinearSeq(s);
    PatternAllocatedOnce(s);
    PatternRegular(s);
    var freeLoc := FindFreeLocation(pattern);
    var planner := new StoragePlanRewriter();
    StartPlanned(pattern);
    ok := planner.PlanMemory(pattern, freeLoc);
    plan := planner.CurrentPlan();
  }

  /** The new allocation of an entry holds every buffer that has it. */
  lemma {:induction false} AllHold(pattern: seq<StmtEntry>, plan: Plan, news: seq<AllocInfo>)
    requires EntriesOf(pattern, |pattern|, plan) && |news| == |plan.entries|
    requires forall k | 0 <= k < |news| ::
      RightSize(plan.entries[k], news[k]) && exists a <- plan.entries[k].allocs :: news[k] == a.info.(extents := news[k].extents)
    ensures forall k, a | 0 <= k < |news| && a in plan.entries[k].allocs :: Holds(news[k], a.info)
  {
    hide RightSize, EntriesOf, Elements;
    forall k, a | 0 <= k < |news| && a in plan.entries[k].allocs ensures Holds(news[k], a.info) {
      var a0 :| a0 in plan.entries[k].allocs && news[k] == a0.info.(extents := news[k].extents);
      EntryType(pattern, plan, k, a);
      EntryType(pattern, plan, k, a0);
      LargeEnough(plan.entries[k], news[k], a);
    }
  }

  lemma {:induction false} LargeEnough(e: StorageEntry, info: AllocInfo, a: Alloc)
    requires RightSize(e, info) && a in e.allocs
    ensures forall env: map<nat, nat> :: Elements(a.info, env) <= Elements(info, env)
  {
    forall env: map<nat, nat> ensures Elements(a.info, env) <= Elements(info, env) {
      assert RightSizeUnder(e, info, env);
    }
  }

  lemma {:induction false} EntryType(pattern: seq<StmtEntry>, plan: Plan, k: nat, a: Alloc)
    requires EntriesOf(pattern, |pattern|, plan) && k < |plan.entries| && a in plan.entries[k].allocs
    ensures a.info.rank == plan.entries[k].rank && a.info.elemType == plan.entries[k].elemType
  {
    assert EntryOf(plan, k, pattern, |pattern|);
    var i :| 0 <= i < |pattern| && pattern[i].point == AllocPoint(a.buffer, a.info);
    assert IsAlloc(pattern[i], a.buffer);
    assert Serves(plan.entries[k], ScopeAt(pattern, i), a.buffer, a.info);
  }

  lemma {:induction false} AllFits(pattern: seq<StmtEntry>)
    requires forall i | 0 <= i < |pattern| :: ScopeFits(pattern, i)
    ensures FitsBefore(pattern, |pattern|)
  {
  }

  lemma {:induction false} PlannableParts(pattern: seq<StmtEntry>)
    ensures Plannable(pattern) <==>
      && (forall i | 0 <= i < |pattern| :: ScopeFits(pattern, i))
      && (forall i | 0 <= i < |pattern| && pattern[i].point.AllocPoint? && ScopeAt(pattern, i) == None :: pattern[i].point.info.rank == 0)
  {
  }

  lemma {:induction false} NotPlannable(pattern: seq<StmtEntry>)
    requires exists i :: 0 <= i < |pattern| && !ScopeFits(pattern, i)
    ensures !Plannable(pattern)
  {
  }

  lemma {:induction false} PlannedEntries(pattern: seq<StmtEntry>, plan: Plan)
    requires EntriesOf(pattern, |pattern|, plan)
    ensures forall e <- plan.entries :: e.allocs != []
  {
    forall e <- plan.entries ensures e.allocs != [] {
      var k :| 0 <= k < |plan.entries| && plan.entries[k] == e;
      assert EntryOf(plan, k, pattern, |pattern|);
    }
  }

  lemma {:induction false} StartPlanned(pattern: seq<StmtEntry>)
    ensures EntriesOf(pattern, 0, Plan(map[], [])) && NeverTogether(pattern, 0, map[]) && FreeDead(pattern, 0, map[], [])
  {
  }

  /** The buffers of the entries are those allocated in the program, with their scopes. */
  lemma {:induction false} EntriesAllocated(pattern: seq<StmtEntry>, plan: Plan)
    requires EntriesOf(pattern, |pattern|, plan)
    ensures (forall e <- plan.entries :: e.attach == None ==> e.rank == 0) <==>
            (forall i | 0 <= i < |pattern| && pattern[i].point.AllocPoint? && ScopeAt(pattern, i) == None :: pattern[i].point.info.rank == 0)
    ensures HasExtents(pattern) ==> forall e <- plan.entries, a <- e.allocs :: a.info.extents != []
  {
    if HasExtents(pattern) {
      forall e <- plan.entries, a <- e.allocs ensures a.info.extents != [] {
        var k :| 0 <= k < |plan.entries| && plan.entries[k] == e;
        assert EntryOf(plan, k, pattern, |pattern|);
        assert AllocAt(pattern, |pattern|, a);
      }
    }
    if forall e <- plan.entries :: e.attach == None ==> e.rank == 0 {
      forall i | 0 <= i < |pattern| && pattern[i].point.AllocPoint? && ScopeAt(pattern, i) == None ensures pattern[i].point.info.rank == 0 {
        var e := PointServed(pattern, plan, i);
      }
    }
    if forall i | 0 <= i < |pattern| && pattern[i].point.AllocPoint? && ScopeAt(pattern, i) == None :: pattern[i].point.info.rank == 0 {
      forall e <- plan.entries | e.attach == None ensures e.rank == 0 {
        var a, i := EntryServes(pattern, plan, e);
      }
    }
  }

  lemma {:induction false} PointServed(pattern: seq<StmtEntry>, plan: Plan, i: nat) returns (e: StorageEntry)
    requires EntriesOf(pattern, |pattern|, plan) && i < |pattern| && pattern[i].point.AllocPoint?
    ensures e in plan.entries && e.attach == ScopeAt(pattern, i) && e.rank == pattern[i].point.info.rank
  {
    var b := pattern[i].point.buffer;
    assert IsAlloc(pattern[i], b);
    assert b in plan.allocMap;
    e := plan.entries[plan.allocMap[b]];
    assert Serves(e, ScopeAt(pattern, i), b, pattern[i].point.info);
  }

  lemma {:induction false} EntryServes(pattern: seq<StmtEntry>, plan: Plan, e: StorageEntry) returns (a: Alloc, i: nat)
    requires EntriesOf(pattern, |pattern|, plan) && e in plan.entries
    ensures i < |pattern| && pattern[i].point == AllocPoint(a.buffer, a.info) && e.attach == ScopeAt(pattern, i) && e.rank == a.info.rank
  {
    var k: nat :| k < |plan.entries| && plan.entries[k] == e;
    assert EntryOf(plan, k, pattern, |pattern|);
    a := e.allocs[0];
    assert a in e.allocs;
    i :| i < |pattern| && pattern[i].point == AllocPoint(a.buffer, a.info);
    assert IsAlloc(pattern[i], a.buffer);
    assert Serves(e, ScopeAt(pattern, i), a.buffer, a.info);
  }
}
