/** When the planner of src/pass/storage_sync.cc makes a plan, and what becomes of its plan when loops are skipped. */
module StorageSyncPlans {
  import opened Wrappers
  import opened IntSet
  import opened StorageSync

  // ----- when a plan is made -----

  predicate NoConditionals(s: Stmt)
    decreases s, 1
  {
    match s
    case For(_, _, _, _, body) => NoConditionalsBody(body)
    case IfThenElse(_, _, _, _) => false
    case _ => true
  }

  predicate NoConditionalsBody(body: seq<Stmt>)
    decreases body, 0
  {
    forall k :: 0 <= k < |body| ==> NoConditionals(body[k])
  }

  /** Without conditionals a plan is always made. */
  lemma {:induction false} NoConditionalsGives(body: seq<Stmt>, enabled: set<nat>, syncs: set<nat>)
    requires NoConditionalsBody(body)
    ensures PlanBody(body, enabled, false, syncs).Some? && PlanProgram(body, enabled).Some?
  {
    NoConditionalsBodyGives(body, enabled, syncs);
    NoConditionalsBodyGives(body, enabled, {});
  }

  lemma {:induction false} NoConditionalsBodyGives(body: seq<Stmt>, enabled: set<nat>, syncs: set<nat>)
    requires NoConditionalsBody(body)
    ensures PlanBody(body, enabled, false, syncs).Some?
    decreases body, 0
  {
    if |body| > 0 {
      var init := body[..|body| - 1];
      assert forall k :: 0 <= k < |init| ==> init[k] == body[k];
      NoConditionalsBodyGives(init, enabled, syncs);
      NoConditionalsOneGives(body[|body| - 1], enabled, PlanBody(init, enabled, false, syncs).value.syncs);
    }
  }

  lemma {:induction false} NoConditionalsOneGives(s: Stmt, enabled: set<nat>, syncs: set<nat>)
    requires NoConditionals(s)
    ensures Plan(s, enabled, false, syncs).Some?
    decreases s, 1
  {
    if s.For? {
      NoConditionalsBodyGives(s.body, enabled, syncs);
    }
  }

  /** Some conditional reads synchronised storage in its condition, or a scope under a condition needs a barrier or has one. */
  ghost predicate Refused(s: Stmt, enabled: set<nat>, conditional: bool, syncs: set<nat>)
    decreases s, 1
  {
    match s
    case For(_, _, _, _, body) =>
      || RefusedBody(body, enabled, conditional, syncs)
      || (conditional && NotQuietIn(PlanBody(body, enabled, conditional, syncs), true))
    case IfThenElse(_, condition, thenCase, _) =>
      || !NothingDone(condition, enabled)
      || RefusedBody(thenCase, enabled, true, syncs)
      || NotQuietIn(PlanBody(thenCase, enabled, true, syncs), false)
    case _ => false
  }

  ghost predicate NotQuietIn(inner: Option<Entries>, loop: bool) {
    inner.Some? && !Quiet(inner.value.es, loop, inner.value.syncs)
  }

  ghost predicate RefusedBody(body: seq<Stmt>, enabled: set<nat>, conditional: bool, syncs: set<nat>)
    decreases body, 0
  {
    exists k :: 0 <= k < |body| && RefusedAt(body, k, enabled, conditional, PlanBody(body[..k], enabled, conditional, syncs))
  }

  ghost predicate RefusedAt(body: seq<Stmt>, k: nat, enabled: set<nat>, conditional: bool, before: Option<Entries>)
    requires k < |body|
    decreases body, 0, k
  {
    before.Some? && Refused(body[k], enabled, conditional, before.value.syncs)
  }

  /** That is exactly when no plan is made. */
  lemma {:induction false} PlanFailsIff(s: Stmt, enabled: set<nat>, conditional: bool, syncs: set<nat>)
    ensures Plan(s, enabled, conditional, syncs) == None <==> Refused(s, enabled, conditional, syncs)
    decreases s, 1
  {
    match s
    case For(_, _, _, _, body) => PlanBodyFailsIff(body, enabled, conditional, syncs);
    case IfThenElse(_, condition, thenCase, _) =>
      OpsWait(condition, enabled);
      PlanBodyFailsIff(thenCase, enabled, true, syncs);
    case _ =>
  }

  lemma {:induction false} PlanBodyFailsIff(body: seq<Stmt>, enabled: set<nat>, conditional: bool, syncs: set<nat>)
    ensures PlanBody(body, enabled, conditional, syncs) == None <==> RefusedBody(body, enabled, conditional, syncs)
    decreases body, 0
  {
    hide Refused, Plan;
    if |body| > 0 {
      var n := |body| - 1;
      var init := body[..n];
      PlanBodyFailsIff(init, enabled, conditional, syncs);
      var before := PlanBody(init, enabled, conditional, syncs);
      forall k | 0 <= k < n
        ensures RefusedAt(init, k, enabled, conditional, PlanBody(init[..k], enabled, conditional, syncs)) <==>
          RefusedAt(body, k, enabled, conditional, PlanBody(body[..k], enabled, conditional, syncs))
      {
        assert init[..k] == body[..k] && init[k] == body[k];
      }
      if before.Some? {
        PlanFailsIff(body[n], enabled, conditional, before.value.syncs);
      }
      assert RefusedAt(body, n, enabled, conditional, before) ==> before.Some?;
    }
  }

  lemma {:induction false} PlanProgramFailsIff(body: seq<Stmt>, enabled: set<nat>)
    ensures PlanProgram(body, enabled) == None <==> RefusedBody(body, enabled, false, {})
  {
    PlanBodyFailsIff(body, enabled, false, {});
  }

  // ----- loops that are skipped -----

  ghost predicate SomeSync(es: seq<StmtEntry>) {
    exists e <- es :: HasSync(e.access)
  }

  lemma {:induction false} FlattenSync(es: seq<StmtEntry>, syncs: set<nat>)
    requires SomeSync(es) || exists e <- es :: e.stmt in syncs
    ensures HasSync(Flatten(GuardedAll(es, syncs)))
    decreases |es|
  {
    assert GuardedAll(es, syncs)[1..] == GuardedAll(es[1..], syncs);
    var e :| e in es && (HasSync(e.access) || e.stmt in syncs);
    if e == es[0] {
      assert HasSync(Guarded(e, syncs));
    } else {
      assert e in es[1..];
      FlattenSync(es[1..], syncs);
    }
  }

  /** A barrier inside a supported statement that is not under a condition, explicit or inserted, shows in its entry. */
  lemma {:induction false} BarrierShows(s: Stmt, enabled: set<nat>, syncs: set<nat>)
    requires Supported(s, enabled) && Plan(s, enabled, false, syncs).Some?
    ensures var r := Plan(s, enabled, false, syncs).value; !NoBarrier(s, enabled) || r.syncs != syncs ==> SomeSync(r.es)
    decreases s, 1
  {
    match s
    case For(_, _, _, _, body) =>
      BarrierShowsBody(body, enabled, syncs);
      var inner := PlanBody(body, enabled, false, syncs).value;
      var r := PlanScope(inner.es, true, false, inner.syncs).value;
      SimSafe(Rotations(inner.es, true), inner.syncs);
      if r.syncs != inner.syncs {
        var id :| id in r.syncs && id !in inner.syncs;
        assert id in Stmts(inner.es);
      }
      if !NoBarrierBody(body, enabled) || r.syncs != syncs {
        FlattenSync(inner.es, r.syncs);
        ExposedSame(Flatten(GuardedAll(inner.es, r.syncs)));
        RelaxParts(r.access, LoopDomain(s));
        var e := Plan(s, enabled, false, syncs).value.es[0];
        assert HasSync(e.access);
      }
    case IfThenElse(_, _, thenCase, elseCase) =>
      ConditionalKeeps(thenCase, enabled, syncs);
      InertNoBarrierBody(elseCase, enabled);
    case _ =>
      OpsWait(s.ops, enabled);
      var es := Plan(s, enabled, false, syncs).value.es;
      assert !NoWaits(s.ops) ==> |es| == 1 && HasSync(es[0].access);
  }

  lemma {:induction false} BarrierShowsBody(body: seq<Stmt>, enabled: set<nat>, syncs: set<nat>)
    requires SupportedBody(body, enabled) && PlanBody(body, enabled, false, syncs).Some?
    ensures var r := PlanBody(body, enabled, false, syncs).value; !NoBarrierBody(body, enabled) || r.syncs != syncs ==> SomeSync(r.es)
    decreases body, 0
  {
    hide Plan, Supported, NoBarrier;
    if |body| > 0 {
      var n := |body| - 1;
      var init, last := body[..n], body[n];
      assert forall k :: 0 <= k < n ==> init[k] == body[k];
      BarrierShowsBody(init, enabled, syncs);
      var before := PlanBody(init, enabled, false, syncs).value;
      BarrierShows(last, enabled, before.syncs);
      SomeSyncAppend(before.es, Plan(last, enabled, false, before.syncs).value.es);
      assert NoBarrierBody(init, enabled) && NoBarrier(last, enabled) ==> NoBarrierBody(body, enabled);
    }
  }

  lemma {:induction false} SomeSyncAppend(es: seq<StmtEntry>, fs: seq<StmtEntry>)
    ensures SomeSync(es + fs) <==> SomeSync(es) || SomeSync(fs)
  {
  }

  /** Under a condition no barrier is inserted. */
  lemma {:induction false} ConditionalKeeps(body: seq<Stmt>, enabled: set<nat>, syncs: set<nat>)
    requires PlanBody(body, enabled, true, syncs).Some?
    ensures PlanBody(body, enabled, true, syncs).value.syncs == syncs
    decreases body, 0
  {
    if |body| > 0 {
      ConditionalKeeps(body[..|body| - 1], enabled, syncs);
      ConditionalOneKeeps(body[|body| - 1], enabled, syncs);
    }
  }

  lemma {:induction false} ConditionalOneKeeps(s: Stmt, enabled: set<nat>, syncs: set<nat>)
    requires Plan(s, enabled, true, syncs).Some?
    ensures Plan(s, enabled, true, syncs).value.syncs == syncs
    decreases s, 1
  {
    match s
    case For(_, _, _, _, body) => ConditionalKeeps(body, enabled, syncs);
    case IfThenElse(_, _, thenCase, _) => ConditionalKeeps(thenCase, enabled, syncs);
    case _ =>
  }

  lemma {:induction false} InertNoBarrierBody(body: seq<Stmt>, enabled: set<nat>)
    requires InertBody(body, enabled)
    ensures NoBarrierBody(body, enabled)
    decreases body, 0
  {
    forall k | 0 <= k < |body| ensures NoBarrier(body[k], enabled) {
      InertNoBarrier(body[k], enabled);
    }
  }

  lemma {:induction false} InertNoBarrier(s: Stmt, enabled: set<nat>)
    requires Inert(s, enabled)
    ensures NoBarrier(s, enabled)
    decreases s, 1
  {
    match s
    case For(_, _, _, _, body) => InertNoBarrierBody(body, enabled);
    case IfThenElse(_, _, thenCase, elseCase) =>
      InertNoBarrierBody(thenCase, enabled);
      InertNoBarrierBody(elseCase, enabled);
    case _ =>
  }

  /** No access in t is to buffer b. */
  predicate Avoids(t: seq<Access>, b: nat) {
    forall a <- t :: a.Sync? || a.buffer != b
  }

  predicate AllAvoid(es: seq<StmtEntry>, b: nat) {
    forall e <- es :: Avoids(e.access, b)
  }

  predicate OpsAvoid(ops: seq<StorageSync.Op>, b: nat) {
    forall op <- ops :: !op.StorageSync? ==> op.buffer != b
  }

  /** s does not touch buffer b. */
  predicate Untouched(s: Stmt, b: nat)
    decreases s, 1
  {
    match s
    case Store(_, c, _, ops) => c != b && OpsAvoid(ops, b)
    case Evaluate(_, ops) => OpsAvoid(ops, b)
    case For(_, _, _, _, body) => UntouchedBody(body, b)
    case IfThenElse(_, condition, thenCase, elseCase) => OpsAvoid(condition, b) && UntouchedBody(thenCase, b) && UntouchedBody(elseCase, b)
  }

  predicate UntouchedBody(body: seq<Stmt>, b: nat)
    decreases body, 0
  {
    forall k :: 0 <= k < |body| ==> Untouched(body[k], b)
  }

  lemma {:induction false} OpsAccessAvoid(ops: seq<StorageSync.Op>, enabled: set<nat>, b: nat)
    requires OpsAvoid(ops, b)
    ensures Avoids(OpsAccess(ops, enabled), b)
  {
    if ops != [] {
      OpsAccessAvoid(ops[1..], enabled, b);
      assert ops[0] in ops;
    }
  }

  /** Then the summary of a scope does not either. */
  lemma {:induction false} SummaryAvoids(es: seq<StmtEntry>, syncs: set<nat>, b: nat, dom: DomMap)
    requires AllAvoid(es, b)
    ensures var f := Exposed(Flatten(GuardedAll(es, syncs))); Avoids(f, b) && Avoids(RelaxAll(f, dom), b)
  {
    FlattenAvoids(es, syncs, b);
    var f := Flatten(GuardedAll(es, syncs));
    ExposedElements(f);
    RelaxAvoids(Exposed(f), dom, b);
  }

  lemma {:induction false} FlattenAvoids(es: seq<StmtEntry>, syncs: set<nat>, b: nat)
    requires AllAvoid(es, b)
    ensures Avoids(Flatten(GuardedAll(es, syncs)), b)
    decreases |es|
  {
    if |es| > 0 {
      assert GuardedAll(es, syncs)[1..] == GuardedAll(es[1..], syncs);
      FlattenAvoids(es[1..], syncs, b);
      assert es[0] in es && Avoids(es[0].access, b);
    }
  }

  lemma {:induction false} ExposedElements(f: seq<Access>)
    ensures forall a <- Exposed(f) :: a in f
  {
    FirstElements(f);
    LastElements(f);
  }

  lemma {:induction false} FirstElements(f: seq<Access>)
    ensures forall a <- ToFirstSync(f) :: a in f
  {
    if f != [] {
      FirstElements(f[1..]);
    }
  }

  lemma {:induction false} LastElements(f: seq<Access>)
    ensures forall a <- AfterLastSync(f) :: a in f
  {
    if f != [] {
      LastElements(f[1..]);
    }
  }

  lemma {:induction false} RelaxAvoids(f: seq<Access>, dom: DomMap, b: nat)
    requires Avoids(f, b)
    ensures Avoids(RelaxAll(f, dom), b)
  {
    if f != [] {
      RelaxAvoids(f[1..], dom, b);
      assert f[0] in f;
    }
  }

  lemma {:induction false} PlanAvoids(s: Stmt, enabled: set<nat>, conditional: bool, syncs: set<nat>, b: nat)
    requires Untouched(s, b) && Plan(s, enabled, conditional, syncs).Some?
    ensures AllAvoid(Plan(s, enabled, conditional, syncs).value.es, b)
    decreases s, 1
  {
    match s
    case Store(_, _, _, ops) => OpsAccessAvoid(ops, enabled, b);
    case Evaluate(_, ops) => OpsAccessAvoid(ops, enabled, b);
    case For(_, _, _, _, body) =>
      PlanBodyAvoids(body, enabled, conditional, syncs, b);
      var inner := PlanBody(body, enabled, conditional, syncs).value;
      SummaryAvoids(inner.es, PlanScope(inner.es, true, conditional, inner.syncs).value.syncs, b, LoopDomain(s));
    case IfThenElse(_, _, thenCase, _) =>
      PlanBodyAvoids(thenCase, enabled, true, syncs, b);
      var inner := PlanBody(thenCase, enabled, true, syncs).value;
      SummaryAvoids(inner.es, inner.syncs, b, map[]);
  }

  lemma {:induction false} PlanBodyAvoids(body: seq<Stmt>, enabled: set<nat>, conditional: bool, syncs: set<nat>, b: nat)
    requires UntouchedBody(body, b) && PlanBody(body, enabled, conditional, syncs).Some?
    ensures AllAvoid(PlanBody(body, enabled, conditional, syncs).value.es, b)
    decreases body, 0
  {
    hide Plan, Untouched, Avoids;
    if |body| > 0 {
      var n := |body| - 1;
      assert forall k :: 0 <= k < n ==> body[..n][k] == body[k];
      PlanBodyAvoids(body[..n], enabled, conditional, syncs, b);
      PlanAvoids(body[n], enabled, conditional, PlanBody(body[..n], enabled, conditional, syncs).value.syncs, b);
    }
  }

  /** A write, a statement, and a read that needs a barrier after the write. */
  function Between(i: nat, b: nat, x: Expr, s: Stmt, j: nat, y: Expr): seq<Stmt> {
    [Store(i, b, x, []), s, Evaluate(j, [Load(b, y)])]
  }

  /** The plan for a write, a loop that holds a barrier and does not touch the buffer, and a read: the barriers of the loop and
      no other. */
  lemma {:induction false} BetweenPlan(s: Stmt, enabled: set<nat>, f: seq<Access>, syncs: set<nat>, i: nat, b: nat, x: Expr, j: nat, y: Expr)
    requires Plan(s, enabled, false, {}) == Some(Entries([StmtEntry(s.id, f)], syncs)) && HasSync(f)
    requires b in enabled && (forall a <- f :: a.Sync? || a.buffer != b) && {i, s.id, j} !! syncs
    ensures PlanProgram(Between(i, b, x, s, j, y), enabled) == Some(syncs)
  {
    hide Plan;
    var body := Between(i, b, x, s, j, y);
    var write, read := Write(b, EvalSet(x, map[])), Read(b, EvalSet(y, map[]));
    var es := [StmtEntry(i, [write]), StmtEntry(s.id, f), StmtEntry(j, [read])];
    BetweenLeaves(enabled, syncs, i, b, x, j, y);
    PlanBodyStep(body, 0, enabled, false, {});
    PlanBodyStep(body, 1, enabled, false, {});
    PlanBodyStep(body, 2, enabled, false, {});
    assert body[..0] == [] && body[..3] == body;
    assert [] + [es[0]] == [es[0]] && [es[0]] + [es[1]] == es[..2] && es[..2] + [es[2]] == es;
    assert PlanBody(body, enabled, false, {}) == Some(Entries(es, syncs));
    BetweenSafe(f, write, read);
    assert GuardedAll(es, syncs) == [[write], f, [read]];
    SimSafe(es, syncs);
  }

  lemma {:induction false} OneAccess(a: Access, p: set<Access>)
    requires a != Sync
    ensures Head([a]) == Tail([a]) == {a} && !HasSync([a]) && Pending(p, [a]) == p + {a} && Pending(p, []) == p
  {
    var none: seq<Access> := [];
    assert [a][1..] == none && Tail(none) == {} && Head(none) == {} && !HasSync(none);
  }

  lemma {:induction false} BetweenLeaves(enabled: set<nat>, syncs: set<nat>, i: nat, b: nat, x: Expr, j: nat, y: Expr)
    requires b in enabled
    ensures Plan(Store(i, b, x, []), enabled, false, {}) == Some(Entries([StmtEntry(i, [Write(b, EvalSet(x, map[]))])], {}))
    ensures Plan(Evaluate(j, [Load(b, y)]), enabled, false, syncs) == Some(Entries([StmtEntry(j, [Read(b, EvalSet(y, map[]))])], syncs))
  {
    hide EvalSet;
    assert OpsAccess([], enabled) == [];
    var write: seq<Access> := [Write(b, EvalSet(x, map[]))];
    assert StoreAccess(b, x, [], enabled) == write + [] == write;
    assert [Load(b, y)][1..] == [];
    assert OpsAccess([Load(b, y)], enabled) == [Read(b, EvalSet(y, map[]))];
  }

  lemma {:induction false} BetweenSafe(f: seq<Access>, write: Access, read: Access)
    requires HasSync(f) && write.Write? && read.Read? && forall a <- f :: a.Sync? || (a.buffer != write.buffer && a.buffer != read.buffer)
    ensures Safe({}, [[write], f, [read]])
  {
    hide Head, Tail;
    OneAccess(write, {});
    OneAccess(read, Tail(f));
    forall a <- Head(f) ensures a in f && a != Sync {
      var k := HeadIndex(f, a);
    }
    forall a <- Tail(f) ensures a in f && a != Sync {
      TailElements(f, a);
    }
    assert Clear({}, [write]) && Clear({write}, f) && Clear(Tail(f), [read]);
    var ts := [[write], f, [read]];
    assert ts[1..] == [f, [read]] && [f, [read]][1..] == [[read]] && [[read]][1..] == [];
    assert Safe(Tail(f), [[read]]);
    assert Safe({write}, [f, [read]]);
  }

  /** Whenever a supported loop holds a barrier, explicit or inserted by its plan, there is a program in which skipping it leaves
      a hazard: it stands between a write and a read that needs a barrier after it. Together with what PlanSyncs promises,
      a loop may be skipped in every program exactly if it holds no barrier. */
  lemma {:induction false} SkippedLoopMissed(s: Stmt, enabled: set<nat>, i: nat, b: nat, x: Expr, j: nat, y: Expr)
    requires s.For? && Supported(s, enabled) && Plan(s, enabled, false, {}).Some?
    requires !(NoBarrierBody(s.body, enabled) && IdsOfBody(s.body) !! Plan(s, enabled, false, {}).value.syncs)
    requires {i, s.id, j} !! Plan(s, enabled, false, {}).value.syncs && Untouched(s, b)
    requires b in enabled && Hazard(Write(b, EvalSet(x, map[])), Read(b, EvalSet(y, map[])))
    ensures var syncs := Plan(s, enabled, false, {}).value.syncs;
      PlanProgram(Between(i, b, x, s, j, y), enabled) == Some(syncs) && !RunsSafe(Between(i, b, x, s, j, y), enabled, {s.id}, syncs)
  {
    hide EvalSet, IsRun, RunsSafe, Safe, PlanProgram, Supported, Untouched, NoBarrierBody, IdsOfBody, Hazard;
    BarrierShows(s, enabled, {});
    PlanAvoids(s, enabled, false, {}, b);
    var r := Plan(s, enabled, false, {}).value;
    var e :| e in r.es && HasSync(e.access);
    assert r.es == [e] && e.stmt == s.id && e == StmtEntry(s.id, e.access) by {
      LoopEntry(s, enabled);
    }
    BetweenPlan(s, enabled, e.access, r.syncs, i, b, x, j, y);
    var write, read := Write(b, EvalSet(x, map[])), Read(b, EvalSet(y, map[]));
    BetweenRun(s, enabled, r.syncs, i, b, x, j, y);
    SkippedUnsafe(write, read);
    UnsafeRun(Between(i, b, x, s, j, y), enabled, {s.id}, r.syncs, [[write], [], [read]]);
  }

  lemma {:induction false} UnsafeRun(body: seq<Stmt>, enabled: set<nat>, skip: set<nat>, syncs: set<nat>, run: seq<seq<Access>>)
    requires IsRun(body, enabled, skip, syncs, run) && !Safe({}, run)
    ensures !RunsSafe(body, enabled, skip, syncs)
  {
  }

  lemma {:induction false} LoopEntry(s: Stmt, enabled: set<nat>)
    requires s.For? && Plan(s, enabled, false, {}).Some?
    ensures var es := Plan(s, enabled, false, {}).value.es; |es| <= 1 && forall e <- es :: e.stmt == s.id
  {
  }

  /** The program runs with the loop left out. */
  lemma {:induction false} BetweenRun(s: Stmt, enabled: set<nat>, syncs: set<nat>, i: nat, b: nat, x: Expr, j: nat, y: Expr)
    requires s.For? && b in enabled && {i, s.id, j} !! syncs
    ensures IsRun(Between(i, b, x, s, j, y), enabled, {s.id}, syncs, [[Write(b, EvalSet(x, map[]))], [], [Read(b, EvalSet(y, map[]))]])
  {
    hide EvalSet, LoopDomain;
    var none: seq<seq<seq<Access>>> := [];
    assert Join(none) == [] && Flatten(Join(none)) == [] && RelaxAll([], LoopDomain(s)) == [];
    assert IsTrace(s, enabled, {s.id}, syncs, []);
    assert OpsAccess([], enabled) == [];
    assert [Load(b, y)][1..] == [];
    assert OpsAccess([Load(b, y)], enabled) == [Read(b, EvalSet(y, map[]))];
  }

  lemma {:induction false} SkippedUnsafe(write: Access, read: Access)
    requires write.Write? && read.Read? && Hazard(write, read)
    ensures !Safe({}, [[write], [], [read]])
  {
    hide Head, Tail;
    OneAccess(write, {});
    OneAccess(read, {write});
    var ts: seq<seq<Access>> := [[write], [], [read]];
    assert ts[1..] == [[], [read]] && [[], [read]][1..] == [[read]];
    assert read in Head([read]) && !Clear({write}, [read]);
    assert Pending({write}, []) == {write};
    assert !Safe({write}, [[read]]);
    assert !Safe({write}, [[], [read]]);
    assert Safe({}, ts) ==> Safe(Pending({}, ts[0]), ts[1..]);
  }

  // for (v = 0; v < n; ++v) { B[v] = ..; .. = B[v + 1]; }
  const V := Variable(0)
  const NEXT := Bin(Add, V, IntImm(1))
  const SHIFT := For(2, 0, IntImm(0), Variable(9), [Store(3, 1, V, []), Evaluate(4, [Load(1, NEXT)])])
  const BOTH: set<nat> := {0, 1}

  lemma {:induction false} ShiftShape()
    ensures Supported(SHIFT, BOTH) && Untouched(SHIFT, 0) && NoBarrierBody(SHIFT.body, BOTH) && IdsOfBody(SHIFT.body) == {3, 4}
  {
    var body := SHIFT.body;
    assert IdsOf(body[0]) == {3} && IdsOf(body[1]) == {4};
    BetweenLeaves(BOTH, {}, 3, 1, V, 4, NEXT);
    assert OpsAccess([], BOTH) == [] && OpsAccess([Load(1, NEXT)], BOTH) == [Read(1, EvalSet(NEXT, map[]))] by {
      assert [Load(1, NEXT)][1..] == [];
    }
  }

  lemma {:induction false} ShiftBody()
    ensures PlanBody(SHIFT.body, BOTH, false, {}) ==
      Some(Entries([StmtEntry(3, [Write(1, EvalSet(V, map[]))]), StmtEntry(4, [Read(1, EvalSet(NEXT, map[]))])], {}))
  {
    hide EvalSet, Plan;
    var body := SHIFT.body;
    BetweenLeaves(BOTH, {}, 3, 1, V, 4, NEXT);
    var e1, e2 := StmtEntry(3, [Write(1, EvalSet(V, map[]))]), StmtEntry(4, [Read(1, EvalSet(NEXT, map[]))]);
    PlanBodyStep(body, 0, BOTH, false, {});
    PlanBodyStep(body, 1, BOTH, false, {});
    assert body[..0] == [] && body[..2] == body;
    assert [] + [e1] == [e1] && [e1] + [e2] == [e1, e2];
    assert PlanBody(body[..1], BOTH, false, {}) == Some(Entries([e1], {}));
  }

  /** The body of that loop needs a barrier, and the loop gets some. */
  lemma {:induction false} ShiftPlanned()
    ensures var r := Plan(SHIFT, BOTH, false, {}); r.Some? && r.value.syncs != {} && r.value.syncs <= {3, 4}
  {
    hide EvalSet, LoopDomain, Safe, SimAll, PlanBody;
    var write, read := Write(1, EvalSet(V, map[])), Read(1, EvalSet(NEXT, map[]));
    var es := [StmtEntry(3, [write]), StmtEntry(4, [read])];
    ShiftBody();
    SimSafe(es + es, {});
    ShiftHazard();
    assert GuardedAll(es + es, {}) == [[write], [read], [write], [read]];
    assert Stmts(es + es) == {3, 4};
  }

  lemma {:induction false} ShiftHazard()
    ensures var write, read := Write(1, EvalSet(V, map[])), Read(1, EvalSet(NEXT, map[]));
      Hazard(write, read) && !Safe({}, [[write], [read], [write], [read]])
  {
    var write, read := Write(1, EvalSet(V, map[])), Read(1, EvalSet(NEXT, map[]));
    assert EvalSet(V, map[]) == SinglePoint(V) && EvalSet(IntImm(1), map[]) == SinglePoint(IntImm(1));
    assert EvalSet(NEXT, map[]) == SinglePoint(NEXT);
    OneAccess(write, {});
    OneAccess(read, {write});
    var ts: seq<seq<Access>> := [[write], [read], [write], [read]];
    assert !Clear({write}, [read]);
    assert ts[1..][0] == [read];
    assert !Safe({write}, ts[1..]);
    assert Safe({}, ts) ==> Safe(Pending({}, ts[0]), ts[1..]);
  }

  /** A[0] is written, the loop follows, and A[n] is read: the barriers of the loop are all that is planned, and with n == 0 the
      read meets the write without a barrier in between. */
  lemma {:induction false} SkippedShiftMissed()
    ensures var body := Between(1, 0, IntImm(0), SHIFT, 5, Variable(9));
      PlanProgram(body, BOTH).Some? && SupportedBody(body, BOTH) && !RunsSafe(body, BOTH, {2}, PlanProgram(body, BOTH).value)
  {
    ShiftPlanned();
    ShiftShape();
    hide Plan, Supported, RunsSafe, PlanProgram, Untouched, NoBarrierBody, IdsOfBody;
    var w, r := Write(0, EvalSet(IntImm(0), map[])), Read(0, EvalSet(Variable(9), map[]));
    assert EvalSet(IntImm(0), map[]) == SinglePoint(IntImm(0)) && EvalSet(Variable(9), map[]) == SinglePoint(Variable(9));
    assert Hazard(w, r);
    SkippedLoopMissed(SHIFT, BOTH, 1, 0, IntImm(0), 5, Variable(9));
    BetweenSupported(1, 0, IntImm(0), SHIFT, 5, Variable(9), BOTH);
  }

  lemma {:induction false} BetweenSupported(i: nat, b: nat, x: Expr, s: Stmt, j: nat, y: Expr, enabled: set<nat>)
    requires Supported(s, enabled)
    ensures SupportedBody(Between(i, b, x, s, j, y), enabled)
  {
  }

  // ----- conditionals -----

  /** A conditional with a barrier in its branch stands between a write and a read that need one: when the branch is not taken,
      the hazard is left. */
  lemma {:induction false} UntakenBranchMissed(s: Stmt, enabled: set<nat>, i: nat, b: nat, x: Expr, j: nat, y: Expr)
    requires s.IfThenElse? && s.elseCase == [] && Plan(s, enabled, false, {}).Some? && SomeSync(Plan(s, enabled, false, {}).value.es)
    requires {i, s.id, j} !! Plan(s, enabled, false, {}).value.syncs && Untouched(s, b)
    requires b in enabled && Hazard(Write(b, EvalSet(x, map[])), Read(b, EvalSet(y, map[])))
    ensures var syncs := Plan(s, enabled, false, {}).value.syncs;
      PlanProgram(Between(i, b, x, s, j, y), enabled) == Some(syncs) && !RunsSafe(Between(i, b, x, s, j, y), enabled, {}, syncs)
  {
    hide EvalSet, IsRun, RunsSafe, Safe, PlanProgram, Untouched, Hazard;
    PlanAvoids(s, enabled, false, {}, b);
    var r := Plan(s, enabled, false, {}).value;
    var e :| e in r.es && HasSync(e.access);
    assert r.es == [e] && e == StmtEntry(s.id, e.access);
    BetweenPlan(s, enabled, e.access, r.syncs, i, b, x, j, y);
    var write, read := Write(b, EvalSet(x, map[])), Read(b, EvalSet(y, map[]));
    UntakenRun(s, enabled, r.syncs, i, b, x, j, y);
    SkippedUnsafe(write, read);
    UnsafeRun(Between(i, b, x, s, j, y), enabled, {}, r.syncs, [[write], [], [read]]);
  }

  lemma {:induction false} UntakenRun(s: Stmt, enabled: set<nat>, syncs: set<nat>, i: nat, b: nat, x: Expr, j: nat, y: Expr)
    requires s.IfThenElse? && s.elseCase == [] && b in enabled && {i, s.id, j} !! syncs
    ensures IsRun(Between(i, b, x, s, j, y), enabled, {}, syncs, [[Write(b, EvalSet(x, map[]))], [], [Read(b, EvalSet(y, map[]))]])
  {
    hide EvalSet;
    var none: seq<seq<Access>> := [];
    assert IsRun(s.elseCase, enabled, {}, syncs, none) && Flatten(none) == [];
    assert IsTrace(s, enabled, {}, syncs, []);
    assert OpsAccess([], enabled) == [];
    assert [Load(b, y)][1..] == [];
    assert OpsAccess([Load(b, y)], enabled) == [Read(b, EvalSet(y, map[]))];
  }

  // A[x] = ..; if (..) { } else { .. = A[y]; }
  function ElseRead(i: nat, b: nat, x: Expr, k: nat, j: nat, y: Expr): seq<Stmt> {
    [Store(i, b, x, []), IfThenElse(k, [], [], [Evaluate(j, [Load(b, y)])])]
  }

  /** Else branches are not visited: a read there gets no barrier after a write, whatever the indices are. */
  lemma {:induction false} ElseMissed(enabled: set<nat>, i: nat, b: nat, x: Expr, k: nat, j: nat, y: Expr)
    requires b in enabled && Hazard(Write(b, EvalSet(x, map[])), Read(b, EvalSet(y, map[])))
    ensures PlanProgram(ElseRead(i, b, x, k, j, y), enabled) == Some({}) && !RunsSafe(ElseRead(i, b, x, k, j, y), enabled, {}, {})
  {
    hide EvalSet, IsRun, RunsSafe, Safe, PlanProgram, Hazard;
    ElsePlan(enabled, i, b, x, k, j, y);
    ElseRun(enabled, i, b, x, k, j, y);
    var write, read := Write(b, EvalSet(x, map[])), Read(b, EvalSet(y, map[]));
    TwoUnsafe(write, read);
    UnsafeRun(ElseRead(i, b, x, k, j, y), enabled, {}, {}, [[write], [read]]);
  }

  lemma {:induction false} ElsePlan(enabled: set<nat>, i: nat, b: nat, x: Expr, k: nat, j: nat, y: Expr)
    requires b in enabled
    ensures PlanProgram(ElseRead(i, b, x, k, j, y), enabled) == Some({})
  {
    hide EvalSet, Safe;
    var body := ElseRead(i, b, x, k, j, y);
    var e1, e2 := StmtEntry(i, [Write(b, EvalSet(x, map[]))]), StmtEntry(k, []);
    var nothing: seq<StmtEntry> := [];
    BetweenLeaves(enabled, {}, i, b, x, j, y);
    NoEntries();
    assert OpsAccess([], enabled) == [];
    assert PlanBody([], enabled, true, {}) == Some(Entries(nothing, {}));
    assert Plan(body[1], enabled, false, {}) == Some(Entries([e2], {}));
    PlanBodyStep(body, 0, enabled, false, {});
    PlanBodyStep(body, 1, enabled, false, {});
    assert body[..0] == [] && body[..2] == body && [] + [e1] == [e1] && [e1] + [e2] == [e1, e2];
    assert PlanBody(body, enabled, false, {}) == Some(Entries([e1, e2], {}));
    WriteSafe(e1.access[0]);
    assert GuardedAll([e1, e2], {}) == [e1.access, []];
    SimSafe([e1, e2], {});
  }

  lemma {:induction false} NoEntries()
    ensures PlanScope([], false, true, {}) == Some(Summary([], {}))
  {
    var none: seq<StmtEntry> := [];
    assert GuardedAll(none, {}) == [] && Flatten(GuardedAll(none, {})) == [] && Exposed([]) == [];
  }

  lemma {:induction false} WriteSafe(a: Access)
    requires a.Write?
    ensures Safe({}, [[a], []])
  {
    OneAccess(a, {});
    var ts: seq<seq<Access>> := [[a], []];
    assert Head([]) == {} && ts[1..] == [[]] && ts[1..][1..] == [];
    assert Safe(Pending({a}, []), []);
    assert Safe({a}, [[]]);
  }

  lemma {:induction false} ElseRun(enabled: set<nat>, i: nat, b: nat, x: Expr, k: nat, j: nat, y: Expr)
    requires b in enabled
    ensures IsRun(ElseRead(i, b, x, k, j, y), enabled, {}, {}, [[Write(b, EvalSet(x, map[]))], [Read(b, EvalSet(y, map[]))]])
  {
    hide EvalSet;
    var read: seq<Access> := [Read(b, EvalSet(y, map[]))];
    assert OpsAccess([], enabled) == [];
    assert [Load(b, y)][1..] == [];
    assert OpsAccess([Load(b, y)], enabled) == read;
    var s := ElseRead(i, b, x, k, j, y)[1];
    assert IsRun(s.elseCase, enabled, {}, {}, [read]);
    assert [read][1..] == [] && Flatten([read]) == read;
    assert IsTrace(s, enabled, {}, {}, read);
  }

  lemma {:induction false} TwoUnsafe(write: Access, read: Access)
    requires write.Write? && read.Read? && Hazard(write, read)
    ensures !Safe({}, [[write], [read]])
  {
    hide Head, Tail;
    OneAccess(write, {});
    OneAccess(read, {write});
    var ts: seq<seq<Access>> := [[write], [read]];
    assert ts[1..] == [[read]] && read in Head([read]) && !Clear({write}, [read]);
    assert !Safe({write}, [[read]]);
    assert Safe({}, ts) ==> Safe(Pending({}, ts[0]), ts[1..]);
  }
}
