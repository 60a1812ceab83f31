/** What safety means for the addresses that the threads of a block touch (src/pass/storage_sync.cc, FindConflict). */
module StorageSyncRaces {
  import opened Wrappers
  import opened IntSet
  import opened StorageSync
  import opened StorageSyncPlans

  /** The runs ts at work: every access with the values that the variables have at it, besides the thread index. */
  ghost predicate AtWork(ts: seq<seq<Access>>, envs: seq<seq<Env>>) {
    |envs| == |ts| && forall i | 0 <= i < |ts| :: |envs[i]| == |ts[i]|
  }

  /** Thread t touches the address. */
  predicate Touches(a: Access, env: Env, tx: nat, t: int, addr: int) {
    !a.Sync? && In(addr, a.touched, env[tx := t])
  }

  predicate ReadWrite(x: Access, e: Access) {
    ((x.Write? && e.Read?) || (x.Read? && e.Write?)) && x.buffer == e.buffer
  }

  predicate BothWrite(x: Access, e: Access) {
    x.Write? && e.Write? && x.buffer == e.buffer
  }

  ghost predicate MeetAt(x: Access, envX: Env, e: Access, envE: Env, tx: nat, t1: int, t2: int) {
    exists addr: int :: Touches(x, envX, tx, t1, addr) && Touches(e, envE, tx, t2, addr)
  }

  /** Two threads touch one address. */
  ghost predicate Meet(x: Access, envX: Env, e: Access, envE: Env, tx: nat) {
    exists t1: int, t2: int :: t1 != t2 && MeetAt(x, envX, e, envE, tx, t1, t2)
  }

  /** Without a barrier in between, no two threads touch one address in different runs, one of them writing. */
  ghost predicate NoRaces(ts: seq<seq<Access>>, envs: seq<seq<Env>>, tx: nat)
    requires AtWork(ts, envs)
  {
    forall i: nat, j: nat, a: nat, b: nat | i < j < |ts| && a < |ts[i]| && b < |ts[j]| && !BarrierBetween(ts, i, a, j, b) &&
        (ReadWrite(ts[i][a], ts[j][b]) || BothWrite(ts[i][a], ts[j][b])) ::
      !Meet(ts[i][a], envs[i][a], ts[j][b], envs[j][b], tx)
  }

  /** The index p of thread t. */
  function IndexAt(p: Expr, env: Env, tx: nat, t: int): int {
    Eval(p, env[tx := t])
  }

  /** The index p of one thread, seen under env1, is never the index q of another one, seen under env2. */
  ghost predicate Apart(p: Expr, env1: Env, q: Expr, env2: Env, tx: nat) {
    forall t1: int, t2: int | t1 != t2 :: IndexAt(p, env1, tx, t1) != IndexAt(q, env2, tx, t2)
  }

  predicate Points(x: Access, p: Expr, e: Access, q: Expr) {
    !x.Sync? && !e.Sync? && x.touched == SinglePoint(p) && e.touched == SinglePoint(q)
  }

  /** Where a read and a write with the same index have no barrier in between, that index keeps the threads apart. */
  ghost predicate IndicesApart(ts: seq<seq<Access>>, envs: seq<seq<Env>>, tx: nat)
    requires AtWork(ts, envs)
  {
    forall i: nat, j: nat, a: nat, b: nat, p: Expr | i < j < |ts| && a < |ts[i]| && b < |ts[j]| && !BarrierBetween(ts, i, a, j, b) &&
        ReadWrite(ts[i][a], ts[j][b]) && Points(ts[i][a], p, ts[j][b], p) ::
      Apart(p, envs[i][a], p, envs[j][b], tx)
  }

  /** Where two writes have no barrier in between, different threads write different addresses. */
  ghost predicate WritesApart(ts: seq<seq<Access>>, envs: seq<seq<Env>>, tx: nat)
    requires AtWork(ts, envs)
  {
    forall i: nat, j: nat, a: nat, b: nat | i < j < |ts| && a < |ts[i]| && b < |ts[j]| && !BarrierBetween(ts, i, a, j, b) && BothWrite(ts[i][a], ts[j][b]) ::
      !Meet(ts[i][a], envs[i][a], ts[j][b], envs[j][b], tx)
  }

  /** Accesses to single points meet exactly if their indices do not keep the threads apart. */
  lemma {:induction false} PointsMeet(x: Access, envX: Env, p: Expr, e: Access, envE: Env, q: Expr, tx: nat)
    requires Points(x, p, e, q)
    ensures Meet(x, envX, e, envE, tx) <==> !Apart(p, envX, q, envE, tx)
  {
    if Meet(x, envX, e, envE, tx) {
      var t1, t2 :| t1 != t2 && MeetAt(x, envX, e, envE, tx, t1, t2);
      var addr :| Touches(x, envX, tx, t1, addr) && Touches(e, envE, tx, t2, addr);
      assert IndexAt(p, envX, tx, t1) == addr == IndexAt(q, envE, tx, t2);
    }
    if !Apart(p, envX, q, envE, tx) {
      var t1: int, t2: int :| t1 != t2 && IndexAt(p, envX, tx, t1) == IndexAt(q, envE, tx, t2);
      var addr := IndexAt(p, envX, tx, t1);
      assert Touches(x, envX, tx, t1, addr) && Touches(e, envE, tx, t2, addr);
      assert MeetAt(x, envX, e, envE, tx, t1, t2);
    }
  }

  /** A read and a write that meet are a hazard, or have the same index. */
  lemma {:induction false} MeetHazard(x: Access, envX: Env, e: Access, envE: Env, tx: nat)
    requires ReadWrite(x, e) && Meet(x, envX, e, envE, tx)
    ensures Hazard(x, e) || exists p: Expr :: Points(x, p, e, p)
  {
    if !Hazard(x, e) {
      var t1, t2 :| t1 != t2 && MeetAt(x, envX, e, envE, tx, t1, t2);
      var addr :| Touches(x, envX, tx, t1, addr) && Touches(e, envE, tx, t2, addr);
      assert x.touched.min.Fin?;
      assert Points(x, x.touched.min.e, e, x.touched.min.e);
    }
  }

  /** ... between a read and a write. */
  ghost predicate NoReadWriteRaces(ts: seq<seq<Access>>, envs: seq<seq<Env>>, tx: nat)
    requires AtWork(ts, envs)
  {
    forall i: nat, j: nat, a: nat, b: nat | i < j < |ts| && a < |ts[i]| && b < |ts[j]| && !BarrierBetween(ts, i, a, j, b) && ReadWrite(ts[i][a], ts[j][b]) ::
      !Meet(ts[i][a], envs[i][a], ts[j][b], envs[j][b], tx)
  }

  /** Runs that are safe are free of races between reads and writes exactly if equal indices keep the threads apart. */
  lemma {:induction false} ReadWriteFreeIff(ts: seq<seq<Access>>, envs: seq<seq<Env>>, tx: nat)
    requires AtWork(ts, envs) && Safe({}, ts)
    ensures NoReadWriteRaces(ts, envs, tx) <==> IndicesApart(ts, envs, tx)
  {
    hide Safe, Meet, Apart, Hazard, BarrierBetween, ReadWrite, BothWrite, Points;
    SafeIffAllHazardsSynced(ts);
    if NoReadWriteRaces(ts, envs, tx) {
      forall i: nat, j: nat, a: nat, b: nat, p: Expr | i < j < |ts| && a < |ts[i]| && b < |ts[j]| && !BarrierBetween(ts, i, a, j, b) &&
          ReadWrite(ts[i][a], ts[j][b]) && Points(ts[i][a], p, ts[j][b], p)
        ensures Apart(p, envs[i][a], p, envs[j][b], tx)
      {
        PointsMeet(ts[i][a], envs[i][a], p, ts[j][b], envs[j][b], p, tx);
      }
    }
    if IndicesApart(ts, envs, tx) {
      forall i: nat, j: nat, a: nat, b: nat | i < j < |ts| && a < |ts[i]| && b < |ts[j]| && !BarrierBetween(ts, i, a, j, b) && ReadWrite(ts[i][a], ts[j][b])
        ensures !Meet(ts[i][a], envs[i][a], ts[j][b], envs[j][b], tx)
      {
        if Meet(ts[i][a], envs[i][a], ts[j][b], envs[j][b], tx) {
          MeetHazard(ts[i][a], envs[i][a], ts[j][b], envs[j][b], tx);
          var p: Expr :| Points(ts[i][a], p, ts[j][b], p);
          PointsMeet(ts[i][a], envs[i][a], p, ts[j][b], envs[j][b], p, tx);
        }
      }
    }
  }

  /** They are free of all races exactly if, besides, different threads write different addresses. */
  lemma {:induction false} RaceFreeIff(ts: seq<seq<Access>>, envs: seq<seq<Env>>, tx: nat)
    requires AtWork(ts, envs) && Safe({}, ts)
    ensures NoRaces(ts, envs, tx) <==> IndicesApart(ts, envs, tx) && WritesApart(ts, envs, tx)
  {
    hide Safe, Meet, IndicesApart, BarrierBetween, ReadWrite, BothWrite;
    ReadWriteFreeIff(ts, envs, tx);
  }

  function ValueIn(env: Env, v: nat): int {
    if v in env then env[v] else 0
  }

  lemma {:induction false} EvalAgrees(e: Expr, env1: Env, env2: Env)
    requires forall v: nat | Count(v, e) > 0 :: ValueIn(env1, v) == ValueIn(env2, v)
    ensures Eval(e, env1) == Eval(e, env2)
  {
    match e
    case Bin(_, a, b) =>
      EvalAgrees(a, env1, env2);
      EvalAgrees(b, env1, env2);
    case Select(c, t, f) =>
      EvalAgrees(c, env1, env2);
      EvalAgrees(t, env1, env2);
      EvalAgrees(f, env1, env2);
    case Variable(v) =>
      assert Count(v, e) > 0;
    case _ =>
  }

  /** An index without the variables that change between two accesses, the loop variables, keeps the threads apart across them
      exactly if it does so at any one time. */
  lemma {:induction false} ApartAnyTime(p: Expr, env1: Env, env2: Env, tx: nat)
    requires forall v: nat | v != tx && Count(v, p) > 0 :: ValueIn(env1, v) == ValueIn(env2, v)
    ensures Apart(p, env1, p, env2, tx) <==> Apart(p, env1, p, env1, tx)
  {
    forall t: int ensures IndexAt(p, env1, tx, t) == IndexAt(p, env2, tx, t) {
      EvalAgrees(p, env1[tx := t], env2[tx := t]);
    }
  }

  // ----- writes alone get no barrier -----

  /** Nothing synchronised is read, and there is no explicit barrier. */
  predicate OnlyWrites(s: Stmt, enabled: set<nat>)
    decreases s, 1
  {
    match s
    case Store(_, _, _, ops) => NothingDone(ops, enabled)
    case Evaluate(_, ops) => NothingDone(ops, enabled)
    case For(_, _, _, _, body) => OnlyWritesBody(body, enabled)
    case IfThenElse(_, condition, thenCase, _) => NothingDone(condition, enabled) && OnlyWritesBody(thenCase, enabled)
  }

  predicate OnlyWritesBody(body: seq<Stmt>, enabled: set<nat>)
    decreases body, 0
  {
    forall k :: 0 <= k < |body| ==> OnlyWrites(body[k], enabled)
  }

  predicate AllWrites(t: seq<Access>) {
    forall a <- t :: a.Write?
  }

  predicate EntriesWrite(es: seq<StmtEntry>) {
    forall e <- es :: AllWrites(e.access)
  }

  lemma {:induction false} WritesPending(p: set<Access>, t: seq<Access>)
    requires (forall a <- p :: a.Write?) && AllWrites(t)
    ensures Clear(p, t) && forall a <- Pending(p, t) :: a.Write?
  {
    forall a <- Head(t) ensures a.Write? {
      var k := HeadIndex(t, a);
    }
    forall a <- Tail(t) ensures a.Write? {
      TailElements(t, a);
    }
  }

  lemma {:induction false} WritesSafe(p: set<Access>, es: seq<StmtEntry>)
    requires (forall a <- p :: a.Write?) && EntriesWrite(es)
    ensures Safe(p, GuardedAll(es, {}))
    decreases |es|
  {
    if |es| > 0 {
      assert es[0] in es && [] + es[0].access == es[0].access;
      WritesPending(p, es[0].access);
      WritesSafe(Pending(p, es[0].access), es[1..]);
      assert GuardedAll(es, {})[1..] == GuardedAll(es[1..], {});
    }
  }

  lemma {:induction false} WritesExposed(es: seq<StmtEntry>, dom: DomMap)
    requires EntriesWrite(es)
    ensures AllWrites(Exposed(Flatten(GuardedAll(es, {})))) && AllWrites(RelaxAll(Exposed(Flatten(GuardedAll(es, {}))), dom))
  {
    WritesFlatten(es);
    ExposedElements(Flatten(GuardedAll(es, {})));
    WritesRelax(Exposed(Flatten(GuardedAll(es, {}))), dom);
  }

  lemma {:induction false} WritesFlatten(es: seq<StmtEntry>)
    requires EntriesWrite(es)
    ensures AllWrites(Flatten(GuardedAll(es, {})))
    decreases |es|
  {
    if |es| > 0 {
      assert GuardedAll(es, {})[1..] == GuardedAll(es[1..], {});
      assert es[0] in es && [] + es[0].access == es[0].access;
      WritesFlatten(es[1..]);
    }
  }

  lemma {:induction false} WritesRelax(t: seq<Access>, dom: DomMap)
    requires AllWrites(t)
    ensures AllWrites(RelaxAll(t, dom))
  {
    if t != [] {
      assert t[0] in t;
      WritesRelax(t[1..], dom);
    }
  }

  /** The scopes of such a program are planned without barriers. */
  lemma {:induction false} WritesScope(es: seq<StmtEntry>, loop: bool, conditional: bool)
    requires EntriesWrite(es)
    ensures PlanScope(es, loop, conditional, {}) == Some(Summary(Exposed(Flatten(GuardedAll(es, {}))), {}))
  {
    hide Safe, SimAll;
    WritesSafe({}, Rotations(es, loop));
    SimSafe(Rotations(es, loop), {});
  }

  lemma {:induction false} WritesPlan(s: Stmt, enabled: set<nat>, conditional: bool)
    requires OnlyWrites(s, enabled)
    ensures var r := Plan(s, enabled, conditional, {}); r.Some? && r.value.syncs == {} && EntriesWrite(r.value.es)
    decreases s, 1
  {
    hide PlanScope, PlanBody, Exposed, GuardedAll;
    match s
    case For(_, _, _, _, body) =>
      WritesPlanBody(body, enabled, conditional);
      var es := PlanBody(body, enabled, conditional, {}).value.es;
      WritesScope(es, true, conditional);
      WritesExposed(es, LoopDomain(s));
    case IfThenElse(_, condition, thenCase, _) =>
      OpsWait(condition, enabled);
      WritesPlanBody(thenCase, enabled, true);
      var es := PlanBody(thenCase, enabled, true, {}).value.es;
      WritesScope(es, false, true);
      WritesExposed(es, map[]);
    case _ => OpsWait(s.ops, enabled);
  }

  lemma {:induction false} WritesPlanBody(body: seq<Stmt>, enabled: set<nat>, conditional: bool)
    requires OnlyWritesBody(body, enabled)
    ensures var r := PlanBody(body, enabled, conditional, {}); r.Some? && r.value.syncs == {} && EntriesWrite(r.value.es)
    decreases body, 0
  {
    hide Plan, OnlyWrites, AllWrites;
    if |body| > 0 {
      var n := |body| - 1;
      assert forall k :: 0 <= k < n ==> body[..n][k] == body[k];
      WritesPlanBody(body[..n], enabled, conditional);
      WritesPlan(body[n], enabled, conditional);
    }
  }

  /** A program that only writes gets no barrier, whatever the indices are. */
  lemma {:induction false} WritesUnsynced(body: seq<Stmt>, enabled: set<nat>)
    requires OnlyWritesBody(body, enabled)
    ensures PlanProgram(body, enabled) == Some({})
  {
    hide PlanBody, PlanScope, OnlyWrites;
    WritesPlanBody(body, enabled, false);
    WritesScope(PlanBody(body, enabled, false, {}).value.es, false, false);
  }

  // B[0] = ..; B[0] = ..;
  const B_ONLY: set<nat> := {1}
  const ZERO := SinglePoint(IntImm(0))
  const WRITE_TWICE := [Store(1, 1, IntImm(0), []), Store(2, 1, IntImm(0), [])]
  const TWO_WRITES: seq<seq<Access>> := [[Write(1, ZERO)], [Write(1, ZERO)]]
  const TWO_TIMES: seq<seq<Env>> := [[map[]], [map[]]]

  lemma {:induction false} TwoWritesPlanned()
    ensures PlanProgram(WRITE_TWICE, B_ONLY) == Some({}) && IsRun(WRITE_TWICE, B_ONLY, {}, {}, TWO_WRITES)
  {
    hide PlanProgram;
    assert OpsAccess([], B_ONLY) == [];
    WritesUnsynced(WRITE_TWICE, B_ONLY);
    assert EvalSet(IntImm(0), map[]) == ZERO;
  }

  /** Two writes of all threads to one address: no barrier, and a race. */
  lemma {:induction false} WritesMeet()
    ensures PlanProgram(WRITE_TWICE, B_ONLY) == Some({}) && IsRun(WRITE_TWICE, B_ONLY, {}, {}, TWO_WRITES)
    ensures AtWork(TWO_WRITES, TWO_TIMES) && !NoRaces(TWO_WRITES, TWO_TIMES, 5)
  {
    hide PlanProgram, IsRun, Meet;
    TwoWritesPlanned();
    var w: Access := Write(1, ZERO);
    PointsMeet(w, map[], IntImm(0), w, map[], IntImm(0), 5);
    assert IndexAt(IntImm(0), map[], 5, 0) == IndexAt(IntImm(0), map[], 5, 1);
    assert BothWrite(TWO_WRITES[0][0], TWO_WRITES[1][0]) && !BarrierBetween(TWO_WRITES, 0, 0, 1, 0);
  }

  // ----- a loop that needs a barrier and gets none -----

  // for (v = 0; v < n; ++v) { .. = B[v + t]; B[v + t] = ..; }
  const SUM := Bin(Add, Variable(0), Variable(5))
  const SLIDE := For(2, 0, IntImm(0), Variable(9), [Evaluate(3, [Load(1, SUM)]), Store(4, 1, SUM, [])])
  const POINT := SinglePoint(SUM)
  const TURN: seq<seq<Access>> := [[Read(1, POINT)], [Write(1, POINT)]]

  lemma {:induction false} SlideSets()
    ensures EvalSet(SUM, map[]) == POINT
    ensures OpsAccess([Load(1, SUM)], B_ONLY) == [Read(1, POINT)] && StoreAccess(1, SUM, [], B_ONLY) == [Write(1, POINT)]
  {
    assert EvalSet(Variable(0), map[]) == SinglePoint(Variable(0)) && EvalSet(Variable(5), map[]) == SinglePoint(Variable(5));
    assert [Load(1, SUM)][1..] == [];
    assert OpsAccess([], B_ONLY) == [];
  }

  lemma {:induction false} SlideBody()
    ensures PlanBody(SLIDE.body, B_ONLY, false, {}) == Some(Entries([StmtEntry(3, [Read(1, POINT)]), StmtEntry(4, [Write(1, POINT)])], {}))
  {
    hide EvalSet, OpsAccess, StoreAccess;
    SlideSets();
    var body := SLIDE.body;
    var e1, e2 := StmtEntry(3, [Read(1, POINT)]), StmtEntry(4, [Write(1, POINT)]);
    assert Plan(body[0], B_ONLY, false, {}) == Some(Entries([e1], {}));
    assert Plan(body[1], B_ONLY, false, {}) == Some(Entries([e2], {}));
    PlanBodyStep(body, 0, B_ONLY, false, {});
    PlanBodyStep(body, 1, B_ONLY, false, {});
    assert body[..0] == [] && body[..2] == body;
    assert [] + [e1] == [e1] && [e1] + [e2] == [e1, e2];
  }

  /** Runs of the loop body have no hazard. */
  lemma {:induction false} TurnsSafe(p: set<Access>, n: nat)
    requires p <= {Read(1, POINT), Write(1, POINT)}
    ensures Safe(p, Repeat(TURN, n))
    decreases n
  {
    if n > 0 {
      var rest := Repeat(TURN, n - 1);
      var r, w: Access := Read(1, POINT), Write(1, POINT);
      OneAccess(r, p);
      OneAccess(w, p + {r});
      TurnsSafe(p + {r} + {w}, n - 1);
      assert Repeat(TURN, n)[1..] == [[w]] + rest && ([[w]] + rest)[1..] == rest;
      assert Safe(p + {r}, [[w]] + rest);
    }
  }

  lemma {:induction false} SlidePlanned()
    ensures PlanProgram([SLIDE], B_ONLY) == Some({})
  {
    hide EvalSet, OpsAccess, StoreAccess, Safe, SimAll, RelaxAll, LoopDomain;
    SlideBody();
    var es := [StmtEntry(3, [Read(1, POINT)]), StmtEntry(4, [Write(1, POINT)])];
    TurnsSafe({}, 2);
    assert Repeat(TURN, 1) == TURN + Repeat(TURN, 0) == TURN;
    assert GuardedAll(es + es, {}) == Repeat(TURN, 2);
    SimSafe(es + es, {});
    var r := Plan(SLIDE, B_ONLY, false, {});
    assert r.Some? && r.value.syncs == {} && |r.value.es| <= 1;
    PlanBodyStep([SLIDE], 0, B_ONLY, false, {});
    assert [SLIDE][..0] == [] && [SLIDE][..1] == [SLIDE] && [] + r.value.es == r.value.es;
    assert PlanBody([SLIDE], B_ONLY, false, {}) == Some(r.value);
    OneEntrySafe(r.value.es);
    SimSafe(r.value.es, {});
  }

  lemma {:induction false} OneEntrySafe(es: seq<StmtEntry>)
    requires |es| <= 1
    ensures Safe({}, GuardedAll(es, {}))
  {
    if |es| == 1 {
      var ts := GuardedAll(es, {});
      assert ts[1..] == [];
      assert Safe(Pending({}, ts[0]), []);
    }
  }

  lemma {:induction false} SumAt(env: Env, v: int, t: int)
    requires ValueIn(env, 0) == v
    ensures Eval(SUM, env[5 := t]) == v + t
  {
    assert Eval(Variable(0), env[5 := t]) == v && Eval(Variable(5), env[5 := t]) == t;
  }

  const TWO_TURNS: seq<seq<Access>> := [[Read(1, POINT)], [Write(1, POINT)], [Read(1, POINT)], [Write(1, POINT)]]
  const SLIDE_TIMES: seq<seq<Env>> := [[map[0 := 0]], [map[0 := 0]], [map[0 := 1]], [map[0 := 1]]]

  lemma {:induction false} SlideRun()
    ensures IsRun(SLIDE.body, B_ONLY, {}, {}, TURN) && Join([TURN, TURN]) == TWO_TURNS && Safe({}, TWO_TURNS)
  {
    hide EvalSet, OpsAccess, StoreAccess, Safe;
    SlideSets();
    TurnsSafe({}, 2);
    var none: seq<seq<seq<Access>>> := [];
    assert [TURN, TURN][1..] == [TURN] && [TURN][1..] == none && Join(none) == [];
    assert Repeat(TURN, 1) == TURN + Repeat(TURN, 0) == TURN;
    assert Repeat(TURN, 2) == TURN + TURN == TWO_TURNS;
  }

  lemma {:induction false} SlideMeet()
    ensures Meet(Write(1, POINT), map[0 := 0], Read(1, POINT), map[0 := 1], 5)
  {
    hide Eval;
    SumAt(map[0 := 0], 0, 1);
    SumAt(map[0 := 1], 1, 0);
    PointsMeet(Write(1, POINT), map[0 := 0], SUM, Read(1, POINT), map[0 := 1], SUM, 5);
    assert IndexAt(SUM, map[0 := 0], 5, 1) == IndexAt(SUM, map[0 := 1], 5, 0);
  }

  /** No barrier is planned for the loop, and its runs are safe. But when v is 0, thread 1 writes what thread 0 reads when v is 1. */
  lemma {:induction false} SlideMissed()
    ensures PlanProgram([SLIDE], B_ONLY) == Some({}) && IsRun(SLIDE.body, B_ONLY, {}, {}, TURN) && Safe({}, Join([TURN, TURN]))
    ensures AtWork(Join([TURN, TURN]), SLIDE_TIMES) && !NoRaces(Join([TURN, TURN]), SLIDE_TIMES, 5)
  {
    hide Meet, PlanProgram, IsRun, Safe, Join;
    SlidePlanned();
    SlideRun();
    SlideMeet();
    assert ReadWrite(TWO_TURNS[1][0], TWO_TURNS[2][0]) && !BarrierBetween(TWO_TURNS, 1, 0, 2, 0);
  }
}
