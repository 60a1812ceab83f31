/** What the planned barriers mean for the addresses that threads touch when a whole program runs, with loops inside loops
    (src/pass/storage_sync.cc over src/pass/storage_access.cc). */
module StorageSyncEvents {
  import opened Wrappers
  import opened IntSet
  import opened StorageSync
  import opened StorageSyncPlans
  import opened StorageSyncRaces
  import BoundDeducer

  // ----- a plan makes every scope safe -----

  lemma {:induction false} PlanPlanned(s: Stmt, enabled: set<nat>, conditional: bool, syncs: set<nat>)
    requires Plan(s, enabled, conditional, syncs).Some?
    ensures var r := Plan(s, enabled, conditional, syncs).value; syncs <= r.syncs && Planned([s], enabled, r.es, r.syncs, conditional)
    decreases s, 1
  {
    hide PlanScope, PlanBody, Planned, Exposed, GuardedAll, Flatten;
    match s
    case Store(_, b, index, ops) => PlannedLeaf(s, enabled, StoreAccess(b, index, ops, enabled), syncs, conditional, true);
    case Evaluate(_, ops) => PlannedLeaf(s, enabled, OpsAccess(ops, enabled), syncs, conditional, OpsAccess(ops, enabled) != []);
    case For(_, _, _, _, body) =>
      PlanBodyPlanned(body, enabled, conditional, syncs);
      var inner := PlanBody(body, enabled, conditional, syncs).value;
      var r := PlanScope(inner.es, true, conditional, inner.syncs).value;
      PlannedLoop(s, enabled, inner.es, inner.syncs, r.syncs, conditional, RelaxAll(r.access, LoopDomain(s)));
    case IfThenElse(_, _, thenCase, _) =>
      PlanBodyPlanned(thenCase, enabled, true, syncs);
      var inner := PlanBody(thenCase, enabled, true, syncs).value;
      var r := PlanScope(inner.es, false, true, inner.syncs).value;
      PlannedIf(s, enabled, inner.es, inner.syncs, conditional, r.access);
  }

  lemma {:induction false} PlanBodyPlanned(body: seq<Stmt>, enabled: set<nat>, conditional: bool, syncs: set<nat>)
    requires PlanBody(body, enabled, conditional, syncs).Some?
    ensures var r := PlanBody(body, enabled, conditional, syncs).value; syncs <= r.syncs && Planned(body, enabled, r.es, r.syncs, conditional)
    decreases body, 0
  {
    hide Plan, Planned;
    if |body| == 0 {
      PlannedNothing(enabled, syncs, conditional);
      assert body == [];
    } else {
      var n := |body| - 1;
      var init := body[..n];
      PlanBodyPlanned(init, enabled, conditional, syncs);
      var before := PlanBody(init, enabled, conditional, syncs).value;
      PlanPlanned(body[n], enabled, conditional, before.syncs);
      var last := Plan(body[n], enabled, conditional, before.syncs).value;
      PlannedSnoc(init, enabled, before.es, before.syncs, conditional, body[n], last.es, last.syncs);
      assert body == init + [body[n]];
    }
  }

  lemma {:induction false} PlanSafe(body: seq<Stmt>, enabled: set<nat>, skip: set<nat>, syncs: set<nat>)
    requires PlanProgram(body, enabled) == Some(syncs) && SupportedBody(body, enabled) && MaySkipBody(body, enabled, skip, syncs)
    ensures BodyScopesSafe(body, enabled, skip, syncs) && RunsSafe(body, enabled, skip, syncs)
  {
    hide PlanBody, BodyScopesSafe, RunsSafe, Describes, MaySkipBody, SupportedBody, GuardedAll;
    PlanBodyPlanned(body, enabled, false, {});
    var inner := PlanBody(body, enabled, false, {}).value;
    assert Right(body, enabled, skip, inner.es, inner.syncs);
    MaySkipBodyLess(body, enabled, skip, inner.syncs, syncs);
    BodyScopesSafeMore(body, enabled, skip, inner.syncs, syncs);
    DescribesMore(body, enabled, skip, inner.es, inner.syncs, syncs);
    BodySafe(body, enabled, skip, inner.es, syncs);
  }

  lemma {:induction false} DescribesMore(body: seq<Stmt>, enabled: set<nat>, skip: set<nat>, es: seq<StmtEntry>, syncs: set<nat>, more: set<nat>)
    requires Describes(body, enabled, skip, es, syncs) && syncs <= more
    ensures Describes(body, enabled, skip, es, more)
  {
    hide Aligned, IsRun, GuardedAll;
  }

  // ----- the events of a run -----

  /** Something that a thread does, with the values of the variables at it; and how the planner sees it from a scope around it, with the
      values at the iteration of the scope. */
  datatype Event = Event(deed: Deed, env: Env, seen: seq<Access>, at: Env)

  function Here(ds: seq<Deed>, enabled: set<nat>, env: Env): (us: seq<Event>)
    ensures |us| == |ds|
  {
    seq(|ds|, i requires 0 <= i < |ds| => Event(ds[i], env, AccessOf(ds[i], enabled), env))
  }

  /** The events of a loop as they are seen from outside. */
  function Outside(us: seq<Event>, dom: DomMap, env: Env): (vs: seq<Event>)
    ensures |vs| == |us|
  {
    seq(|us|, i requires 0 <= i < |us| => us[i].(seen := RelaxAll(us[i].seen, dom), at := env))
  }

  /** All that is seen, in order. */
  function Seen(us: seq<Event>): seq<Access> {
    if us == [] then [] else us[0].seen + Seen(us[1..])
  }

  function SeenAll(uss: seq<seq<Event>>): (ts: seq<seq<Access>>)
    ensures |ts| == |uss|
  {
    seq(|uss|, i requires 0 <= i < |uss| => Seen(uss[i]))
  }

  function Times(us: seq<Event>): (es: seq<Env>)
    ensures |es| == |Seen(us)|
  {
    if us == [] then [] else seq(|us[0].seen|, i requires 0 <= i < |us[0].seen| => us[0].at) + Times(us[1..])
  }

  function TimesAll(uss: seq<seq<Event>>): (es: seq<seq<Env>>)
    ensures |es| == |uss|
  {
    seq(|uss|, i requires 0 <= i < |uss| => Times(uss[i]))
  }

  function DeedsOf(ops: seq<StorageSync.Op>): (ds: seq<Deed>)
    ensures |ds| == |ops|
  {
    seq(|ops|, i requires 0 <= i < |ops| => Does(ops[i]))
  }

  /** A barrier before the statement, if one was put there. */
  function Gate(id: nat, syncs: set<nat>): seq<Deed> {
    if id in syncs then [Waits] else []
  }

  function Concat<T>(ts: seq<seq<T>>): seq<T> {
    if ts == [] then [] else ts[0] + Concat(ts[1..])
  }

  /** The number of iterations. */
  function Trips(extent: Expr, env: Env): nat {
    var n := Eval(extent, env);
    if n < 0 then 0 else n
  }

  /** us is what a thread does in one execution of s, the variables having the values of env. Every thread executes the same
      statements; a loop of skip may have no iterations, and either branch of a conditional may be taken. */
  ghost predicate HasEvents(s: Stmt, enabled: set<nat>, skip: set<nat>, syncs: set<nat>, env: Env, us: seq<Event>)
    decreases s, 1
  {
    match s
    case Store(id, b, index, ops) => us == Here(Gate(id, syncs) + [Stores(b, index)] + DeedsOf(ops), enabled, env)
    case Evaluate(id, ops) => us == Here(Gate(id, syncs) + DeedsOf(ops), enabled, env)
    case For(id, x, min, extent, body) =>
      exists runs: seq<seq<seq<Event>>> ::
        && (runs != [] || id in skip) && |runs| == Trips(extent, env) && Iterations(body, enabled, skip, syncs, env, x, Eval(min, env), runs)
        && us == Here(Gate(id, syncs), enabled, env) + Outside(Concat(Concat(runs)), LoopDomain(s), env)
    case IfThenElse(id, _, thenCase, elseCase) =>
      exists run: seq<seq<Event>> ::
        && (BodyEvents(thenCase, enabled, skip, syncs, env, run) || BodyEvents(elseCase, enabled, skip, syncs, env, run))
        && us == Here(Gate(id, syncs), enabled, env) + Concat(run)
  }

  ghost predicate BodyEvents(body: seq<Stmt>, enabled: set<nat>, skip: set<nat>, syncs: set<nat>, env: Env, uss: seq<seq<Event>>)
    decreases body, 0
  {
    |uss| == |body| && forall k :: 0 <= k < |body| ==> HasEvents(body[k], enabled, skip, syncs, env, uss[k])
  }

  /** Iterations of a loop whose variable x counts up from lo. */
  ghost predicate Iterations(body: seq<Stmt>, enabled: set<nat>, skip: set<nat>, syncs: set<nat>, env: Env, x: nat, lo: int,
                             runs: seq<seq<seq<Event>>>)
    decreases body, 1
  {
    forall k: nat | k < |runs| :: BodyEvents(body, enabled, skip, syncs, env[x := lo + k], runs[k])
  }

  /** Loops have variables of their own, with bounds that are the same for all threads. */
  predicate Uniform(s: Stmt, tx: nat)
    decreases s, 1
  {
    match s
    case For(_, x, min, extent, body) =>
      && x != tx && Count(x, min) == Count(x, extent) == Count(tx, min) == Count(tx, extent) == 0
      && UniformBody(body, tx)
    case IfThenElse(_, _, thenCase, elseCase) => UniformBody(thenCase, tx) && UniformBody(elseCase, tx)
    case _ => true
  }

  predicate UniformBody(body: seq<Stmt>, tx: nat)
    decreases body, 0
  {
    forall k :: 0 <= k < |body| ==> Uniform(body[k], tx)
  }

  // ----- what is seen from a scope covers what is touched -----

  /** A thread touches the address as one of the accesses that are seen. */
  ghost predicate SeenTouch(u: Event, writing: bool, b: nat, tx: nat, t: int, addr: int) {
    exists k :: 0 <= k < |u.seen| && IsAccess(u.seen[k], writing, u.at[tx := t], b, addr)
  }

  /** Whatever a thread reads or writes of the buffers of enabled is seen, and barriers are seen where threads wait, alone. */
  ghost predicate Covered(u: Event, enabled: set<nat>, tx: nat) {
    && (if IsBarrier(u.deed) then u.seen == [Sync] else !HasSync(u.seen))
    && forall t: int, b: nat, addr: int | b in enabled ::
         && (Reads(u.deed, u.env[tx := t], b, addr) ==> SeenTouch(u, false, b, tx, t, addr))
         && (Writes(u.deed, u.env[tx := t], b, addr) ==> SeenTouch(u, true, b, tx, t, addr))
  }

  ghost predicate CoveredAt(us: seq<Event>, enabled: set<nat>, tx: nat, env: Env) {
    forall u <- us :: Covered(u, enabled, tx) && u.at == env
  }

  lemma {:induction false} BoundAgrees(i: Interval, x: nat, env1: Env, env2: Env, addr: int)
    requires BoundDeducer.Mentions(x, i.min) == 0 && BoundDeducer.Mentions(x, i.max) == 0
    requires forall v: nat | v != x :: ValueIn(env1, v) == ValueIn(env2, v)
    ensures In(addr, i, env1) == In(addr, i, env2)
  {
    if i.min.Fin? {
      EvalAgrees(i.min.e, env1, env2);
    }
    if i.max.Fin? {
      EvalAgrees(i.max.e, env1, env2);
    }
  }

  lemma {:induction false} RangeMentions(min: Expr, extent: Expr, x: nat)
    requires Count(x, min) == Count(x, extent) == 0
    ensures BoundDeducer.Mentions(x, RangeSet(min, extent).min) == 0 && BoundDeducer.Mentions(x, RangeSet(min, extent).max) == 0
  {
    assert Count(x, IntImm(1)) == 0 && Count(x, Bin(Add, extent, min)) == 0;
    BoundDeducer.ComputeCount(x, extent, min);
    BoundDeducer.ComputeCount(x, ComputeAdd(extent, min), IntImm(1));
  }

  /** A set contains, with a variable ranging over its domain, what it contains for each value of the variable. */
  lemma {:induction false} RelaxedHas(i: Interval, x: nat, dom: DomMap, env: Env, addr: int)
    requires dom.Keys == {x} && TameDom(dom) && Respects(env, dom) && BoundDeducer.Absent(x, dom) && In(addr, i, env)
    ensures In(addr, EvalSetOfSet(i, dom), env)
    ensures var r := EvalSetOfSet(i, dom); BoundDeducer.Mentions(x, r.min) == 0 && BoundDeducer.Mentions(x, r.max) == 0
  {
    if i.min.Fin? {
      EvalSetSound(i.min.e, dom, env);
      BoundDeducer.EvalSetCount(x, i.min.e, dom);
    }
    if i.max.Fin? {
      EvalSetSound(i.max.e, dom, env);
      BoundDeducer.EvalSetCount(x, i.max.e, dom);
    }
  }

  /** An access of iteration v is covered by the access seen from outside of the loop. */
  lemma {:induction false} RelaxCovers(a: Access, s: Stmt, env: Env, v: int, tx: nat, t: int, writing: bool, b: nat, addr: int)
    requires s.For? && Uniform(s, tx) && Eval(s.min, env) <= v < Eval(s.min, env) + Eval(s.extent, env)
    requires IsAccess(a, writing, env[s.loopVar := v][tx := t], b, addr)
    ensures IsAccess(RelaxAccess(a, LoopDomain(s)), writing, env[tx := t], b, addr)
  {
    hide EvalSet, Eval, EvalSetOfSet;
    var x, dom, inner := s.loopVar, LoopDomain(s), env[s.loopVar := v][tx := t];
    EvalAgrees(s.min, inner, env);
    EvalAgrees(s.extent, inner, env);
    InRange(s.min, s.extent, v, inner);
    RangeMentions(s.min, s.extent, x);
    VariableAt(x, inner, v);
    RelaxedHas(a.touched, x, dom, inner, addr);
    BoundAgrees(EvalSetOfSet(a.touched, dom), x, inner, env[tx := t], addr);
  }

  /** Each end of an access, as it is seen from outside of a loop that runs, is an end of the access in some iteration. */
  lemma {:induction false} RelaxTight(a: Access, s: Stmt, env: Env, low: bool) returns (v: int)
    requires s.For? && !a.Sync? && TwoEnds(a.touched) && Eval(s.extent, env) > 0
    requires Count(s.loopVar, s.min) == Count(s.loopVar, s.extent) == 0
    requires BoundDeducer.Tight(a.touched.min.e, LoopDomain(s)) && BoundDeducer.Tight(a.touched.max.e, LoopDomain(s))
    ensures InLoop(s, env, v) && TwoEnds(RelaxAccess(a, LoopDomain(s)).touched)
    ensures Eval(EndOf(RelaxAccess(a, LoopDomain(s)).touched, low), env) == Eval(EndOf(a.touched, low), env[s.loopVar := v])
  {
    hide EvalSet, BoundDeducer.Tight;
    var x, dom, e := s.loopVar, LoopDomain(s), EndOf(a.touched, low);
    RangeMentions(s.min, s.extent, x);
    InRange(s.min, s.extent, Eval(s.min, env), env);
    assert BoundDeducer.Absent(x, dom) && BoundDeducer.Filled(dom, env);
    var env0 := BoundDeducer.RangeAttained(EndOf(a.touched, !low), dom, !low, env);
    var env1 := BoundDeducer.RangeAttained(e, dom, low, env);
    v := Eval(Variable(x), env1);
    forall u: nat ensures ValueIn(env1, u) == Eval(Variable(u), env1) && ValueIn(env, u) == Eval(Variable(u), env) {
    }
    BoundAgrees(dom[x], x, env1, env, v);
    InRange(s.min, s.extent, v, env);
    EvalAgrees(e, env1, env[x := v]);
  }

  lemma {:induction false} VariableAt(x: nat, env: Env, v: int)
    requires x in env && env[x] == v
    ensures Eval(Variable(x), env) == v
  {
  }

  lemma {:induction false} ConcatMember<T>(ts: seq<seq<T>>, x: T)
    requires x in Concat(ts)
    ensures exists i :: 0 <= i < |ts| && x in ts[i]
  {
    if x !in ts[0] {
      ConcatMember(ts[1..], x);
      var i :| 0 <= i < |ts[1..]| && x in ts[1..][i];
      assert x in ts[i + 1];
    }
  }

  lemma {:induction false} OutsideTouch(u: Event, v: Event, s: Stmt, env: Env, w: int, tx: nat, t: int, writing: bool, b: nat, addr: int)
    requires s.For? && Uniform(s, tx) && InLoop(s, env, w) && u.at == env[s.loopVar := w]
    requires v.seen == RelaxAll(u.seen, LoopDomain(s)) && v.at == env && SeenTouch(u, writing, b, tx, t, addr)
    ensures SeenTouch(v, writing, b, tx, t, addr)
  {
    hide Uniform, LoopDomain, RelaxAccess, IsAccess;
    var k :| 0 <= k < |u.seen| && IsAccess(u.seen[k], writing, u.at[tx := t], b, addr);
    RelaxEach(u.seen, LoopDomain(s));
    RelaxCovers(u.seen[k], s, env, w, tx, t, writing, b, addr);
  }

  /** Leaving a loop keeps the events covered. */
  lemma {:induction false} OutsideCovered(us: seq<Event>, s: Stmt, enabled: set<nat>, env: Env, tx: nat)
    requires s.For? && Uniform(s, tx)
    requires forall u <- us :: Covered(u, enabled, tx) && exists v: int :: InLoop(s, env, v) && u.at == env[s.loopVar := v]
    ensures CoveredAt(Outside(us, LoopDomain(s), env), enabled, tx, env)
  {
    hide Uniform, LoopDomain, Reads, Writes, IsBarrier, SeenTouch, RelaxAll;
    var vs := Outside(us, LoopDomain(s), env);
    forall i | 0 <= i < |us| ensures Covered(vs[i], enabled, tx) {
      var u := us[i];
      var w: int :| InLoop(s, env, w) && u.at == env[s.loopVar := w];
      RelaxParts(u.seen, LoopDomain(s));
      RelaxSync(LoopDomain(s));
      forall t: int, b: nat, addr: int, writing: bool | SeenTouch(u, writing, b, tx, t, addr) ensures SeenTouch(vs[i], writing, b, tx, t, addr) {
        OutsideTouch(u, vs[i], s, env, w, tx, t, writing, b, addr);
      }
    }
  }

  lemma {:induction false} RelaxSync(dom: DomMap)
    ensures RelaxAll([Sync], dom) == [Sync]
  {
    assert RelaxAll([], dom) == [];
  }

  predicate InLoop(s: Stmt, env: Env, v: int)
    requires s.For?
  {
    Eval(s.min, env) <= v < Eval(s.min, env) + Eval(s.extent, env)
  }

  lemma {:induction false} EventsCovered(s: Stmt, enabled: set<nat>, skip: set<nat>, syncs: set<nat>, env: Env, us: seq<Event>, tx: nat)
    requires HasEvents(s, enabled, skip, syncs, env, us) && Uniform(s, tx)
    ensures CoveredAt(us, enabled, tx, env)
    decreases s, 1
  {
    hide Covered;
    match s
    case Store(id, b, index, ops) => HereCovered(Gate(id, syncs) + [Stores(b, index)] + DeedsOf(ops), enabled, env, tx);
    case Evaluate(id, ops) => HereCovered(Gate(id, syncs) + DeedsOf(ops), enabled, env, tx);
    case For(id, x, min, extent, body) =>
      var runs: seq<seq<seq<Event>>> :| |runs| == Trips(extent, env) && Iterations(body, enabled, skip, syncs, env, x, Eval(min, env), runs)
        && us == Here(Gate(id, syncs), enabled, env) + Outside(Concat(Concat(runs)), LoopDomain(s), env);
      forall u <- Concat(Concat(runs)) ensures Covered(u, enabled, tx) && exists v: int :: InLoop(s, env, v) && u.at == env[x := v] {
        IterationCovered(s, enabled, skip, syncs, env, runs, u, tx);
      }
      OutsideCovered(Concat(Concat(runs)), s, enabled, env, tx);
      HereCovered(Gate(id, syncs), enabled, env, tx);
    case IfThenElse(id, _, thenCase, elseCase) =>
      var run: seq<seq<Event>> :|
        && (BodyEvents(thenCase, enabled, skip, syncs, env, run) || BodyEvents(elseCase, enabled, skip, syncs, env, run))
        && us == Here(Gate(id, syncs), enabled, env) + Concat(run);
      if BodyEvents(thenCase, enabled, skip, syncs, env, run) {
        BodyCovered(thenCase, enabled, skip, syncs, env, run, tx);
      } else {
        BodyCovered(elseCase, enabled, skip, syncs, env, run, tx);
      }
      HereCovered(Gate(id, syncs), enabled, env, tx);
  }

  lemma {:induction false} HereCovered(ds: seq<Deed>, enabled: set<nat>, env: Env, tx: nat)
    ensures CoveredAt(Here(ds, enabled, env), enabled, tx, env)
  {
    hide Reads, Writes, AccessOf, IsBarrier, IsAccess;
    forall i | 0 <= i < |ds| ensures Covered(Here(ds, enabled, env)[i], enabled, tx) {
      forall t: int, b: nat, addr: int {
        AccessRight(ds[i], enabled, env[tx := t], b, addr);
      }
      AccessRight(ds[i], enabled, env, 0, 0);
    }
  }

  lemma {:induction false} IterationCovered(s: Stmt, enabled: set<nat>, skip: set<nat>, syncs: set<nat>, env: Env,
                                            runs: seq<seq<seq<Event>>>, u: Event, tx: nat)
    requires s.For? && Uniform(s, tx) && |runs| == Trips(s.extent, env)
    requires Iterations(s.body, enabled, skip, syncs, env, s.loopVar, Eval(s.min, env), runs) && u in Concat(Concat(runs))
    ensures Covered(u, enabled, tx) && exists v: int :: InLoop(s, env, v) && u.at == env[s.loopVar := v]
    decreases s, 0
  {
    hide Covered, HasEvents;
    ConcatMember(Concat(runs), u);
    var i :| 0 <= i < |Concat(runs)| && u in Concat(runs)[i];
    ConcatMember(runs, Concat(runs)[i]);
    var k: nat :| k < |runs| && Concat(runs)[i] in runs[k];
    var lo := Eval(s.min, env);
    BodyCovered(s.body, enabled, skip, syncs, env[s.loopVar := lo + k], runs[k], tx);
    InConcat(runs[k], Concat(runs)[i], u);
    assert InLoop(s, env, lo + k);
  }

  lemma {:induction false} InConcat<T>(ts: seq<seq<T>>, t: seq<T>, x: T)
    requires t in ts && x in t
    ensures x in Concat(ts)
  {
    if t != ts[0] {
      InConcat(ts[1..], t, x);
    }
  }

  lemma {:induction false} BodyCovered(body: seq<Stmt>, enabled: set<nat>, skip: set<nat>, syncs: set<nat>, env: Env, uss: seq<seq<Event>>, tx: nat)
    requires BodyEvents(body, enabled, skip, syncs, env, uss) && UniformBody(body, tx)
    ensures CoveredAt(Concat(uss), enabled, tx, env) && forall us <- uss :: CoveredAt(us, enabled, tx, env)
    decreases body, 0
  {
    hide Covered, HasEvents;
    forall k: nat | k < |body| ensures CoveredAt(uss[k], enabled, tx, env) {
      EventsCovered(body[k], enabled, skip, syncs, env, uss[k], tx);
    }
    forall u <- Concat(uss) ensures Covered(u, enabled, tx) && u.at == env {
      ConcatMember(uss, u);
      var k: nat :| k < |uss| && u in uss[k];
      assert CoveredAt(uss[k], enabled, tx, env);
    }
  }

  // ----- what is seen is a run of the planner's accesses -----

  lemma {:induction false} SeenAppend(us: seq<Event>, vs: seq<Event>)
    ensures Seen(us + vs) == Seen(us) + Seen(vs) && Times(us + vs) == Times(us) + Times(vs)
  {
    if us == [] {
      assert us + vs == vs;
    } else {
      assert (us + vs)[1..] == us[1..] + vs;
      SeenAppend(us[1..], vs);
    }
  }

  lemma {:induction false} SeenConcat(uss: seq<seq<Event>>)
    ensures Seen(Concat(uss)) == Flatten(SeenAll(uss))
  {
    if uss != [] {
      SeenAppend(uss[0], Concat(uss[1..]));
      SeenConcat(uss[1..]);
      assert SeenAll(uss)[1..] == SeenAll(uss[1..]);
    }
  }

  function SeenRuns(runs: seq<seq<seq<Event>>>): (rs: seq<seq<seq<Access>>>)
    ensures |rs| == |runs|
  {
    seq(|runs|, k requires 0 <= k < |runs| => SeenAll(runs[k]))
  }

  lemma {:induction false} SeenJoin(runs: seq<seq<seq<Event>>>)
    ensures SeenAll(Concat(runs)) == Join(SeenRuns(runs))
  {
    if runs != [] {
      SeenJoin(runs[1..]);
      assert SeenRuns(runs)[1..] == SeenRuns(runs[1..]);
      assert SeenAll(runs[0] + Concat(runs[1..])) == SeenAll(runs[0]) + SeenAll(Concat(runs[1..]));
    }
  }

  lemma {:induction false} SeenOutside(us: seq<Event>, dom: DomMap, env: Env)
    ensures Seen(Outside(us, dom, env)) == RelaxAll(Seen(us), dom)
  {
    if us != [] {
      assert Outside(us, dom, env)[1..] == Outside(us[1..], dom, env);
      SeenOutside(us[1..], dom, env);
      RelaxAppend(us[0].seen, Seen(us[1..]), dom);
    }
  }

  lemma {:induction false} RelaxAppend(t: seq<Access>, u: seq<Access>, dom: DomMap)
    ensures RelaxAll(t + u, dom) == RelaxAll(t, dom) + RelaxAll(u, dom)
  {
    if t == [] {
      assert t + u == u;
    } else {
      assert (t + u)[1..] == t[1..] + u;
      RelaxAppend(t[1..], u, dom);
    }
  }

  lemma {:induction false} RelaxEach(t: seq<Access>, dom: DomMap)
    ensures |RelaxAll(t, dom)| == |t| && forall i | 0 <= i < |t| :: RelaxAll(t, dom)[i] == RelaxAccess(t[i], dom)
  {
    if t != [] {
      RelaxEach(t[1..], dom);
    }
  }

  lemma {:induction false} HereAppend(ds: seq<Deed>, es: seq<Deed>, enabled: set<nat>, env: Env)
    ensures Seen(Here(ds + es, enabled, env)) == Seen(Here(ds, enabled, env)) + Seen(Here(es, enabled, env))
  {
    assert Here(ds + es, enabled, env) == Here(ds, enabled, env) + Here(es, enabled, env);
    SeenAppend(Here(ds, enabled, env), Here(es, enabled, env));
  }

  lemma {:induction false} SeenOps(ops: seq<StorageSync.Op>, enabled: set<nat>, env: Env)
    ensures Seen(Here(DeedsOf(ops), enabled, env)) == OpsAccess(ops, enabled)
  {
    if ops != [] {
      assert Here(DeedsOf(ops), enabled, env)[1..] == Here(DeedsOf(ops[1..]), enabled, env);
      SeenOps(ops[1..], enabled, env);
    }
  }

  lemma {:induction false} SeenGate(id: nat, syncs: set<nat>, enabled: set<nat>, env: Env)
    ensures Seen(Here(Gate(id, syncs), enabled, env)) == Barrier(id, syncs)
  {
    var us := Here(Gate(id, syncs), enabled, env);
    assert us != [] ==> us[1..] == [];
  }

  lemma {:induction false} SeenStore(b: nat, index: Expr, enabled: set<nat>, env: Env)
    ensures Seen(Here([Stores(b, index)], enabled, env)) == StoreAccess(b, index, [], enabled)
  {
    assert Here([Stores(b, index)], enabled, env)[1..] == [];
  }

  lemma {:induction false} StoreParts(b: nat, index: Expr, ops: seq<StorageSync.Op>, enabled: set<nat>)
    ensures StoreAccess(b, index, ops, enabled) == StoreAccess(b, index, [], enabled) + OpsAccess(ops, enabled)
  {
    assert OpsAccess([], enabled) == [];
  }

  lemma {:induction false} SeenStoring(id: nat, b: nat, index: Expr, ops: seq<StorageSync.Op>, enabled: set<nat>, syncs: set<nat>, env: Env)
    ensures Seen(Here(Gate(id, syncs) + [Stores(b, index)] + DeedsOf(ops), enabled, env)) == Barrier(id, syncs) + StoreAccess(b, index, ops, enabled)
  {
    hide Seen, Here, StoreAccess, OpsAccess;
    HereAppend(Gate(id, syncs) + [Stores(b, index)], DeedsOf(ops), enabled, env);
    HereAppend(Gate(id, syncs), [Stores(b, index)], enabled, env);
    SeenGate(id, syncs, enabled, env);
    SeenStore(b, index, enabled, env);
    SeenOps(ops, enabled, env);
    StoreParts(b, index, ops, enabled);
  }

  lemma {:induction false} SeenTrace(s: Stmt, enabled: set<nat>, skip: set<nat>, syncs: set<nat>, env: Env, us: seq<Event>)
    requires HasEvents(s, enabled, skip, syncs, env, us)
    ensures IsTrace(s, enabled, skip, syncs, Seen(us))
    decreases s, 1
  {
    hide RelaxAll, Seen, Outside, Here, SeenAll;
    match s
    case Store(id, b, index, ops) => SeenStoring(id, b, index, ops, enabled, syncs, env);
    case Evaluate(id, ops) =>
      HereAppend(Gate(id, syncs), DeedsOf(ops), enabled, env);
      SeenGate(id, syncs, enabled, env);
      SeenOps(ops, enabled, env);
    case For(id, x, min, extent, body) =>
      var runs: seq<seq<seq<Event>>> :|
        && (runs != [] || id in skip) && |runs| == Trips(extent, env) && Iterations(body, enabled, skip, syncs, env, x, Eval(min, env), runs)
        && us == Here(Gate(id, syncs), enabled, env) + Outside(Concat(Concat(runs)), LoopDomain(s), env);
      SeenIterations(body, enabled, skip, syncs, env, x, Eval(min, env), runs);
      SeenGate(id, syncs, enabled, env);
      SeenAppend(Here(Gate(id, syncs), enabled, env), Outside(Concat(Concat(runs)), LoopDomain(s), env));
      SeenOutside(Concat(Concat(runs)), LoopDomain(s), env);
      SeenConcat(Concat(runs));
      SeenJoin(runs);
      assert Seen(us) == Barrier(id, syncs) + RelaxAll(Flatten(Join(SeenRuns(runs))), LoopDomain(s));
    case IfThenElse(id, _, thenCase, elseCase) =>
      var run: seq<seq<Event>> :|
        && (BodyEvents(thenCase, enabled, skip, syncs, env, run) || BodyEvents(elseCase, enabled, skip, syncs, env, run))
        && us == Here(Gate(id, syncs), enabled, env) + Concat(run);
      if BodyEvents(thenCase, enabled, skip, syncs, env, run) {
        SeenRun(thenCase, enabled, skip, syncs, env, run);
      } else {
        SeenRun(elseCase, enabled, skip, syncs, env, run);
      }
      SeenGate(id, syncs, enabled, env);
      SeenAppend(Here(Gate(id, syncs), enabled, env), Concat(run));
      SeenConcat(run);
  }

  lemma {:induction false} SeenRun(body: seq<Stmt>, enabled: set<nat>, skip: set<nat>, syncs: set<nat>, env: Env, uss: seq<seq<Event>>)
    requires BodyEvents(body, enabled, skip, syncs, env, uss)
    ensures IsRun(body, enabled, skip, syncs, SeenAll(uss))
    decreases body, 0
  {
    hide IsTrace, HasEvents, Seen;
    forall k | 0 <= k < |body| ensures IsTrace(body[k], enabled, skip, syncs, SeenAll(uss)[k]) {
      SeenTrace(body[k], enabled, skip, syncs, env, uss[k]);
    }
  }

  lemma {:induction false} SeenIterations(body: seq<Stmt>, enabled: set<nat>, skip: set<nat>, syncs: set<nat>, env: Env, x: nat, lo: int,
                                          runs: seq<seq<seq<Event>>>)
    requires Iterations(body, enabled, skip, syncs, env, x, lo, runs)
    ensures forall r <- SeenRuns(runs) :: IsRun(body, enabled, skip, syncs, r)
    decreases body, 1
  {
    hide IsRun, BodyEvents, SeenAll;
    forall k: nat | k < |runs| ensures IsRun(body, enabled, skip, syncs, SeenRuns(runs)[k]) {
      SeenRun(body, enabled, skip, syncs, env[x := lo + k], runs[k]);
    }
  }

  // ----- no races on addresses -----

  /** One of two threads reads an address that the other one writes. */
  ghost predicate Race(u: Event, v: Event, enabled: set<nat>, tx: nat) {
    exists t1: int, t2: int, b: nat, addr: int :: t1 != t2 && b in enabled && RaceAt(u, v, tx, t1, t2, b, addr)
  }

  predicate RaceAt(u: Event, v: Event, tx: nat, t1: int, t2: int, b: nat, addr: int) {
    || (Reads(u.deed, u.env[tx := t1], b, addr) && Writes(v.deed, v.env[tx := t2], b, addr))
    || (Writes(u.deed, u.env[tx := t1], b, addr) && Reads(v.deed, v.env[tx := t2], b, addr))
  }

  predicate HasBarrier(us: seq<Event>) {
    exists k :: 0 <= k < |us| && IsBarrier(us[k].deed)
  }

  /** The threads wait for each other after event a of run i and before event b of run j. */
  ghost predicate WaitBetween(uss: seq<seq<Event>>, i: nat, a: nat, j: nat, b: nat)
    requires i < j < |uss| && a < |uss[i]| && b < |uss[j]|
  {
    HasBarrier(uss[i][a + 1..]) || (exists k :: i < k < j && HasBarrier(uss[k])) || HasBarrier(uss[j][..b])
  }

  /** No thread reads in the runs uss an address that another one writes, without a barrier in between. */
  ghost predicate NoEventRaces(uss: seq<seq<Event>>, enabled: set<nat>, tx: nat) {
    forall i: nat, j: nat, a: nat, b: nat | i < j < |uss| && a < |uss[i]| && b < |uss[j]| && !WaitBetween(uss, i, a, j, b) ::
      !Race(uss[i][a], uss[j][b], enabled, tx)
  }

  /** Equal indices, as they are seen from the scope of the runs, keep the threads apart. */
  ghost predicate SeenApart(uss: seq<seq<Event>>, tx: nat) {
    AtWork(SeenAll(uss), TimesAll(uss)) && IndicesApart(SeenAll(uss), TimesAll(uss), tx)
  }

  /** Where access k of event a is among all that is seen. */
  lemma {:induction false} SeenAt(us: seq<Event>, a: nat, k: nat) returns (n: nat)
    requires a < |us| && k < |us[a].seen|
    ensures n < |Seen(us)| && Seen(us)[n] == us[a].seen[k] && Times(us)[n] == us[a].at
    ensures HasSync(Seen(us)[..n]) ==> HasSync(Seen(us[..a])) || HasSync(us[a].seen)
    ensures HasSync(Seen(us)[n + 1..]) ==> HasSync(Seen(us[a + 1..])) || HasSync(us[a].seen)
  {
    assert us == us[..a] + us[a..];
    SeenAppend(us[..a], us[a..]);
    assert us[a..][1..] == us[a + 1..];
    n := |Seen(us[..a])| + k;
    assert Seen(us)[..n] == Seen(us[..a]) + us[a].seen[..k];
    assert Seen(us)[n + 1..] == us[a].seen[k + 1..] + Seen(us[a + 1..]);
  }

  /** A barrier is seen only where the threads wait. */
  lemma {:induction false} SeenBarrier(us: seq<Event>, enabled: set<nat>, tx: nat)
    requires forall u <- us :: Covered(u, enabled, tx)
    ensures HasSync(Seen(us)) ==> HasBarrier(us)
  {
    hide Covered, IsBarrier;
    if us != [] && HasSync(Seen(us)) {
      if HasSync(us[0].seen) {
        BarrierSeen(us[0], enabled, tx);
      } else {
        SeenBarrier(us[1..], enabled, tx);
        var k :| 0 <= k < |us[1..]| && IsBarrier(us[1..][k].deed);
        assert IsBarrier(us[k + 1].deed);
      }
    }
  }

  lemma {:induction false} BarrierSeen(u: Event, enabled: set<nat>, tx: nat)
    requires Covered(u, enabled, tx)
    ensures HasSync(u.seen) ==> IsBarrier(u.deed) && u.seen == [Sync]
  {
  }

  /** Without waiting in between, no barrier is seen in between. */
  lemma {:induction false} NoWaitSeen(uss: seq<seq<Event>>, i: nat, a: nat, k: nat, j: nat, b: nat, l: nat, enabled: set<nat>, tx: nat)
    returns (m: nat, n: nat)
    requires forall us <- uss, u <- us :: Covered(u, enabled, tx)
    requires i < j < |uss| && a < |uss[i]| && b < |uss[j]| && k < |uss[i][a].seen| && l < |uss[j][b].seen| && !WaitBetween(uss, i, a, j, b)
    requires uss[i][a].seen[k] != Sync && uss[j][b].seen[l] != Sync
    ensures m < |SeenAll(uss)[i]| && n < |SeenAll(uss)[j]| && !BarrierBetween(SeenAll(uss), i, m, j, n)
    ensures SeenAll(uss)[i][m] == uss[i][a].seen[k] && SeenAll(uss)[j][n] == uss[j][b].seen[l]
    ensures TimesAll(uss)[i][m] == uss[i][a].at && TimesAll(uss)[j][n] == uss[j][b].at
  {
    hide Covered, HasBarrier, Seen, Times;
    m := SeenAt(uss[i], a, k);
    n := SeenAt(uss[j], b, l);
    assert uss[i] in uss && uss[j] in uss && uss[i][a] in uss[i] && uss[j][b] in uss[j];
    BarrierSeen(uss[i][a], enabled, tx);
    BarrierSeen(uss[j][b], enabled, tx);
    SeenBarrier(uss[i][a + 1..], enabled, tx);
    SeenBarrier(uss[j][..b], enabled, tx);
    forall r | i < r < j ensures !HasSync(SeenAll(uss)[r]) {
      assert uss[r] in uss;
      SeenBarrier(uss[r], enabled, tx);
    }
  }

  lemma {:induction false} EventRaces(uss: seq<seq<Event>>, enabled: set<nat>, tx: nat)
    requires Safe({}, SeenAll(uss)) && SeenApart(uss, tx) && forall us <- uss, u <- us :: Covered(u, enabled, tx)
    ensures NoEventRaces(uss, enabled, tx)
  {
    hide Safe, WaitBetween, Covered, Race, SeenApart;
    forall i: nat, j: nat, a: nat, b: nat | i < j < |uss| && a < |uss[i]| && b < |uss[j]| && !WaitBetween(uss, i, a, j, b)
      ensures !Race(uss[i][a], uss[j][b], enabled, tx)
    {
      if Race(uss[i][a], uss[j][b], enabled, tx) {
        RaceSeen(uss, i, a, j, b, enabled, tx);
      }
    }
  }

  /** A race is between accesses that meet, which the planner keeps apart. */
  lemma {:induction false} RaceSeen(uss: seq<seq<Event>>, i: nat, a: nat, j: nat, b: nat, enabled: set<nat>, tx: nat)
    requires Safe({}, SeenAll(uss)) && SeenApart(uss, tx) && forall us <- uss, u <- us :: Covered(u, enabled, tx)
    requires i < j < |uss| && a < |uss[i]| && b < |uss[j]| && Race(uss[i][a], uss[j][b], enabled, tx)
    ensures WaitBetween(uss, i, a, j, b)
  {
    hide Safe, WaitBetween, Covered, IndicesApart;
    var u, v := uss[i][a], uss[j][b];
    assert uss[i] in uss && uss[j] in uss && u in uss[i] && v in uss[j];
    var t1, t2, k, l := RaceAccesses(u, v, enabled, tx);
    if !WaitBetween(uss, i, a, j, b) {
      ReadWriteFreeIff(SeenAll(uss), TimesAll(uss), tx);
      var m, n := NoWaitSeen(uss, i, a, k, j, b, l, enabled, tx);
    }
  }

  lemma {:induction false} RaceAccesses(u: Event, v: Event, enabled: set<nat>, tx: nat) returns (t1: int, t2: int, k: nat, l: nat)
    requires Race(u, v, enabled, tx) && Covered(u, enabled, tx) && Covered(v, enabled, tx)
    ensures t1 != t2 && k < |u.seen| && l < |v.seen| && u.seen[k] != Sync && v.seen[l] != Sync
    ensures ReadWrite(u.seen[k], v.seen[l]) && MeetAt(u.seen[k], u.at, v.seen[l], v.at, tx, t1, t2)
  {
    hide Reads, Writes, IsBarrier;
    var b: nat, addr: int;
    t1, t2, b, addr :| t1 != t2 && b in enabled && RaceAt(u, v, tx, t1, t2, b, addr);
    var writing := Writes(u.deed, u.env[tx := t1], b, addr) && Reads(v.deed, v.env[tx := t2], b, addr);
    assert SeenTouch(u, writing, b, tx, t1, addr) && SeenTouch(v, !writing, b, tx, t2, addr);
    k :| 0 <= k < |u.seen| && IsAccess(u.seen[k], writing, u.at[tx := t1], b, addr);
    l :| 0 <= l < |v.seen| && IsAccess(v.seen[l], !writing, v.at[tx := t2], b, addr);
    assert Touches(u.seen[k], u.at, tx, t1, addr) && Touches(v.seen[l], v.at, tx, t2, addr);
  }

  /** Every scope inside s, whenever it is executed, is free of races between reads and writes if equal indices keep the threads
      apart. */
  ghost predicate ScopesRaceFree(s: Stmt, enabled: set<nat>, skip: set<nat>, syncs: set<nat>, tx: nat)
    decreases s, 1
  {
    match s
    case For(_, x, min, _, body) =>
      && BodyRaceFree(body, enabled, skip, syncs, tx)
      && forall env: Env, runs: seq<seq<seq<Event>>> ::
           Iterations(body, enabled, skip, syncs, env, x, Eval(min, env), runs) && SeenApart(Concat(runs), tx) ==> NoEventRaces(Concat(runs), enabled, tx)
    case IfThenElse(_, _, thenCase, _) => BodyRaceFree(thenCase, enabled, skip, syncs, tx) && RunsRaceFree(thenCase, enabled, skip, syncs, tx)
    case _ => true
  }

  ghost predicate BodyRaceFree(body: seq<Stmt>, enabled: set<nat>, skip: set<nat>, syncs: set<nat>, tx: nat)
    decreases body, 0
  {
    forall k :: 0 <= k < |body| ==> ScopesRaceFree(body[k], enabled, skip, syncs, tx)
  }

  ghost predicate RunsRaceFree(body: seq<Stmt>, enabled: set<nat>, skip: set<nat>, syncs: set<nat>, tx: nat) {
    forall env: Env, uss: seq<seq<Event>> ::
      BodyEvents(body, enabled, skip, syncs, env, uss) && SeenApart(uss, tx) ==> NoEventRaces(uss, enabled, tx)
  }

  lemma {:induction false} RunsSafeRaceFree(body: seq<Stmt>, enabled: set<nat>, skip: set<nat>, syncs: set<nat>, tx: nat)
    requires RunsSafe(body, enabled, skip, syncs) && UniformBody(body, tx)
    ensures RunsRaceFree(body, enabled, skip, syncs, tx)
  {
    hide Covered, BodyEvents, SeenApart, NoEventRaces, Safe, IsRun;
    forall env: Env, uss: seq<seq<Event>> | BodyEvents(body, enabled, skip, syncs, env, uss) && SeenApart(uss, tx) ensures NoEventRaces(uss, enabled, tx) {
      SeenRun(body, enabled, skip, syncs, env, uss);
      BodyCovered(body, enabled, skip, syncs, env, uss, tx);
      EventRaces(uss, enabled, tx);
    }
  }

  lemma {:induction false} LoopRaceFree(s: Stmt, enabled: set<nat>, skip: set<nat>, syncs: set<nat>, tx: nat, env: Env, runs: seq<seq<seq<Event>>>)
    requires s.For? && LoopRunsSafe(s.body, enabled, skip, syncs) && UniformBody(s.body, tx)
    requires Iterations(s.body, enabled, skip, syncs, env, s.loopVar, Eval(s.min, env), runs) && SeenApart(Concat(runs), tx)
    ensures NoEventRaces(Concat(runs), enabled, tx)
  {
    hide Covered, BodyEvents, SeenApart, NoEventRaces, Safe, IsRun, Join;
    SeenIterations(s.body, enabled, skip, syncs, env, s.loopVar, Eval(s.min, env), runs);
    SeenJoin(runs);
    forall us <- Concat(runs), u <- us ensures Covered(u, enabled, tx) {
      ConcatMember(runs, us);
      var k: nat :| k < |runs| && us in runs[k];
      BodyCovered(s.body, enabled, skip, syncs, env[s.loopVar := Eval(s.min, env) + k], runs[k], tx);
    }
    assert syncs <= syncs && Safe({}, Join(SeenRuns(runs)));
    EventRaces(Concat(runs), enabled, tx);
  }

  lemma {:induction false} ScopesSafeRaceFree(s: Stmt, enabled: set<nat>, skip: set<nat>, syncs: set<nat>, tx: nat)
    requires ScopesSafe(s, enabled, skip, syncs) && Uniform(s, tx)
    ensures ScopesRaceFree(s, enabled, skip, syncs, tx)
    decreases s, 1
  {
    hide Iterations, SeenApart, NoEventRaces, LoopRunsSafe, RunsSafe, RunsRaceFree, Concat;
    match s
    case For(_, x, min, _, body) =>
      BodySafeRaceFree(body, enabled, skip, syncs, tx);
      forall env: Env, runs: seq<seq<seq<Event>>> |
        Iterations(body, enabled, skip, syncs, env, x, Eval(min, env), runs) && SeenApart(Concat(runs), tx)
        ensures NoEventRaces(Concat(runs), enabled, tx)
      {
        LoopRaceFree(s, enabled, skip, syncs, tx, env, runs);
      }
    case IfThenElse(_, _, thenCase, _) =>
      BodySafeRaceFree(thenCase, enabled, skip, syncs, tx);
      RunsSafeRaceFree(thenCase, enabled, skip, syncs, tx);
    case _ =>
  }

  lemma {:induction false} BodySafeRaceFree(body: seq<Stmt>, enabled: set<nat>, skip: set<nat>, syncs: set<nat>, tx: nat)
    requires BodyScopesSafe(body, enabled, skip, syncs) && UniformBody(body, tx)
    ensures BodyRaceFree(body, enabled, skip, syncs, tx)
    decreases body, 0
  {
    hide ScopesSafe, ScopesRaceFree, Uniform;
    forall k | 0 <= k < |body| ensures ScopesRaceFree(body[k], enabled, skip, syncs, tx) {
      ScopesSafeRaceFree(body[k], enabled, skip, syncs, tx);
    }
  }

  /** With the planned barriers no whole program, with loops inside loops, has a race between a read and a write, in any scope and
      for any values of the variables: where different threads touch one address in different statement instances, there is a
      barrier in between, unless the two have equal indices, as seen from their scope, that do not keep the threads apart. */
  lemma {:induction false} ProgramRaceFree(body: seq<Stmt>, enabled: set<nat>, skip: set<nat>, syncs: set<nat>, tx: nat)
    requires PlanProgram(body, enabled) == Some(syncs) && SupportedBody(body, enabled) && MaySkipBody(body, enabled, skip, syncs)
    requires UniformBody(body, tx)
    ensures BodyRaceFree(body, enabled, skip, syncs, tx) && RunsRaceFree(body, enabled, skip, syncs, tx)
  {
    PlanSafe(body, enabled, skip, syncs);
    BodySafeRaceFree(body, enabled, skip, syncs, tx);
    RunsSafeRaceFree(body, enabled, skip, syncs, tx);
  }

  /** The pass on the body of the outermost thread extent. It fails exactly if a condition accesses synchronised storage, or a scope under a
      condition needs a barrier; otherwise the threads have no race between a read and a write, in any scope. */
  method ThreadSync(body: seq<Stmt>, enabled: set<nat>) returns (r: Option<set<nat>>)
    ensures r == None <==> RefusedBody(body, enabled, false, {})
    ensures r.Some? && SupportedBody(body, enabled) ==>
      forall skip: set<nat>, tx: nat | MaySkipBody(body, enabled, skip, r.value) && UniformBody(body, tx) ::
        BodyRaceFree(body, enabled, skip, r.value, tx) && RunsRaceFree(body, enabled, skip, r.value, tx)
  {
    hide SupportedBody, MaySkipBody, UniformBody, BodyRaceFree, RunsRaceFree, RefusedBody, PlanProgram;
    PlanProgramFailsIff(body, enabled);
    r := PlanSyncs(body, enabled);
    if r.Some? && SupportedBody(body, enabled) {
      forall skip: set<nat>, tx: nat | MaySkipBody(body, enabled, skip, r.value) && UniformBody(body, tx)
        ensures BodyRaceFree(body, enabled, skip, r.value, tx) && RunsRaceFree(body, enabled, skip, r.value, tx)
      {
        ProgramRaceFree(body, enabled, skip, r.value, tx);
      }
    }
  }
}
