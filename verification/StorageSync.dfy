/** Where barriers go among accesses to shared storage (src/pass/storage_sync.cc over src/pass/storage_access.cc). */
module StorageSync {
  import opened Wrappers
  import opened IntSet

  /** An access of a statement, or an explicit barrier inside it. */
  datatype Access =
    | Read(buffer: nat, touched: Interval)
    | Write(buffer: nat, touched: Interval)
    | Sync

  /** The accesses of one statement of a sequence, named by its node. */
  datatype StmtEntry = StmtEntry(stmt: nat, access: seq<Access>)

  /** Two accesses to one buffer conflict unless both touch the same single point. */
  predicate Overlap(x: Access, e: Access) {
    && !x.Sync? && !e.Sync? && x.buffer == e.buffer
    && !(e.touched.IsSinglePoint() && x.touched.IsSinglePoint() && e.touched.min == x.touched.min)
  }

  /** A read after a write or a write after a read that overlap: they need a barrier in between. */
  predicate Hazard(x: Access, e: Access) {
    ((x.Write? && e.Read?) || (x.Read? && e.Write?)) && Overlap(x, e)
  }

  // ----- what a run of accesses exposes at its two ends -----

  predicate HasSync(t: seq<Access>) {
    Sync in t
  }

  /** The accesses before the first barrier. */
  function Head(t: seq<Access>): set<Access> {
    if t == [] || t[0] == Sync then {} else {t[0]} + Head(t[1..])
  }

  /** The accesses after the last barrier; all of them without a barrier. */
  function Tail(t: seq<Access>): set<Access> {
    if t == [] then {}
    else if t[0] == Sync || HasSync(t[1..]) then Tail(t[1..])
    else {t[0]} + Tail(t[1..])
  }

  /** What is pending after t when p was pending before. */
  function Pending(p: set<Access>, t: seq<Access>): set<Access> {
    if HasSync(t) then Tail(t) else p + Tail(t)
  }

  ghost predicate Clear(p: set<Access>, t: seq<Access>) {
    forall x <- p, e <- Head(t) :: !Hazard(x, e)
  }

  /** Executing the runs one after the other, no access meets a hazard with a pending access of an earlier run. */
  ghost predicate Safe(p: set<Access>, ts: seq<seq<Access>>)
    decreases |ts|
  {
    ts == [] || (Clear(p, ts[0]) && Safe(Pending(p, ts[0]), ts[1..]))
  }

  function PendingAll(p: set<Access>, ts: seq<seq<Access>>): set<Access>
    decreases |ts|
  {
    if ts == [] then p else PendingAll(Pending(p, ts[0]), ts[1..])
  }

  lemma {:induction false} HeadAppend(t: seq<Access>, u: seq<Access>)
    ensures Head(t + u) == if HasSync(t) then Head(t) else Head(t) + Head(u)
  {
    if t == [] {
      assert t + u == u;
    } else {
      assert (t + u)[1..] == t[1..] + u;
      HeadAppend(t[1..], u);
    }
  }

  lemma {:induction false} TailAppend(t: seq<Access>, u: seq<Access>)
    ensures Tail(t + u) == if HasSync(u) then Tail(u) else Tail(t) + Tail(u)
  {
    if t == [] {
      assert t + u == u;
    } else {
      assert (t + u)[1..] == t[1..] + u;
      TailAppend(t[1..], u);
      if !HasSync(u) && !(t[0] == Sync || HasSync(t[1..])) {
        assert !HasSync(t[1..] + u);
      }
    }
  }

  lemma {:induction false} TailElements(t: seq<Access>, x: Access)
    requires x in Tail(t)
    ensures x in t && x != Sync
  {
    if x in Tail(t[1..]) {
      TailElements(t[1..], x);
    }
  }

  lemma {:induction false} SafeAppend(p: set<Access>, ts: seq<seq<Access>>, us: seq<seq<Access>>)
    ensures Safe(p, ts + us) <==> Safe(p, ts) && Safe(PendingAll(p, ts), us)
    ensures PendingAll(p, ts + us) == PendingAll(PendingAll(p, ts), us)
    decreases |ts|
  {
    if ts == [] {
      assert ts + us == us;
    } else {
      assert (ts + us)[1..] == ts[1..] + us;
      SafeAppend(Pending(p, ts[0]), ts[1..], us);
    }
  }

  /** An actual run t is described by the entry f: it exposes no more at either end, and has a barrier where f claims one. */
  ghost predicate Covers(f: seq<Access>, t: seq<Access>) {
    Head(t) <= Head(f) && Tail(t) <= Tail(f) && (HasSync(f) ==> HasSync(t))
  }

  /** Without an access, only barriers. */
  predicate Silent(t: seq<Access>) {
    Head(t) == {} && Tail(t) == {}
  }

  /** The entries fs describe the runs ts one by one; silent runs may be left out. */
  ghost predicate Aligned(fs: seq<seq<Access>>, ts: seq<seq<Access>>)
    decreases |ts|
  {
    if ts == [] then fs == []
    else
      || (Silent(ts[0]) && Aligned(fs, ts[1..]))
      || (fs != [] && Covers(fs[0], ts[0]) && Aligned(fs[1..], ts[1..]))
  }

  lemma {:induction false} AlignedSafe(p: set<Access>, fs: seq<seq<Access>>, q: set<Access>, ts: seq<seq<Access>>)
    requires Aligned(fs, ts) && q <= p && Safe(p, fs)
    ensures Safe(q, ts) && PendingAll(q, ts) <= PendingAll(p, fs)
    decreases |ts|
  {
    if ts != [] {
      if Silent(ts[0]) && Aligned(fs, ts[1..]) {
        AlignedSafe(p, fs, Pending(q, ts[0]), ts[1..]);
      } else {
        AlignedSafe(Pending(p, fs[0]), fs[1..], Pending(q, ts[0]), ts[1..]);
      }
    }
  }

  lemma {:induction false} AlignedAppend(fs: seq<seq<Access>>, ts: seq<seq<Access>>, gs: seq<seq<Access>>, us: seq<seq<Access>>)
    requires Aligned(fs, ts) && Aligned(gs, us)
    ensures Aligned(fs + gs, ts + us)
    decreases |ts|
  {
    if ts == [] {
      assert fs + gs == gs && ts + us == us;
    } else {
      assert (ts + us)[1..] == ts[1..] + us;
      if Silent(ts[0]) && Aligned(fs, ts[1..]) {
        AlignedAppend(fs, ts[1..], gs, us);
      } else {
        assert (fs + gs)[1..] == fs[1..] + gs;
        AlignedAppend(fs[1..], ts[1..], gs, us);
      }
    }
  }

  lemma {:induction false} AlignedPointwise(fs: seq<seq<Access>>, ts: seq<seq<Access>>)
    requires |fs| == |ts| && forall k :: 0 <= k < |fs| ==> Covers(fs[k], ts[k])
    ensures Aligned(fs, ts)
    decreases |ts|
  {
    if ts != [] {
      AlignedPointwise(fs[1..], ts[1..]);
    }
  }

  function Flatten(ts: seq<seq<Access>>): seq<Access> {
    if ts == [] then [] else ts[0] + Flatten(ts[1..])
  }

  lemma {:induction false} CoversAppend(f: seq<Access>, t: seq<Access>, g: seq<Access>, u: seq<Access>)
    requires Covers(f, t) && Covers(g, u)
    ensures Covers(f + g, t + u)
  {
    HeadAppend(f, g);
    HeadAppend(t, u);
    TailAppend(f, g);
    TailAppend(t, u);
  }

  lemma {:induction false} AlignedFlatten(fs: seq<seq<Access>>, ts: seq<seq<Access>>)
    requires Aligned(fs, ts)
    ensures Covers(Flatten(fs), Flatten(ts))
    decreases |ts|
  {
    if ts != [] {
      if Silent(ts[0]) && Aligned(fs, ts[1..]) {
        AlignedFlatten(fs, ts[1..]);
        CoversAppend([], ts[0], Flatten(fs), Flatten(ts[1..]));
        assert [] + Flatten(fs) == Flatten(fs);
      } else {
        AlignedFlatten(fs[1..], ts[1..]);
        CoversAppend(fs[0], ts[0], Flatten(fs[1..]), Flatten(ts[1..]));
      }
    }
  }

  /** Repeating what an entry describes exposes nothing new. */
  lemma {:induction false} CoversRepeat(f: seq<Access>, t: seq<Access>, u: seq<Access>)
    requires Covers(f, t) && Covers(f, u)
    ensures Covers(f, t + u)
  {
    HeadAppend(t, u);
    TailAppend(t, u);
  }

  // ----- safety said pair by pair -----

  /** A barrier after access a of run i and before access b of run j. */
  ghost predicate BarrierBetween(ts: seq<seq<Access>>, i: nat, a: nat, j: nat, b: nat)
    requires i < j < |ts| && a < |ts[i]| && b < |ts[j]|
  {
    HasSync(ts[i][a + 1..]) || (exists k :: i < k < j && HasSync(ts[k])) || HasSync(ts[j][..b])
  }

  ghost predicate AllHazardsSynced(ts: seq<seq<Access>>) {
    forall i: nat, j: nat, a: nat, b: nat | i < j < |ts| && a < |ts[i]| && b < |ts[j]| && Hazard(ts[i][a], ts[j][b]) ::
      BarrierBetween(ts, i, a, j, b)
  }

  lemma {:induction false} InHead(t: seq<Access>, b: nat)
    requires b < |t| && t[b] != Sync && !HasSync(t[..b])
    ensures t[b] in Head(t)
  {
    if b > 0 {
      assert t[..b][0] == t[0] && t[1..][..b - 1] == t[..b][1..];
      InHead(t[1..], b - 1);
    }
  }

  lemma {:induction false} HeadIndex(t: seq<Access>, x: Access) returns (b: nat)
    requires x in Head(t)
    ensures b < |t| && t[b] == x && x != Sync && !HasSync(t[..b])
  {
    if t[0] == x {
      b := 0;
    } else {
      b := HeadIndex(t[1..], x);
      b := b + 1;
      assert t[..b] == [t[0]] + t[1..][..b - 1];
    }
  }

  lemma {:induction false} InTail(t: seq<Access>, a: nat)
    requires a < |t| && t[a] != Sync && !HasSync(t[a + 1..])
    ensures t[a] in Tail(t)
  {
    if a > 0 {
      assert t[1..][a..] == t[a + 1..];
      InTail(t[1..], a - 1);
    }
  }

  lemma {:induction false} TailIndex(t: seq<Access>, x: Access) returns (a: nat)
    requires x in Tail(t)
    ensures a < |t| && t[a] == x && x != Sync && !HasSync(t[a + 1..])
  {
    if x in Tail(t[1..]) {
      a := TailIndex(t[1..], x);
      a := a + 1;
      assert t[1..][a..] == t[a + 1..];
    } else {
      a := 0;
    }
  }

  /** An access with no barrier behind it is still pending. */
  lemma {:induction false} StaysPending(p: set<Access>, ts: seq<seq<Access>>, x: Access)
    requires x in p && forall k :: 0 <= k < |ts| ==> !HasSync(ts[k])
    ensures x in PendingAll(p, ts)
    decreases |ts|
  {
    if ts != [] {
      StaysPending(Pending(p, ts[0]), ts[1..], x);
    }
  }

  lemma {:induction false} SafeAt(ts: seq<seq<Access>>, j: nat)
    requires Safe({}, ts) && j < |ts|
    ensures Clear(PendingAll({}, ts[..j]), ts[j])
  {
    assert ts == ts[..j] + ts[j..];
    SafeAppend({}, ts[..j], ts[j..]);
  }

  lemma {:induction false} NoBarrierPending(ts: seq<seq<Access>>, i: nat, a: nat)
    requires i < |ts| && a < |ts[i]| && ts[i][a] != Sync && !HasSync(ts[i][a + 1..])
    requires forall k :: i < k < |ts| ==> !HasSync(ts[k])
    ensures ts[i][a] in PendingAll({}, ts)
  {
    var p := PendingAll({}, ts[..i]);
    assert ts == ts[..i] + ts[i..];
    SafeAppend({}, ts[..i], ts[i..]);
    InTail(ts[i], a);
    assert ts[i..][1..] == ts[i + 1..];
    StaysPending(Pending(p, ts[i]), ts[i + 1..], ts[i][a]);
  }

  lemma {:induction false} SafePairs(ts: seq<seq<Access>>, i: nat, a: nat, j: nat, b: nat)
    requires Safe({}, ts) && i < j < |ts| && a < |ts[i]| && b < |ts[j]| && Hazard(ts[i][a], ts[j][b])
    ensures BarrierBetween(ts, i, a, j, b)
  {
    if !BarrierBetween(ts, i, a, j, b) {
      SafeAt(ts, j);
      NoBarrierPending(ts[..j], i, a);
      InHead(ts[j], b);
      assert false;
    }
  }

  /** Where a pending access comes from. */
  lemma {:induction false} PendingOrigin(ts: seq<seq<Access>>, x: Access) returns (i: nat, a: nat)
    requires x in PendingAll({}, ts)
    ensures i < |ts| && a < |ts[i]| && ts[i][a] == x && !HasSync(ts[i][a + 1..])
    ensures forall k :: i < k < |ts| ==> !HasSync(ts[k])
    decreases |ts|
  {
    assert ts != [];
    var n := |ts| - 1;
    assert ts == ts[..n] + [ts[n]];
    SafeAppend({}, ts[..n], [ts[n]]);
    assert [ts[n]][1..] == [];
    if x in Tail(ts[n]) {
      i := n;
      a := TailIndex(ts[n], x);
    } else {
      i, a := PendingOrigin(ts[..n], x);
    }
  }

  lemma {:induction false} PairsSafe(ts: seq<seq<Access>>)
    requires AllHazardsSynced(ts)
    ensures Safe({}, ts)
    decreases |ts|
  {
    if ts != [] {
      var n := |ts| - 1;
      var pre := ts[..n];
      forall i: nat, j: nat, a: nat, b: nat | i < j < n && a < |pre[i]| && b < |pre[j]| && Hazard(pre[i][a], pre[j][b])
        ensures BarrierBetween(pre, i, a, j, b)
      {
        assert BarrierBetween(ts, i, a, j, b);
      }
      PairsSafe(pre);
      assert ts == pre + [ts[n]];
      SafeAppend({}, pre, [ts[n]]);
      forall x <- PendingAll({}, pre), e <- Head(ts[n]) ensures !Hazard(x, e) {
        var i, a := PendingOrigin(pre, x);
        var b := HeadIndex(ts[n], e);
        assert !BarrierBetween(ts, i, a, n, b);
      }
    }
  }

  /** A sequence of runs is safe exactly when a barrier stands between every two accesses of different runs that need one. */
  lemma {:induction false} SafeIffAllHazardsSynced(ts: seq<seq<Access>>)
    ensures Safe({}, ts) <==> AllHazardsSynced(ts)
  {
    if Safe({}, ts) {
      forall i: nat, j: nat, a: nat, b: nat | i < j < |ts| && a < |ts[i]| && b < |ts[j]| && Hazard(ts[i][a], ts[j][b])
        ensures BarrierBetween(ts, i, a, j, b)
      {
        SafePairs(ts, i, a, j, b);
      }
    }
    if AllHazardsSynced(ts) {
      PairsSafe(ts);
    }
  }

  /** An entry describes a loop or branch that does not run at all exactly when it claims no barrier. */
  lemma {:induction false} SkippedRunCovered(f: seq<Access>)
    ensures Covers(f, []) <==> !HasSync(f)
  {
    assert Head([]) == {} && Tail([]) == {};
  }

  // ----- the static view of a sequence of statements -----

  /** The accesses of an entry, behind a barrier if one was inserted before its statement. */
  function Guarded(e: StmtEntry, syncs: set<nat>): seq<Access> {
    if e.stmt in syncs then [Sync] + e.access else e.access
  }

  function GuardedAll(es: seq<StmtEntry>, syncs: set<nat>): seq<seq<Access>> {
    seq(|es|, k requires 0 <= k < |es| => Guarded(es[k], syncs))
  }

  function Repeat(ts: seq<seq<Access>>, n: nat): seq<seq<Access>> {
    if n == 0 then [] else ts + Repeat(ts, n - 1)
  }

  lemma {:induction false} GuardedCovers(e: StmtEntry, syncs: set<nat>, more: set<nat>)
    requires syncs <= more
    ensures Covers(Guarded(e, syncs), Guarded(e, more))
  {
    if e.stmt in more && e.stmt !in syncs {
      HeadAppend([Sync], e.access);
      TailAppend([Sync], e.access);
      assert Tail([Sync]) == {};
    }
  }

  /** More barriers keep a sequence safe. */
  lemma {:induction false} SafeMoreSyncs(es: seq<StmtEntry>, syncs: set<nat>, more: set<nat>)
    requires syncs <= more && Safe({}, GuardedAll(es, syncs))
    ensures Safe({}, GuardedAll(es, more)) && PendingAll({}, GuardedAll(es, more)) <= PendingAll({}, GuardedAll(es, syncs))
  {
    forall k | 0 <= k < |es| ensures Covers(GuardedAll(es, syncs)[k], GuardedAll(es, more)[k]) {
      GuardedCovers(es[k], syncs, more);
    }
    AlignedPointwise(GuardedAll(es, syncs), GuardedAll(es, more));
    AlignedSafe({}, GuardedAll(es, syncs), {}, GuardedAll(es, more));
  }

  lemma {:induction false} PendingAllFlatten(p: set<Access>, ts: seq<seq<Access>>)
    ensures PendingAll(p, ts) == Pending(p, Flatten(ts))
    decreases |ts|
  {
    if ts != [] {
      PendingAllFlatten(Pending(p, ts[0]), ts[1..]);
      TailAppend(ts[0], Flatten(ts[1..]));
    }
  }

  /** Two rotations are enough: what is pending after the second is what was pending after the first. */
  lemma {:induction false} TwoRotations(ts: seq<seq<Access>>, n: nat)
    requires Safe({}, ts + ts)
    ensures Safe({}, Repeat(ts, n)) && Safe(PendingAll({}, ts), Repeat(ts, n))
  {
    SafeAppend({}, ts, ts);
    var p := PendingAll({}, ts);
    PendingAllFlatten({}, ts);
    PendingAllFlatten(p, ts);
    assert PendingAll(p, ts) == p;
    if n > 0 {
      TwoRotations(ts, n - 1);
      SafeAppend({}, ts, Repeat(ts, n - 1));
      SafeAppend(p, ts, Repeat(ts, n - 1));
    }
  }

  // ----- what a summary keeps -----

  function ToFirstSync(f: seq<Access>): seq<Access> {
    if f == [] then [] else if f[0] == Sync then [Sync] else [f[0]] + ToFirstSync(f[1..])
  }

  function AfterLastSync(f: seq<Access>): seq<Access> {
    if HasSync(f) then AfterLastSync(f[1..]) else f
  }

  /** The accesses up to the first barrier, that barrier, and the accesses after the last one. */
  function Exposed(f: seq<Access>): seq<Access> {
    if HasSync(f) then ToFirstSync(f) + AfterLastSync(f) else f
  }

  lemma {:induction false} ToFirstSyncHead(f: seq<Access>)
    requires HasSync(f)
    ensures Head(ToFirstSync(f)) == Head(f) && HasSync(ToFirstSync(f)) && Tail(ToFirstSync(f)) == {}
  {
    if f[0] != Sync {
      ToFirstSyncHead(f[1..]);
    }
  }

  lemma {:induction false} AfterLastSyncTail(f: seq<Access>)
    ensures Tail(AfterLastSync(f)) == Tail(f) && !HasSync(AfterLastSync(f))
  {
    if HasSync(f) {
      AfterLastSyncTail(f[1..]);
      if f[0] == Sync && !HasSync(f[1..]) {
      }
    }
  }

  /** A summary exposes the same accesses at both ends as the whole sequence. */
  lemma {:induction false} ExposedSame(f: seq<Access>)
    ensures Head(Exposed(f)) == Head(f) && Tail(Exposed(f)) == Tail(f) && HasSync(Exposed(f)) == HasSync(f)
  {
    if HasSync(f) {
      ToFirstSyncHead(f);
      AfterLastSyncTail(f);
      HeadAppend(ToFirstSync(f), AfterLastSync(f));
      TailAppend(ToFirstSync(f), AfterLastSync(f));
    }
  }

  lemma {:induction false} ExposedSnoc(f: seq<Access>, a: Access)
    ensures !HasSync(f) ==> ToFirstSync(f + [a]) == f + [a]
    ensures HasSync(f) ==> ToFirstSync(f + [a]) == ToFirstSync(f)
    ensures AfterLastSync(f + [a]) == if a == Sync then [] else AfterLastSync(f) + [a]
  {
    if f == [] {
      assert f + [a] == [a];
    } else {
      assert (f + [a])[1..] == f[1..] + [a];
      ExposedSnoc(f[1..], a);
    }
  }

  lemma {:induction false} PendingSnoc(p: set<Access>, t: seq<Access>, a: Access)
    ensures Pending(p, t + [a]) == if a == Sync then {} else Pending(p, t) + {a}
  {
    TailAppend(t, [a]);
    assert Tail([a]) == if a == Sync then {} else {a};
  }

  lemma {:induction false} GuardedSnoc(es: seq<StmtEntry>, e: StmtEntry, syncs: set<nat>)
    ensures GuardedAll(es + [e], syncs) == GuardedAll(es, syncs) + [Guarded(e, syncs)]
    ensures Safe({}, GuardedAll(es + [e], syncs)) <==>
      Safe({}, GuardedAll(es, syncs)) && Clear(PendingAll({}, GuardedAll(es, syncs)), Guarded(e, syncs))
    ensures PendingAll({}, GuardedAll(es + [e], syncs)) == Pending(PendingAll({}, GuardedAll(es, syncs)), Guarded(e, syncs))
  {
    var f := Guarded(e, syncs);
    SafeAppend({}, GuardedAll(es, syncs), [f]);
    assert [f][1..] == [];
  }

  lemma {:induction false} GuardedSync(e: StmtEntry, syncs: set<nat>, p: set<Access>)
    ensures e.stmt in syncs ==> Head(Guarded(e, syncs)) == {} && Pending(p, Guarded(e, syncs)) == Pending({}, e.access)
  {
    if e.stmt in syncs {
      TailAppend([Sync], e.access);
      assert Tail([Sync]) == {};
    }
  }

  function Stmts(es: seq<StmtEntry>): set<nat> {
    set e <- es :: e.stmt
  }

  function Elements(s: seq<Access>): set<Access> {
    set x <- s
  }

  ghost predicate Sorted(rs: seq<Access>, ws: seq<Access>) {
    (forall x <- rs :: x.Read?) && (forall x <- ws :: x.Write?)
  }

  lemma {:induction false} ClearSnoc(p: set<Access>, t: seq<Access>, a: Access)
    ensures Clear(p, t + [a]) <==> Clear(p, t) && (HasSync(t) || a == Sync || forall x <- p :: !Hazard(x, a))
  {
    HeadSnoc(t, a);
  }

  lemma {:induction false} HeadSnoc(t: seq<Access>, a: Access)
    ensures Head(t + [a]) == if HasSync(t) || a == Sync then Head(t) else Head(t) + {a}
  {
    HeadAppend(t, [a]);
    assert Head([a]) == if a == Sync then {} else {a};
  }

  method FindConflict(vec: seq<Access>, e: Access) returns (found: bool)
    ensures found <==> exists x <- vec :: Overlap(x, e)
  {
    for i := 0 to |vec|
      invariant forall x <- vec[..i] :: !Overlap(x, e)
    {
      if !vec[i].Sync? && !e.Sync? && vec[i].buffer == e.buffer {
        if e.touched.IsSinglePoint() && vec[i].touched.IsSinglePoint() && e.touched.min == vec[i].touched.min {
          continue;
        }
        assert vec[i] in vec && Overlap(vec[i], e);
        return true;
      }
    }
    return false;
  }

  /** Whether an access of the statement meets a hazard among the unsynchronised reads and writes. */
  method NeedsSync(access: seq<Access>, rs0: seq<Access>, ws0: seq<Access>)
    returns (sync: bool, rs: seq<Access>, ws: seq<Access>)
    requires Sorted(rs0, ws0)
    ensures sync <==> !Clear(Elements(rs0) + Elements(ws0), access)
    ensures !sync ==> Sorted(rs, ws)
    ensures !sync ==>
      Elements(rs) + Elements(ws) == if HasSync(access) then {} else Elements(rs0) + Elements(ws0)
  {
    rs, ws := rs0, ws0;
    ghost var p := Elements(rs0) + Elements(ws0);
    for i := 0 to |access|
      invariant Clear(p, access[..i])
      invariant if HasSync(access[..i]) then rs == ws == [] else rs == rs0 && ws == ws0
    {
      var acc := access[i];
      assert access[..i + 1] == access[..i] + [acc];
      assert access == access[..i + 1] + access[i + 1..];
      HeadSnoc(access[..i], acc);
      ClearSnoc(p, access[..i], acc);
      HeadAppend(access[..i + 1], access[i + 1..]);
      var conflict := false;
      match acc {
        case Read(_, _) => conflict := FindConflict(ws, acc);
        case Write(_, _) => conflict := FindConflict(rs, acc);
        case Sync => rs, ws := [], [];
      }
      if conflict {
        ghost var x :| x in (if acc.Read? then ws else rs) && Overlap(x, acc);
        assert x in p && Hazard(x, acc) && !HasSync(access[..i]);
        assert acc in Head(access[..i + 1]);
        return true, [], [];
      }
    }
    assert access[..|access|] == access;
    return false, rs, ws;
  }

  /** Adds the accesses of a statement to the unsynchronised reads and writes. */
  method Record(access: seq<Access>, rs0: seq<Access>, ws0: seq<Access>) returns (rs: seq<Access>, ws: seq<Access>)
    requires Sorted(rs0, ws0)
    ensures Sorted(rs, ws)
    ensures Elements(rs) + Elements(ws) == Pending(Elements(rs0) + Elements(ws0), access)
  {
    rs, ws := rs0, ws0;
    ghost var p := Elements(rs0) + Elements(ws0);
    for i := 0 to |access|
      invariant Sorted(rs, ws)
      invariant Elements(rs) + Elements(ws) == Pending(p, access[..i])
    {
      assert access[..i + 1] == access[..i] + [access[i]];
      PendingSnoc(p, access[..i], access[i]);
      match access[i] {
        case Read(_, _) => rs := rs + [access[i]];
        case Write(_, _) => ws := ws + [access[i]];
        case Sync => rs, ws := [], [];
      }
    }
    assert access[..|access|] == access;
  }

  /** After a barrier is added, the statements before it stay safe and have no more pending. */
  lemma {:induction false} StepSafe(rotated: seq<StmtEntry>, i: nat, syncs: set<nat>, more: set<nat>)
    requires i < |rotated| && syncs <= more && Safe({}, GuardedAll(rotated[..i], syncs))
    ensures Safe({}, GuardedAll(rotated[..i], more))
    ensures PendingAll({}, GuardedAll(rotated[..i], more)) <= PendingAll({}, GuardedAll(rotated[..i], syncs))
    ensures var p := PendingAll({}, GuardedAll(rotated[..i], more));
      && (Safe({}, GuardedAll(rotated[..i + 1], more)) <==> Clear(p, Guarded(rotated[i], more)))
      && PendingAll({}, GuardedAll(rotated[..i + 1], more)) == Pending(p, Guarded(rotated[i], more))
  {
    SafeMoreSyncs(rotated[..i], syncs, more);
    assert rotated[..i + 1] == rotated[..i] + [rotated[i]];
    GuardedSnoc(rotated[..i], rotated[i], more);
  }

  lemma {:induction false} Wrap(i: nat, n: nat)
    requires i < 2 * n
    ensures i % n == if i < n then i else i - n
  {
  }

  lemma {:induction false} SafePrefix(es: seq<StmtEntry>, k: nat, syncs: set<nat>)
    requires k <= |es| && Safe({}, GuardedAll(es, syncs))
    ensures Safe({}, GuardedAll(es[..k], syncs))
  {
    assert GuardedAll(es, syncs) == GuardedAll(es[..k], syncs) + GuardedAll(es[k..], syncs);
    SafeAppend({}, GuardedAll(es[..k], syncs), GuardedAll(es[k..], syncs));
  }

  // ----- the simulation of a sequence of statements -----

  /** The accesses since the last barrier, and the statements with a barrier before them. */
  datatype Simulation = Simulation(pending: set<Access>, syncs: set<nat>)

  /** A statement gets a barrier if an access of it meets a hazard; one that has a barrier keeps it. */
  ghost function SimStep(m: Simulation, s: StmtEntry): Simulation {
    if s.stmt in m.syncs || !Clear(m.pending, s.access) then Simulation(Pending({}, s.access), m.syncs + {s.stmt})
    else Simulation(Pending(m.pending, s.access), m.syncs)
  }

  ghost function SimAll(m: Simulation, es: seq<StmtEntry>): Simulation
    decreases |es|
  {
    if |es| == 0 then m else SimStep(SimAll(m, es[..|es| - 1]), es[|es| - 1])
  }

  function Rotations(es: seq<StmtEntry>, loop: bool): seq<StmtEntry> {
    if loop then es + es else es
  }

  /** The simulation only adds barriers before statements of the sequence. With them it is safe, and nothing is added to a
      sequence that is safe already. */
  lemma {:induction false} SimSafe(es: seq<StmtEntry>, syncs: set<nat>)
    ensures var m := SimAll(Simulation({}, syncs), es);
      && syncs <= m.syncs <= syncs + Stmts(es)
      && Safe({}, GuardedAll(es, m.syncs)) && PendingAll({}, GuardedAll(es, m.syncs)) <= m.pending
      && (m.syncs == syncs ==> PendingAll({}, GuardedAll(es, syncs)) == m.pending)
      && (m.syncs == syncs <==> Safe({}, GuardedAll(es, syncs)))
    decreases |es|
  {
    hide Clear, Pending, Guarded, Head;
    if |es| > 0 {
      var i := |es| - 1;
      assert es == es[..i] + [es[i]];
      SimSafe(es[..i], syncs);
      SimStepSafe(es, i, syncs, SimAll(Simulation({}, syncs), es[..i]));
    }
  }

  lemma {:induction false} SimStepSafe(es: seq<StmtEntry>, i: nat, syncs: set<nat>, m: Simulation)
    requires |es| == i + 1 && es[..i] + [es[i]] == es && syncs <= m.syncs
    requires Safe({}, GuardedAll(es[..i], m.syncs)) && PendingAll({}, GuardedAll(es[..i], m.syncs)) <= m.pending
    requires m.syncs == syncs ==> PendingAll({}, GuardedAll(es[..i], syncs)) == m.pending
    requires m.syncs == syncs <==> Safe({}, GuardedAll(es[..i], syncs))
    ensures var m1 := SimStep(m, es[i]);
      && Safe({}, GuardedAll(es, m1.syncs)) && PendingAll({}, GuardedAll(es, m1.syncs)) <= m1.pending
      && (m1.syncs == syncs ==> PendingAll({}, GuardedAll(es, syncs)) == m1.pending)
      && (m1.syncs == syncs <==> Safe({}, GuardedAll(es, syncs)))
  {
    hide Safe, PendingAll;
    var s, m1 := es[i], SimStep(m, es[i]);
    assert es[..i + 1] == es;
    StepSafe(es, i, m.syncs, m1.syncs);
    GuardedSnoc(es[..i], s, syncs);
    GuardedSync(s, m1.syncs, PendingAll({}, GuardedAll(es[..i], m1.syncs)));
    GuardedSync(s, m.syncs, PendingAll({}, GuardedAll(es[..i], m.syncs)));
    assert Pending({}, s.access) == Tail(s.access);
  }

  /** Nothing to insert, and nothing inserted before: what a sequence under a condition must be. */
  ghost predicate Quiet(es: seq<StmtEntry>, loop: bool, syncs: set<nat>) {
    Safe({}, GuardedAll(Rotations(es, loop), syncs)) && forall e <- es :: e.stmt !in syncs
  }

  lemma {:induction false} QuietIs(es: seq<StmtEntry>, loop: bool, syncs: set<nat>)
    ensures Quiet(es, loop, syncs) <==>
      Safe({}, GuardedAll(Rotations(es, loop), syncs)) && forall e <- Rotations(es, loop) :: e.stmt !in syncs
    ensures Stmts(Rotations(es, loop)) == Stmts(es)
  {
    assert forall e <- es :: e in Rotations(es, loop);
  }

  // ----- programs and their executions -----

  /** What an expression does to shared storage, in the order in which it is visited. */
  datatype Op =
    | Load(buffer: nat, index: Expr)
    | AccessPtr(buffer: nat, offset: Expr, extent: Expr, reading: bool, writing: bool)
    | StorageSync(warp: bool)

  /** Statements with their node names; the operations of a store are those inside its value and index. */
  datatype Stmt =
    | Store(id: nat, buffer: nat, index: Expr, ops: seq<Op>)
    | Evaluate(id: nat, ops: seq<Op>)
    | For(id: nat, loopVar: nat, min: Expr, extent: Expr, body: seq<Stmt>)
    | IfThenElse(id: nat, condition: seq<Op>, thenCase: seq<Stmt>, elseCase: seq<Stmt>)

  // ----- what a thread does -----

  /** One thing that a thread does: an operation of an expression, the store of a statement, or waiting at a barrier put before one. */
  datatype Deed = Does(op: Op) | Stores(buffer: nat, index: Expr) | Waits

  /** It reads the address, when the variables have the values of env. */
  predicate Reads(d: Deed, env: Env, b: nat, addr: int) {
    d.Does? &&
    match d.op
    case Load(b1, index) => b1 == b && addr == Eval(index, env)
    case AccessPtr(b1, offset, extent, reading, _) => b1 == b && reading && Eval(offset, env) <= addr < Eval(offset, env) + Eval(extent, env)
    case StorageSync(_) => false
  }

  predicate Writes(d: Deed, env: Env, b: nat, addr: int) {
    match d
    case Stores(b1, index) => b1 == b && addr == Eval(index, env)
    case Does(AccessPtr(b1, offset, extent, _, writing)) =>
      b1 == b && writing && Eval(offset, env) <= addr < Eval(offset, env) + Eval(extent, env)
    case _ => false
  }

  /** It waits for all threads of the block; a barrier of a warp does not. */
  predicate IsBarrier(d: Deed) {
    d.Waits? || (d.Does? && d.op.StorageSync? && !d.op.warp)
  }

  /** Indices without selections. */
  predicate PlainIndex(d: Deed) {
    match d
    case Stores(_, index) => NoSelect(index)
    case Does(Load(_, index)) => NoSelect(index)
    case _ => true
  }

  /** No operation waits for all threads of the block. */
  predicate NoWaits(ops: seq<Op>) {
    forall k :: 0 <= k < |ops| ==> !IsBarrier(Does(ops[k]))
  }

  /** No operation waits, and none reads or writes a buffer of enabled. */
  predicate NothingDone(ops: seq<Op>, enabled: set<nat>) {
    && NoWaits(ops)
    && forall k :: 0 <= k < |ops| ==>
         match ops[k]
         case Load(b, _) => b !in enabled
         case AccessPtr(b, _, _, reading, writing) => b in enabled ==> !reading && !writing
         case StorageSync(_) => true
  }

  // ----- what the planner records of it -----

  /** The set min .. min + extent - 1. */
  function RangeSet(min: Expr, extent: Expr): Interval {
    if extent == IntImm(1) then SinglePoint(min)
    else if extent.IntImm? && extent.value > 0 && min.IntImm? then
      Interval(Fin(min), Fin(ComputeSub(ComputeAdd(extent, min), IntImm(1))))
    else Interval(Fin(min), Fin(Bin(Sub, Bin(Add, extent, min), IntImm(1))))
  }

  function OpAccess(op: Op, enabled: set<nat>): seq<Access> {
    match op
    case Load(b, index) => if b in enabled then [Read(b, EvalSet(index, map[]))] else []
    case AccessPtr(b, offset, extent, reading, writing) =>
      if b in enabled then
        (if reading then [Read(b, RangeSet(offset, extent))] else []) +
        (if writing then [Write(b, RangeSet(offset, extent))] else [])
      else []
    case StorageSync(warp) => if warp then [] else [Sync]
  }

  function OpsAccess(ops: seq<Op>, enabled: set<nat>): seq<Access> {
    if ops == [] then [] else OpAccess(ops[0], enabled) + OpsAccess(ops[1..], enabled)
  }

  function StoreAccess(b: nat, index: Expr, ops: seq<Op>, enabled: set<nat>): seq<Access> {
    (if b in enabled then [Write(b, EvalSet(index, map[]))] else []) + OpsAccess(ops, enabled)
  }

  /** The accesses that the planner records for a deed. */
  function AccessOf(d: Deed, enabled: set<nat>): seq<Access> {
    match d
    case Does(op) => OpAccess(op, enabled)
    case Stores(b, index) => StoreAccess(b, index, [], enabled)
    case Waits => [Sync]
  }

  /** Some access of the kind is recorded that holds the address. */
  ghost predicate Recorded(t: seq<Access>, writing: bool, env: Env, b: nat, addr: int) {
    exists k :: 0 <= k < |t| && IsAccess(t[k], writing, env, b, addr)
  }

  predicate IsAccess(a: Access, writing: bool, env: Env, b: nat, addr: int) {
    !a.Sync? && a.Write? == writing && a.buffer == b && In(addr, a.touched, env)
  }

  lemma {:induction false} InRange(min: Expr, extent: Expr, addr: int, env: Env)
    ensures In(addr, RangeSet(min, extent), env) <==> Eval(min, env) <= addr < Eval(min, env) + Eval(extent, env)
  {
    assert Eval(IntImm(1), env) == 1;
    EvalComputeAdd(extent, min, env);
    EvalComputeSub(ComputeAdd(extent, min), IntImm(1), env);
    assert Eval(Bin(Add, extent, min), env) == Eval(extent, env) + Eval(min, env);
    assert Eval(Bin(Sub, Bin(Add, extent, min), IntImm(1)), env) == Eval(extent, env) + Eval(min, env) - 1;
  }

  lemma {:induction false} InIndex(index: Expr, addr: int, env: Env)
    ensures addr == Eval(index, env) ==> In(addr, EvalSet(index, map[]), env)
    ensures NoSelect(index) && In(addr, EvalSet(index, map[]), env) ==> addr == Eval(index, env)
  {
    EvalSetSound(index, map[], env);
    if NoSelect(index) {
      OwnSet(index, map[]);
    }
  }

  /** Whatever a thread reads or writes of the buffers of enabled is recorded as read or written, and nothing else is where indices have no
      selections. A barrier of the block is recorded as one, alone, and nothing else is. */
  lemma {:induction false} AccessRight(d: Deed, enabled: set<nat>, env: Env, b: nat, addr: int)
    ensures b in enabled && Reads(d, env, b, addr) ==> Recorded(AccessOf(d, enabled), false, env, b, addr)
    ensures b in enabled && Writes(d, env, b, addr) ==> Recorded(AccessOf(d, enabled), true, env, b, addr)
    ensures PlainIndex(d) && Recorded(AccessOf(d, enabled), false, env, b, addr) ==> b in enabled && Reads(d, env, b, addr)
    ensures PlainIndex(d) && Recorded(AccessOf(d, enabled), true, env, b, addr) ==> b in enabled && Writes(d, env, b, addr)
    ensures if IsBarrier(d) then AccessOf(d, enabled) == [Sync] else !HasSync(AccessOf(d, enabled))
  {
    hide EvalSet, RangeSet, In, Eval;
    var t := AccessOf(d, enabled);
    match d {
      case Stores(b1, index) =>
        InIndex(index, addr, env);
        assert b1 in enabled ==> t == [Write(b1, EvalSet(index, map[]))] && IsAccess(t[0], true, env, b1, addr) == In(addr, t[0].touched, env);
      case Does(Load(b1, index)) =>
        InIndex(index, addr, env);
        assert b1 in enabled ==> IsAccess(t[0], false, env, b1, addr) == In(addr, t[0].touched, env);
      case Does(AccessPtr(b1, offset, extent, reading, writing)) =>
        InRange(offset, extent, addr, env);
        if b1 in enabled && reading {
          assert IsAccess(t[0], false, env, b1, addr) == In(addr, t[0].touched, env);
        }
        if b1 in enabled && writing {
          assert IsAccess(t[|t| - 1], true, env, b1, addr) == In(addr, t[|t| - 1].touched, env);
        }
      case _ =>
    }
  }

  lemma {:induction false} OpsWait(ops: seq<Op>, enabled: set<nat>)
    ensures HasSync(OpsAccess(ops, enabled)) <==> !NoWaits(ops)
    ensures OpsAccess(ops, enabled) == [] <==> NothingDone(ops, enabled)
  {
    if ops != [] {
      OpsWait(ops[1..], enabled);
      assert NoWaits(ops) <==> !IsBarrier(Does(ops[0])) && NoWaits(ops[1..]) by {
        assert forall k :: 0 <= k < |ops| - 1 ==> ops[1..][k] == ops[k + 1];
      }
      assert NothingDone(ops, enabled) <==> NothingDone([ops[0]], enabled) && NothingDone(ops[1..], enabled) by {
        assert forall k :: 0 <= k < |ops| - 1 ==> ops[1..][k] == ops[k + 1];
        assert [ops[0]][0] == ops[0];
      }
      assert NothingDone([ops[0]], enabled) <==> OpAccess(ops[0], enabled) == [] by {
        assert [ops[0]][0] == ops[0];
      }
    }
  }

  function RelaxAccess(a: Access, dom: DomMap): Access {
    match a
    case Read(b, s) => Read(b, EvalSetOfSet(s, dom))
    case Write(b, s) => Write(b, EvalSetOfSet(s, dom))
    case Sync => Sync
  }

  /** The accesses as they look from outside the loops over the variables of dom. */
  function RelaxAll(t: seq<Access>, dom: DomMap): seq<Access> {
    if t == [] then [] else [RelaxAccess(t[0], dom)] + RelaxAll(t[1..], dom)
  }

  function LoopDomain(s: Stmt): DomMap
    requires s.For?
  {
    map[s.loopVar := RangeSet(s.min, s.extent)]
  }

  function Barrier(id: nat, syncs: set<nat>): seq<Access> {
    if id in syncs then [Sync] else []
  }

  function Join(runs: seq<seq<seq<Access>>>): seq<seq<Access>> {
    if runs == [] then [] else runs[0] + Join(runs[1..])
  }

  /** t is what one execution of s does, with barriers before the statements of syncs. A loop runs at least once, unless it is
      one of skip; either branch of a conditional may be taken. Accesses are given as they look from outside s. */
  ghost predicate IsTrace(s: Stmt, enabled: set<nat>, skip: set<nat>, syncs: set<nat>, t: seq<Access>)
    decreases s, 1
  {
    match s
    case Store(id, b, index, ops) => t == Barrier(id, syncs) + StoreAccess(b, index, ops, enabled)
    case Evaluate(id, ops) => t == Barrier(id, syncs) + OpsAccess(ops, enabled)
    case For(id, _, _, _, body) =>
      exists runs: seq<seq<seq<Access>>> ::
        && (runs != [] || id in skip) && (forall r <- runs :: IsRun(body, enabled, skip, syncs, r))
        && t == Barrier(id, syncs) + RelaxAll(Flatten(Join(runs)), LoopDomain(s))
    case IfThenElse(id, _, thenCase, elseCase) =>
      exists run: seq<seq<Access>> ::
        && (IsRun(thenCase, enabled, skip, syncs, run) || IsRun(elseCase, enabled, skip, syncs, run))
        && t == Barrier(id, syncs) + Flatten(run)
  }

  /** One execution of a sequence of statements. */
  ghost predicate IsRun(body: seq<Stmt>, enabled: set<nat>, skip: set<nat>, syncs: set<nat>, ts: seq<seq<Access>>)
    decreases body, 0
  {
    |ts| == |body| && forall k :: 0 <= k < |body| ==> IsTrace(body[k], enabled, skip, syncs, ts[k])
  }

  /** In every scope inside s no execution, whatever barriers are added to syncs, meets a hazard between
      two statement instances without a barrier between them. */
  ghost predicate ScopesSafe(s: Stmt, enabled: set<nat>, skip: set<nat>, syncs: set<nat>)
    decreases s, 1
  {
    match s
    case For(_, _, _, _, body) =>
      && BodyScopesSafe(body, enabled, skip, syncs) && LoopRunsSafe(body, enabled, skip, syncs)
    case IfThenElse(_, _, thenCase, _) =>
      && BodyScopesSafe(thenCase, enabled, skip, syncs) && RunsSafe(thenCase, enabled, skip, syncs)
    case _ => true
  }

  ghost predicate BodyScopesSafe(body: seq<Stmt>, enabled: set<nat>, skip: set<nat>, syncs: set<nat>)
    decreases body, 0
  {
    forall k :: 0 <= k < |body| ==> ScopesSafe(body[k], enabled, skip, syncs)
  }

  /** Any number of iterations one after the other. */
  ghost predicate LoopRunsSafe(body: seq<Stmt>, enabled: set<nat>, skip: set<nat>, syncs: set<nat>) {
    forall more: set<nat>, runs: seq<seq<seq<Access>>> |
      syncs <= more && (forall r <- runs :: IsRun(body, enabled, skip, more, r)) :: Safe({}, Join(runs))
  }

  ghost predicate RunsSafe(body: seq<Stmt>, enabled: set<nat>, skip: set<nat>, syncs: set<nat>) {
    forall more: set<nat>, run: seq<seq<Access>> | syncs <= more && IsRun(body, enabled, skip, more, run) :: Safe({}, run)
  }

  /** The statement has no access and no explicit barrier. */
  predicate Inert(s: Stmt, enabled: set<nat>)
    decreases s, 1
  {
    match s
    case Store(_, b, _, ops) => b !in enabled && NothingDone(ops, enabled)
    case Evaluate(_, ops) => NothingDone(ops, enabled)
    case For(_, _, _, _, body) => InertBody(body, enabled)
    case IfThenElse(_, _, thenCase, elseCase) => InertBody(thenCase, enabled) && InertBody(elseCase, enabled)
  }

  predicate InertBody(body: seq<Stmt>, enabled: set<nat>)
    decreases body, 0
  {
    forall k :: 0 <= k < |body| ==> Inert(body[k], enabled)
  }

  /** No explicit barrier inside. */
  predicate NoBarrier(s: Stmt, enabled: set<nat>)
    decreases s, 1
  {
    match s
    case Store(_, _, _, ops) => NoWaits(ops)
    case Evaluate(_, ops) => NoWaits(ops)
    case For(_, _, _, _, body) => NoBarrierBody(body, enabled)
    case IfThenElse(_, _, thenCase, elseCase) => NoBarrierBody(thenCase, enabled) && NoBarrierBody(elseCase, enabled)
  }

  predicate NoBarrierBody(body: seq<Stmt>, enabled: set<nat>)
    decreases body, 0
  {
    forall k :: 0 <= k < |body| ==> NoBarrier(body[k], enabled)
  }

  /** What the pass needs: no explicit barrier under a condition, and nothing to synchronise in an else branch. */
  predicate Supported(s: Stmt, enabled: set<nat>)
    decreases s, 1
  {
    match s
    case For(_, _, _, _, body) => SupportedBody(body, enabled)
    case IfThenElse(_, _, thenCase, elseCase) =>
      SupportedBody(thenCase, enabled) && NoBarrierBody(thenCase, enabled) && InertBody(elseCase, enabled)
    case _ => true
  }

  predicate SupportedBody(body: seq<Stmt>, enabled: set<nat>)
    decreases body, 0
  {
    forall k :: 0 <= k < |body| ==> Supported(body[k], enabled)
  }

  /** The names of the statements of s, inner ones included. */
  function IdsOf(s: Stmt): set<nat>
    decreases s, 1
  {
    match s
    case For(id, _, _, _, body) => {id} + IdsOfBody(body)
    case IfThenElse(id, _, thenCase, elseCase) => {id} + IdsOfBody(thenCase) + IdsOfBody(elseCase)
    case _ => {s.id}
  }

  function IdsOfBody(body: seq<Stmt>): set<nat>
    decreases body, 0
  {
    set k, i | 0 <= k < |body| && i in IdsOf(body[k]) :: i
  }

  /** The loops of skip hold no barrier, neither an explicit one nor one of syncs. */
  ghost predicate MaySkip(s: Stmt, enabled: set<nat>, skip: set<nat>, syncs: set<nat>)
    decreases s, 1
  {
    match s
    case For(id, _, _, _, body) =>
      MaySkipBody(body, enabled, skip, syncs) && (id in skip ==> NoBarrierBody(body, enabled) && IdsOfBody(body) !! syncs)
    case IfThenElse(_, _, thenCase, elseCase) => MaySkipBody(thenCase, enabled, skip, syncs) && MaySkipBody(elseCase, enabled, skip, syncs)
    case _ => true
  }

  ghost predicate MaySkipBody(body: seq<Stmt>, enabled: set<nat>, skip: set<nat>, syncs: set<nat>)
    decreases body, 0
  {
    forall k :: 0 <= k < |body| ==> MaySkip(body[k], enabled, skip, syncs)
  }

  /** With fewer barriers, as many loops may be skipped. */
  lemma {:induction false} MaySkipLess(s: Stmt, enabled: set<nat>, skip: set<nat>, syncs: set<nat>, more: set<nat>)
    requires MaySkip(s, enabled, skip, more) && syncs <= more
    ensures MaySkip(s, enabled, skip, syncs)
    decreases s, 1
  {
    match s
    case For(_, _, _, _, body) => MaySkipBodyLess(body, enabled, skip, syncs, more);
    case IfThenElse(_, _, thenCase, elseCase) =>
      MaySkipBodyLess(thenCase, enabled, skip, syncs, more);
      MaySkipBodyLess(elseCase, enabled, skip, syncs, more);
    case _ =>
  }

  lemma {:induction false} MaySkipBodyLess(body: seq<Stmt>, enabled: set<nat>, skip: set<nat>, syncs: set<nat>, more: set<nat>)
    requires MaySkipBody(body, enabled, skip, more) && syncs <= more
    ensures MaySkipBody(body, enabled, skip, syncs)
    decreases body, 0
  {
    forall k | 0 <= k < |body| ensures MaySkip(body[k], enabled, skip, syncs) {
      MaySkipLess(body[k], enabled, skip, syncs, more);
    }
  }

  /** The entries es stand for the statements of body in every execution with at least the barriers of syncs. */
  ghost predicate Describes(body: seq<Stmt>, enabled: set<nat>, skip: set<nat>, es: seq<StmtEntry>, syncs: set<nat>) {
    forall more: set<nat>, run: seq<seq<Access>> | syncs <= more && IsRun(body, enabled, skip, more, run) ::
      Aligned(GuardedAll(es, more), run)
  }

  lemma {:induction false} CoversTransitive(f: seq<Access>, g: seq<Access>, h: seq<Access>)
    requires Covers(f, g) && Covers(g, h)
    ensures Covers(f, h)
  {
  }

  lemma {:induction false} RelaxParts(t: seq<Access>, dom: DomMap)
    ensures Head(RelaxAll(t, dom)) == set a <- Head(t) :: RelaxAccess(a, dom)
    ensures Tail(RelaxAll(t, dom)) == set a <- Tail(t) :: RelaxAccess(a, dom)
    ensures HasSync(RelaxAll(t, dom)) == HasSync(t)
  {
    if t != [] {
      RelaxParts(t[1..], dom);
    }
  }

  lemma {:induction false} CoversRelax(f: seq<Access>, t: seq<Access>, dom: DomMap)
    requires Covers(f, t)
    ensures Covers(RelaxAll(f, dom), RelaxAll(t, dom))
  {
    RelaxParts(f, dom);
    RelaxParts(t, dom);
  }

  lemma {:induction false} CoversSelf(f: seq<Access>)
    ensures Covers(f, f)
  {
  }

  lemma {:induction false} CoversGuarded(id: nat, f: seq<Access>, syncs: set<nat>, t: seq<Access>)
    requires Covers(f, t)
    ensures Covers(Guarded(StmtEntry(id, f), syncs), Barrier(id, syncs) + t)
  {
    CoversAppend(Barrier(id, syncs), Barrier(id, syncs), f, t);
    assert [] + f == f && [] + t == t;
  }

  lemma {:induction false} ExposedCovers(f: seq<Access>, t: seq<Access>)
    requires Covers(f, t)
    ensures Covers(Exposed(f), t)
  {
    ExposedSame(f);
  }

  lemma {:induction false} FlattenAppend(ts: seq<seq<Access>>, us: seq<seq<Access>>)
    ensures Flatten(ts + us) == Flatten(ts) + Flatten(us)
  {
    if ts == [] {
      assert ts + us == us;
    } else {
      assert (ts + us)[1..] == ts[1..] + us;
      FlattenAppend(ts[1..], us);
    }
  }

  /** A run of a described body is covered by what its entries say. */
  lemma {:induction false} RunCovered(body: seq<Stmt>, enabled: set<nat>, skip: set<nat>, es: seq<StmtEntry>, syncs: set<nat>, more: set<nat>, run: seq<seq<Access>>)
    requires Describes(body, enabled, skip, es, syncs) && syncs <= more && IsRun(body, enabled, skip, more, run)
    ensures Covers(Flatten(GuardedAll(es, syncs)), Flatten(run))
  {
    forall k | 0 <= k < |es| ensures Covers(GuardedAll(es, syncs)[k], GuardedAll(es, more)[k]) {
      GuardedCovers(es[k], syncs, more);
    }
    AlignedPointwise(GuardedAll(es, syncs), GuardedAll(es, more));
    AlignedFlatten(GuardedAll(es, syncs), GuardedAll(es, more));
    AlignedFlatten(GuardedAll(es, more), run);
    CoversTransitive(Flatten(GuardedAll(es, syncs)), Flatten(GuardedAll(es, more)), Flatten(run));
  }

  lemma {:induction false} RunsCovered(body: seq<Stmt>, enabled: set<nat>, skip: set<nat>, es: seq<StmtEntry>, syncs: set<nat>, more: set<nat>,
                                       runs: seq<seq<seq<Access>>>)
    requires Describes(body, enabled, skip, es, syncs) && syncs <= more
    requires runs != [] && forall r <- runs :: IsRun(body, enabled, skip, more, r)
    ensures Covers(Flatten(GuardedAll(es, syncs)), Flatten(Join(runs)))
  {
    RunCovered(body, enabled, skip, es, syncs, more, runs[0]);
    if |runs| == 1 {
      assert Join(runs[1..]) == [];
      assert Join(runs) == runs[0];
    } else {
      RunsCovered(body, enabled, skip, es, syncs, more, runs[1..]);
      FlattenAppend(runs[0], Join(runs[1..]));
      CoversRepeat(Flatten(GuardedAll(es, syncs)), Flatten(runs[0]), Flatten(Join(runs[1..])));
    }
  }

  lemma {:induction false} RunsAligned(body: seq<Stmt>, enabled: set<nat>, skip: set<nat>, es: seq<StmtEntry>, syncs: set<nat>, more: set<nat>,
                                       runs: seq<seq<seq<Access>>>)
    requires Describes(body, enabled, skip, es, syncs) && syncs <= more
    requires forall r <- runs :: IsRun(body, enabled, skip, more, r)
    ensures Aligned(Repeat(GuardedAll(es, more), |runs|), Join(runs))
  {
    if runs != [] {
      RunsAligned(body, enabled, skip, es, syncs, more, runs[1..]);
      AlignedAppend(GuardedAll(es, more), runs[0], Repeat(GuardedAll(es, more), |runs| - 1), Join(runs[1..]));
    }
  }

  /** Two simulated rotations make every number of iterations safe. */
  lemma {:induction false} LoopSafe(s: Stmt, enabled: set<nat>, skip: set<nat>, es: seq<StmtEntry>, syncs: set<nat>)
    requires s.For? && Describes(s.body, enabled, skip, es, syncs) && BodyScopesSafe(s.body, enabled, skip, syncs)
    requires Safe({}, GuardedAll(es + es, syncs))
    ensures ScopesSafe(s, enabled, skip, syncs)
  {
    forall more: set<nat>, runs: seq<seq<seq<Access>>> |
      syncs <= more && (forall r <- runs :: IsRun(s.body, enabled, skip, more, r))
      ensures Safe({}, Join(runs))
    {
      SafeMoreSyncs(es + es, syncs, more);
      assert GuardedAll(es + es, more) == GuardedAll(es, more) + GuardedAll(es, more);
      TwoRotations(GuardedAll(es, more), |runs|);
      RunsAligned(s.body, enabled, skip, es, syncs, more, runs);
      AlignedSafe({}, Repeat(GuardedAll(es, more), |runs|), {}, Join(runs));
    }
  }

  lemma {:induction false} BodySafe(body: seq<Stmt>, enabled: set<nat>, skip: set<nat>, es: seq<StmtEntry>, syncs: set<nat>)
    requires Describes(body, enabled, skip, es, syncs) && Safe({}, GuardedAll(es, syncs))
    ensures RunsSafe(body, enabled, skip, syncs)
  {
    forall more: set<nat>, run: seq<seq<Access>> | syncs <= more && IsRun(body, enabled, skip, more, run) ensures Safe({}, run) {
      SafeMoreSyncs(es, syncs, more);
      AlignedSafe({}, GuardedAll(es, more), {}, run);
    }
  }

  /** The entry that a loop leaves for its parent covers every execution of the loop, also if it does not run at all and holds
      no barrier. */
  lemma {:induction false} LoopEntryCovers(s: Stmt, enabled: set<nat>, skip: set<nat>, es: seq<StmtEntry>, syncs: set<nat>, more: set<nat>, t: seq<Access>)
    requires s.For? && Describes(s.body, enabled, skip, es, syncs) && syncs <= more && IsTrace(s, enabled, skip, more, t)
    requires s.id in skip ==> !HasSync(Flatten(GuardedAll(es, syncs)))
    ensures Covers(Guarded(StmtEntry(s.id, RelaxAll(Exposed(Flatten(GuardedAll(es, syncs))), LoopDomain(s))), more), t)
  {
    var runs: seq<seq<seq<Access>>> :|
      && (runs != [] || s.id in skip) && (forall r <- runs :: IsRun(s.body, enabled, skip, more, r))
      && t == Barrier(s.id, more) + RelaxAll(Flatten(Join(runs)), LoopDomain(s));
    var f := Flatten(GuardedAll(es, syncs));
    if runs == [] {
      SkippedRunCovered(f);
      assert Join(runs) == [] && Flatten([]) == [];
    } else {
      RunsCovered(s.body, enabled, skip, es, syncs, more, runs);
    }
    ExposedCovers(f, Flatten(Join(runs)));
    CoversRelax(Exposed(f), Flatten(Join(runs)), LoopDomain(s));
    CoversGuarded(s.id, RelaxAll(Exposed(f), LoopDomain(s)), more, RelaxAll(Flatten(Join(runs)), LoopDomain(s)));
  }

  lemma {:induction false} InertSilent(body: seq<Stmt>, enabled: set<nat>, skip: set<nat>, syncs: set<nat>, run: seq<seq<Access>>)
    requires InertBody(body, enabled) && IsRun(body, enabled, skip, syncs, run)
    ensures Silent(Flatten(run))
    decreases body, |body|
  {
    if body != [] {
      assert Inert(body[0], enabled) && IsTrace(body[0], enabled, skip, syncs, run[0]);
      InertTraceSilent(body[0], enabled, skip, syncs, run[0]);
      InertSilentRest(body, enabled, skip, syncs, run);
      CoversAppend([], run[0], [], Flatten(run[1..]));
    }
  }

  lemma {:induction false} InertSilentRest(body: seq<Stmt>, enabled: set<nat>, skip: set<nat>, syncs: set<nat>, run: seq<seq<Access>>)
    requires InertBody(body, enabled) && IsRun(body, enabled, skip, syncs, run) && body != []
    ensures Silent(Flatten(run[1..]))
    decreases body, 0
  {
    assert forall k :: 0 <= k < |body| - 1 ==> body[1..][k] == body[k + 1] && run[1..][k] == run[k + 1];
    InertSilent(body[1..], enabled, skip, syncs, run[1..]);
  }

  lemma {:induction false} InertTraceSilent(s: Stmt, enabled: set<nat>, skip: set<nat>, syncs: set<nat>, t: seq<Access>)
    requires Inert(s, enabled) && IsTrace(s, enabled, skip, syncs, t)
    ensures Silent(t)
    decreases s, 0
  {
    match s
    case For(id, _, _, _, body) =>
      var runs: seq<seq<seq<Access>>> :|
        && (runs != [] || id in skip) && (forall r <- runs :: IsRun(body, enabled, skip, syncs, r))
        && t == Barrier(id, syncs) + RelaxAll(Flatten(Join(runs)), LoopDomain(s));
      InertRunsSilent(body, enabled, skip, syncs, runs);
      BehindBarrier(id, syncs, Flatten(Join(runs)), LoopDomain(s));
    case IfThenElse(id, _, thenCase, elseCase) =>
      var run: seq<seq<Access>> :|
        && (IsRun(thenCase, enabled, skip, syncs, run) || IsRun(elseCase, enabled, skip, syncs, run))
        && t == Barrier(id, syncs) + Flatten(run);
      InertSilent(if IsRun(thenCase, enabled, skip, syncs, run) then thenCase else elseCase, enabled, skip, syncs, run);
      BehindBarrier(id, syncs, Flatten(run), map[]);
    case _ =>
      OpsWait(s.ops, enabled);
      BehindBarrier(s.id, syncs, [], map[]);
  }

  lemma {:induction false} BehindBarrier(id: nat, syncs: set<nat>, t: seq<Access>, dom: DomMap)
    requires Silent(t)
    ensures Silent(Barrier(id, syncs) + t) && Silent(Barrier(id, syncs) + RelaxAll(t, dom))
  {
    RelaxParts(t, dom);
    CoversAppend([], Barrier(id, syncs), [], t);
    CoversAppend([], Barrier(id, syncs), [], RelaxAll(t, dom));
  }

  lemma {:induction false} InertRunsSilent(body: seq<Stmt>, enabled: set<nat>, skip: set<nat>, syncs: set<nat>, runs: seq<seq<seq<Access>>>)
    requires InertBody(body, enabled) && forall r <- runs :: IsRun(body, enabled, skip, syncs, r)
    ensures Silent(Flatten(Join(runs)))
    decreases body, |body| + 1, |runs|
  {
    if runs != [] {
      InertSilent(body, enabled, skip, syncs, runs[0]);
      InertRunsSilent(body, enabled, skip, syncs, runs[1..]);
      FlattenAppend(runs[0], Join(runs[1..]));
      CoversAppend([], Flatten(runs[0]), [], Flatten(Join(runs[1..])));
    }
  }

  /** The entry that a conditional leaves covers both the branch and its absence. */
  lemma {:induction false} IfEntryCovers(s: Stmt, enabled: set<nat>, skip: set<nat>, es: seq<StmtEntry>, syncs: set<nat>, more: set<nat>, t: seq<Access>)
    requires s.IfThenElse? && Supported(s, enabled) && IsTrace(s, enabled, skip, more, t)
    requires Describes(s.thenCase, enabled, skip, es, syncs) && syncs <= more && !HasSync(Flatten(GuardedAll(es, syncs)))
    ensures Covers(Guarded(StmtEntry(s.id, Exposed(Flatten(GuardedAll(es, syncs)))), more), t)
  {
    var run: seq<seq<Access>> :|
      && (IsRun(s.thenCase, enabled, skip, more, run) || IsRun(s.elseCase, enabled, skip, more, run))
      && t == Barrier(s.id, more) + Flatten(run);
    var f := Flatten(GuardedAll(es, syncs));
    if IsRun(s.thenCase, enabled, skip, more, run) {
      RunCovered(s.thenCase, enabled, skip, es, syncs, more, run);
    } else {
      InertSilent(s.elseCase, enabled, skip, more, run);
    }
    ExposedCovers(f, Flatten(run));
    CoversGuarded(s.id, Exposed(f), more, Flatten(run));
  }

  /** One statement whose entry covers all its executions; the entry is left out if it is empty. */
  lemma {:induction false} DescribesOne(s: Stmt, enabled: set<nat>, skip: set<nat>, f: seq<Access>, syncs: set<nat>, kept: bool)
    requires forall more: set<nat>, t: seq<Access> | syncs <= more && IsTrace(s, enabled, skip, more, t) ::
      Covers(Guarded(StmtEntry(s.id, f), more), t)
    requires !kept ==> f == []
    ensures Describes([s], enabled, skip, if kept then [StmtEntry(s.id, f)] else [], syncs)
  {
    var es := if kept then [StmtEntry(s.id, f)] else [];
    forall more: set<nat>, run: seq<seq<Access>> | syncs <= more && IsRun([s], enabled, skip, more, run)
      ensures Aligned(GuardedAll(es, more), run)
    {
      assert IsTrace([s][0], enabled, skip, more, run[0]);
      assert run == [run[0]] && run[1..] == [];
      assert Covers(Guarded(StmtEntry(s.id, f), more), run[0]);
      if kept {
        assert GuardedAll(es, more)[1..] == [];
      } else {
        assert Head([Sync]) == Tail([Sync]) == {};
      }
    }
  }

  lemma {:induction false} LeafEntryCovers(s: Stmt, enabled: set<nat>, skip: set<nat>, f: seq<Access>, syncs: set<nat>)
    requires s.Store? ==> f == StoreAccess(s.buffer, s.index, s.ops, enabled)
    requires s.Evaluate? ==> f == OpsAccess(s.ops, enabled)
    requires s.Store? || s.Evaluate?
    ensures forall more: set<nat>, t: seq<Access> | syncs <= more && IsTrace(s, enabled, skip, more, t) ::
      Covers(Guarded(StmtEntry(s.id, f), more), t)
  {
    forall more: set<nat>, t: seq<Access> | syncs <= more && IsTrace(s, enabled, skip, more, t)
      ensures Covers(Guarded(StmtEntry(s.id, f), more), t)
    {
      CoversSelf(f);
      CoversGuarded(s.id, f, more, f);
    }
  }

  lemma {:induction false} DescribesAppend(body: seq<Stmt>, enabled: set<nat>, skip: set<nat>, es: seq<StmtEntry>, s: Stmt, fs: seq<StmtEntry>, syncs: set<nat>)
    requires Describes(body, enabled, skip, es, syncs) && Describes([s], enabled, skip, fs, syncs)
    ensures Describes(body + [s], enabled, skip, es + fs, syncs)
  {
    hide IsTrace, Aligned, Guarded;
    forall more: set<nat>, run: seq<seq<Access>> | syncs <= more && IsRun(body + [s], enabled, skip, more, run)
      ensures Aligned(GuardedAll(es + fs, more), run)
    {
      var n := |body|;
      assert forall k :: 0 <= k < n ==> (body + [s])[k] == body[k] && run[..n][k] == run[k];
      assert (body + [s])[n] == s;
      assert IsRun(body, enabled, skip, more, run[..n]) && IsRun([s], enabled, skip, more, [run[n]]);
      assert run == run[..n] + [run[n]];
      AlignedAppend(GuardedAll(es, more), run[..n], GuardedAll(fs, more), [run[n]]);
      assert GuardedAll(es + fs, more) == GuardedAll(es, more) + GuardedAll(fs, more);
    }
  }

  lemma {:induction false} RunsSafeMore(body: seq<Stmt>, enabled: set<nat>, skip: set<nat>, syncs: set<nat>, syncs1: set<nat>)
    requires syncs <= syncs1
    ensures LoopRunsSafe(body, enabled, skip, syncs) ==> LoopRunsSafe(body, enabled, skip, syncs1)
    ensures RunsSafe(body, enabled, skip, syncs) ==> RunsSafe(body, enabled, skip, syncs1)
  {
    assert forall more: set<nat> | syncs1 <= more :: syncs <= more;
  }

  lemma {:induction false} ScopesSafeMore(s: Stmt, enabled: set<nat>, skip: set<nat>, syncs: set<nat>, more: set<nat>)
    requires ScopesSafe(s, enabled, skip, syncs) && syncs <= more
    ensures ScopesSafe(s, enabled, skip, more)
    decreases s, 1
  {
    match s
    case For(_, _, _, _, body) =>
      BodyScopesSafeMore(body, enabled, skip, syncs, more);
      RunsSafeMore(body, enabled, skip, syncs, more);
    case IfThenElse(_, _, thenCase, _) =>
      BodyScopesSafeMore(thenCase, enabled, skip, syncs, more);
      RunsSafeMore(thenCase, enabled, skip, syncs, more);
    case _ =>
  }

  lemma {:induction false} BodyScopesSafeMore(body: seq<Stmt>, enabled: set<nat>, skip: set<nat>, syncs: set<nat>, more: set<nat>)
    requires BodyScopesSafe(body, enabled, skip, syncs) && syncs <= more
    ensures BodyScopesSafe(body, enabled, skip, more)
    decreases body, 0
  {
    forall k | 0 <= k < |body| ensures ScopesSafe(body[k], enabled, skip, more) {
      ScopesSafeMore(body[k], enabled, skip, syncs, more);
    }
  }

  ghost predicate NoSyncs(es: seq<StmtEntry>) {
    forall e <- es :: !HasSync(e.access)
  }

  lemma {:induction false} NoSyncsFlatten(es: seq<StmtEntry>, syncs: set<nat>)
    requires NoSyncs(es) && forall e <- es :: e.stmt !in syncs
    ensures !HasSync(Flatten(GuardedAll(es, syncs)))
  {
    if es != [] {
      NoSyncsFlatten(es[1..], syncs);
      assert GuardedAll(es, syncs)[1..] == GuardedAll(es[1..], syncs);
      assert !HasSync(es[0].access);
    }
  }

  lemma {:induction false} FlattenSnoc(ts: seq<seq<Access>>, t: seq<Access>)
    ensures Flatten(ts + [t]) == Flatten(ts) + t
  {
    FlattenAppend(ts, [t]);
    assert Flatten([t]) == t + Flatten([]) == t;
  }

  /** head and tail hold the exposed part of the events f seen so far. */
  ghost predicate Collected(f: seq<Access>, count: nat, head: seq<Access>, tail: seq<Access>) {
    if count == 0 then !HasSync(f) && head == f && tail == []
    else HasSync(f) && head == ToFirstSync(f) && tail == AfterLastSync(f)
  }

  lemma {:induction false} CollectedSnoc(f: seq<Access>, count: nat, head: seq<Access>, tail: seq<Access>, a: Access)
    requires Collected(f, count, head, tail)
    ensures a == Sync ==> Collected(f + [a], count + 1, if count == 0 then head + [a] else head, [])
    ensures a != Sync ==> Collected(f + [a], count, if count == 0 then head + [a] else head, if count == 0 then tail else tail + [a])
  {
    ExposedSnoc(f, a);
  }

  /** Barriers are kept in the head until the first one; a later one empties the tail. */
  method CollectRun(ghost f: seq<Access>, access: seq<Access>, count0: nat, head0: seq<Access>, tail0: seq<Access>)
    returns (count: nat, head: seq<Access>, tail: seq<Access>)
    requires Collected(f, count0, head0, tail0)
    ensures Collected(f + access, count, head, tail)
  {
    count, head, tail := count0, head0, tail0;
    assert f + access[..0] == f;
    for k := 0 to |access|
      invariant Collected(f + access[..k], count, head, tail)
    {
      var acc := access[k];
      CollectedSnoc(f + access[..k], count, head, tail, acc);
      assert f + access[..k + 1] == f + access[..k] + [acc];
      if acc == Sync {
        if count != 0 {
          tail := [];
        } else {
          head := head + [acc];
        }
        count := count + 1;
      } else if count != 0 {
        tail := tail + [acc];
      } else {
        head := head + [acc];
      }
    }
    assert access[..|access|] == access;
  }

  /** The stack of scopes with es added to the innermost one. */
  function Pushed(scope: seq<seq<StmtEntry>>, es: seq<StmtEntry>): seq<seq<StmtEntry>>
    requires scope != []
  {
    scope[..|scope| - 1] + [scope[|scope| - 1] + es]
  }

  lemma {:induction false} PushedTwice(scope: seq<seq<StmtEntry>>, es: seq<StmtEntry>, fs: seq<StmtEntry>)
    requires scope != []
    ensures Pushed(scope, []) == scope
    ensures Pushed(Pushed(scope, es), fs) == Pushed(scope, es + fs)
  {
    var last := scope[|scope| - 1];
    assert last + [] == last;
    assert (last + es) + fs == last + (es + fs);
  }

  /** The entries describe the statements, and the barriers make every inner scope safe, also if the loops of skip may be
      skipped and hold no barrier. */
  ghost predicate Right(body: seq<Stmt>, enabled: set<nat>, skip: set<nat>, es: seq<StmtEntry>, syncs: set<nat>) {
    SupportedBody(body, enabled) && MaySkipBody(body, enabled, skip, syncs) ==>
      Describes(body, enabled, skip, es, syncs) && BodyScopesSafe(body, enabled, skip, syncs)
  }

  /** What a visit leaves behind. Where no barrier was found or inserted, none is in the entries. */
  ghost predicate Planned(body: seq<Stmt>, enabled: set<nat>, es: seq<StmtEntry>, syncs: set<nat>, conditional: bool) {
    && (forall skip: set<nat> :: Right(body, enabled, skip, es, syncs))
    && Stmts(es) <= IdsOfBody(body)
    && (NoBarrierBody(body, enabled) && (conditional || IdsOfBody(body) !! syncs) ==> NoSyncs(es))
  }

  lemma {:induction false} IdsOfSnoc(body: seq<Stmt>, s: Stmt)
    ensures IdsOfBody(body + [s]) == IdsOfBody(body) + IdsOf(s) && IdsOfBody([s]) == IdsOf(s)
  {
    var both := body + [s];
    assert (forall k :: 0 <= k < |body| ==> both[k] == body[k]) && both[|body|] == s && [s][0] == s;
  }

  lemma {:induction false} PlannedSnoc(body: seq<Stmt>, enabled: set<nat>, es: seq<StmtEntry>, syncs0: set<nat>, conditional: bool,
                    s: Stmt, fs: seq<StmtEntry>, syncs: set<nat>)
    requires Planned(body, enabled, es, syncs0, conditional) && syncs0 <= syncs
    requires Planned([s], enabled, fs, syncs, conditional)
    ensures Planned(body + [s], enabled, es + fs, syncs, conditional)
  {
    hide Right, IdsOfBody;
    var both := body + [s];
    assert (forall k :: 0 <= k < |body| ==> both[k] == body[k]) && both[|body|] == s && [s][0] == s;
    IdsOfSnoc(body, s);
    forall skip: set<nat> ensures Right(both, enabled, skip, es + fs, syncs) {
      RightSnoc(body, enabled, skip, es, syncs0, s, fs, syncs);
    }
    if NoBarrierBody(both, enabled) {
      assert NoBarrierBody(body, enabled) && NoBarrierBody([s], enabled);
    }
  }

  lemma {:induction false} PlannedNothing(enabled: set<nat>, syncs: set<nat>, conditional: bool)
    ensures Planned([], enabled, [], syncs, conditional) && PlanBody([], enabled, conditional, syncs) == Some(Entries([], syncs))
  {
  }

  lemma {:induction false} RightSnoc(body: seq<Stmt>, enabled: set<nat>, skip: set<nat>, es: seq<StmtEntry>, syncs0: set<nat>,
                    s: Stmt, fs: seq<StmtEntry>, syncs: set<nat>)
    requires Right(body, enabled, skip, es, syncs0) && syncs0 <= syncs && Right([s], enabled, skip, fs, syncs)
    ensures Right(body + [s], enabled, skip, es + fs, syncs)
  {
    var both := body + [s];
    assert (forall k :: 0 <= k < |body| ==> both[k] == body[k]) && both[|body|] == s && [s][0] == s;
    if SupportedBody(both, enabled) && MaySkipBody(both, enabled, skip, syncs) {
      assert SupportedBody(body, enabled) && SupportedBody([s], enabled);
      assert MaySkipBody(body, enabled, skip, syncs) && MaySkipBody([s], enabled, skip, syncs);
      MaySkipBodyLess(body, enabled, skip, syncs0, syncs);
      assert Describes(body, enabled, skip, es, syncs);
      DescribesAppend(body, enabled, skip, es, s, fs, syncs);
      BodyScopesSafeMore(body, enabled, skip, syncs0, syncs);
    }
  }

  lemma {:induction false} RightOne(s: Stmt, enabled: set<nat>, skip: set<nat>, f: seq<Access>, syncs: set<nat>, kept: bool)
    requires !kept ==> f == []
    requires Supported(s, enabled) && MaySkip(s, enabled, skip, syncs) ==> ScopesSafe(s, enabled, skip, syncs)
    requires Supported(s, enabled) && MaySkip(s, enabled, skip, syncs) ==>
      forall more: set<nat>, t: seq<Access> | syncs <= more && IsTrace(s, enabled, skip, more, t) ::
        Covers(Guarded(StmtEntry(s.id, f), more), t)
    ensures Right([s], enabled, skip, if kept then [StmtEntry(s.id, f)] else [], syncs)
  {
    assert [s][0] == s;
    if SupportedBody([s], enabled) && MaySkipBody([s], enabled, skip, syncs) {
      DescribesOne(s, enabled, skip, f, syncs, kept);
    }
  }

  lemma {:induction false} PlannedOne(s: Stmt, enabled: set<nat>, f: seq<Access>, syncs: set<nat>, conditional: bool, es: seq<StmtEntry>)
    requires es == [StmtEntry(s.id, f)] || es == []
    requires forall skip: set<nat> :: Right([s], enabled, skip, es, syncs)
    requires NoBarrier(s, enabled) && (conditional || IdsOf(s) !! syncs) ==> !HasSync(f)
    ensures Planned([s], enabled, es, syncs, conditional)
  {
    hide Right, IdsOf, IdsOfBody;
    assert [s][0] == s;
    IdsOfSnoc([], s);
    IdOf(s);
  }

  lemma {:induction false} IdOf(s: Stmt)
    ensures s.id in IdsOf(s)
  {
  }

  lemma {:induction false} PlannedLeaf(s: Stmt, enabled: set<nat>, f: seq<Access>, syncs: set<nat>, conditional: bool, kept: bool)
    requires s.Store? ==> f == StoreAccess(s.buffer, s.index, s.ops, enabled) && kept
    requires s.Evaluate? ==> f == OpsAccess(s.ops, enabled) && (kept <==> f != [])
    requires s.Store? || s.Evaluate?
    ensures Planned([s], enabled, if kept then [StmtEntry(s.id, f)] else [], syncs, conditional)
  {
    var es := if kept then [StmtEntry(s.id, f)] else [];
    forall skip: set<nat> ensures Right([s], enabled, skip, es, syncs) {
      LeafEntryCovers(s, enabled, skip, f, syncs);
      RightOne(s, enabled, skip, f, syncs, kept);
    }
    OpsWait(s.ops, enabled);
    if s.Store? {
      HeadAppend(StoreAccess(s.buffer, s.index, [], enabled), OpsAccess(s.ops, enabled));
    }
    PlannedOne(s, enabled, f, syncs, conditional, es);
  }

  lemma {:induction false} PlannedLoop(s: Stmt, enabled: set<nat>, es: seq<StmtEntry>, syncs0: set<nat>, syncs: set<nat>, conditional: bool, f: seq<Access>)
    requires s.For? && Planned(s.body, enabled, es, syncs0, conditional) && syncs0 <= syncs
    requires Safe({}, GuardedAll(es + es, syncs))
    requires conditional ==> forall e <- es :: e.stmt !in syncs
    requires f == RelaxAll(Exposed(Flatten(GuardedAll(es, syncs))), LoopDomain(s))
    ensures Planned([s], enabled, if f != [] then [StmtEntry(s.id, f)] else [], syncs, conditional)
  {
    if NoBarrierBody(s.body, enabled) && (conditional || IdsOfBody(s.body) !! syncs) {
      assert forall e <- es :: e.stmt in Stmts(es);
      NoSyncsFlatten(es, syncs);
      RelaxParts(Exposed(Flatten(GuardedAll(es, syncs))), LoopDomain(s));
      ExposedSame(Flatten(GuardedAll(es, syncs)));
    }
    var fs := if f != [] then [StmtEntry(s.id, f)] else [];
    forall skip: set<nat> ensures Right([s], enabled, skip, fs, syncs) {
      RightLoop(s, enabled, skip, es, syncs0, syncs, f);
    }
    PlannedOne(s, enabled, f, syncs, conditional, fs);
  }

  lemma {:induction false} RightLoop(s: Stmt, enabled: set<nat>, skip: set<nat>, es: seq<StmtEntry>, syncs0: set<nat>, syncs: set<nat>, f: seq<Access>)
    requires s.For? && Right(s.body, enabled, skip, es, syncs0) && syncs0 <= syncs
    requires Safe({}, GuardedAll(es + es, syncs))
    requires NoBarrierBody(s.body, enabled) && IdsOfBody(s.body) !! syncs ==> !HasSync(Flatten(GuardedAll(es, syncs)))
    requires f == RelaxAll(Exposed(Flatten(GuardedAll(es, syncs))), LoopDomain(s))
    ensures Right([s], enabled, skip, if f != [] then [StmtEntry(s.id, f)] else [], syncs)
  {
    if Supported(s, enabled) && MaySkip(s, enabled, skip, syncs) {
      MaySkipBodyLess(s.body, enabled, skip, syncs0, syncs);
      BodyScopesSafeMore(s.body, enabled, skip, syncs0, syncs);
      assert Describes(s.body, enabled, skip, es, syncs);
      LoopSafe(s, enabled, skip, es, syncs);
      forall more: set<nat>, t: seq<Access> | syncs <= more && IsTrace(s, enabled, skip, more, t)
        ensures Covers(Guarded(StmtEntry(s.id, f), more), t)
      {
        LoopEntryCovers(s, enabled, skip, es, syncs, more, t);
      }
    }
    RightOne(s, enabled, skip, f, syncs, f != []);
  }

  lemma {:induction false} PlannedIf(s: Stmt, enabled: set<nat>, es: seq<StmtEntry>, syncs: set<nat>, conditional: bool, f: seq<Access>)
    requires s.IfThenElse? && Planned(s.thenCase, enabled, es, syncs, true)
    requires Safe({}, GuardedAll(es, syncs)) && forall e <- es :: e.stmt !in syncs
    requires f == Exposed(Flatten(GuardedAll(es, syncs)))
    ensures Planned([s], enabled, [StmtEntry(s.id, f)], syncs, conditional)
  {
    if NoBarrierBody(s.thenCase, enabled) {
      NoSyncsFlatten(es, syncs);
      ExposedSame(Flatten(GuardedAll(es, syncs)));
    }
    var fs := [StmtEntry(s.id, f)];
    forall skip: set<nat> ensures Right([s], enabled, skip, fs, syncs) {
      RightIf(s, enabled, skip, es, syncs, f);
    }
    PlannedOne(s, enabled, f, syncs, conditional, fs);
  }

  lemma {:induction false} RightIf(s: Stmt, enabled: set<nat>, skip: set<nat>, es: seq<StmtEntry>, syncs: set<nat>, f: seq<Access>)
    requires s.IfThenElse? && Right(s.thenCase, enabled, skip, es, syncs)
    requires Safe({}, GuardedAll(es, syncs))
    requires NoBarrierBody(s.thenCase, enabled) ==> !HasSync(Flatten(GuardedAll(es, syncs)))
    requires f == Exposed(Flatten(GuardedAll(es, syncs)))
    ensures Right([s], enabled, skip, [StmtEntry(s.id, f)], syncs)
  {
    if Supported(s, enabled) && MaySkip(s, enabled, skip, syncs) {
      BodySafe(s.thenCase, enabled, skip, es, syncs);
      forall more: set<nat>, t: seq<Access> | syncs <= more && IsTrace(s, enabled, skip, more, t)
        ensures Covers(Guarded(StmtEntry(s.id, f), more), t)
      {
        IfEntryCovers(s, enabled, skip, es, syncs, more, t);
      }
    }
    RightOne(s, enabled, skip, f, syncs, true);
  }

  /** A statement that has a barrier after its step shows that the sequence is not quiet. */
  lemma {:induction false} NotQuiet(es: seq<StmtEntry>, loop: bool, i: nat, syncs: set<nat>)
    requires i < |Rotations(es, loop)|
    requires Rotations(es, loop)[i].stmt in SimAll(Simulation({}, syncs), Rotations(es, loop)[..i + 1]).syncs
    ensures !Quiet(es, loop, syncs)
  {
    hide Safe, SimAll;
    var rotated := Rotations(es, loop);
    SimSafe(rotated[..i + 1], syncs);
    if Safe({}, GuardedAll(rotated, syncs)) {
      SafePrefix(rotated, i + 1, syncs);
      assert rotated[i] in es;
    }
  }

  lemma {:induction false} SimStepSyncs(m: Simulation, s: StmtEntry)
    ensures SimStep(m, s).syncs == m.syncs || SimStep(m, s).syncs == m.syncs + {s.stmt}
    ensures s.stmt in m.syncs ==> s.stmt in SimStep(m, s).syncs
  {
  }

  // ----- what the planner computes -----

  /** The exposed accesses of a scope, and the barriers after it was planned. */
  datatype Summary = Summary(access: seq<Access>, syncs: set<nat>)

  /** The entries of statements, and the barriers after they were visited. */
  datatype Entries = Entries(es: seq<StmtEntry>, syncs: set<nat>)

  /** A scope; None where a barrier is needed under a condition. */
  ghost function PlanScope(es: seq<StmtEntry>, loop: bool, conditional: bool, syncs: set<nat>): (r: Option<Summary>)
    ensures r.Some? && conditional ==> r.value.syncs == syncs && forall e <- es :: e.stmt !in syncs
    ensures r.Some? ==> syncs <= r.value.syncs && Safe({}, GuardedAll(Rotations(es, loop), r.value.syncs))
    ensures r.Some? ==> r.value.access == Exposed(Flatten(GuardedAll(es, r.value.syncs)))
    ensures !conditional ==> r.Some?
  {
    if conditional && !Quiet(es, loop, syncs) then None
    else
      var syncs1 := SimAll(Simulation({}, syncs), Rotations(es, loop)).syncs;
      SimSafe(Rotations(es, loop), syncs);
      Some(Summary(Exposed(Flatten(GuardedAll(es, syncs1))), syncs1))
  }

  /** A statement; None where a condition accesses synchronised storage, or a barrier is needed under a condition. */
  ghost function Plan(s: Stmt, enabled: set<nat>, conditional: bool, syncs: set<nat>): Option<Entries>
    decreases s, 1
  {
    match s
    case Store(id, b, index, ops) => Some(Entries([StmtEntry(id, StoreAccess(b, index, ops, enabled))], syncs))
    case Evaluate(id, ops) =>
      Some(Entries(if OpsAccess(ops, enabled) != [] then [StmtEntry(id, OpsAccess(ops, enabled))] else [], syncs))
    case For(id, _, _, _, body) =>
      var inner := PlanBody(body, enabled, conditional, syncs);
      if inner == None then None
      else
        var r := PlanScope(inner.value.es, true, conditional, inner.value.syncs);
        if r == None then None
        else
          var access := RelaxAll(r.value.access, LoopDomain(s));
          Some(Entries(if access != [] then [StmtEntry(id, access)] else [], r.value.syncs))
    case IfThenElse(id, condition, thenCase, _) =>
      if OpsAccess(condition, enabled) != [] then None
      else
        var inner := PlanBody(thenCase, enabled, true, syncs);
        if inner == None then None
        else
          var r := PlanScope(inner.value.es, false, true, inner.value.syncs);
          if r == None then None else Some(Entries([StmtEntry(id, r.value.access)], r.value.syncs))
  }

  ghost function PlanBody(body: seq<Stmt>, enabled: set<nat>, conditional: bool, syncs: set<nat>): Option<Entries>
    decreases body, 0
  {
    if |body| == 0 then Some(Entries([], syncs))
    else
      var before := PlanBody(body[..|body| - 1], enabled, conditional, syncs);
      if before == None then None
      else
        var last := Plan(body[|body| - 1], enabled, conditional, before.value.syncs);
        if last == None then None else Some(Entries(before.value.es + last.value.es, last.value.syncs))
  }

  lemma {:induction false} PlanLoop(s: Stmt, enabled: set<nat>, conditional: bool, syncs: set<nat>)
    requires s.For?
    ensures var inner := PlanBody(s.body, enabled, conditional, syncs);
      Plan(s, enabled, conditional, syncs) ==
        if inner == None then None
        else
          var r := PlanScope(inner.value.es, true, conditional, inner.value.syncs);
          if r == None then None
          else
            var access := RelaxAll(r.value.access, LoopDomain(s));
            Some(Entries(if access != [] then [StmtEntry(s.id, access)] else [], r.value.syncs))
  {
    hide PlanBody, PlanScope, RelaxAll, LoopDomain;
  }

  lemma {:induction false} PlanBodyStep(body: seq<Stmt>, k: nat, enabled: set<nat>, conditional: bool, syncs: set<nat>)
    requires k < |body|
    ensures var before := PlanBody(body[..k], enabled, conditional, syncs);
      PlanBody(body[..k + 1], enabled, conditional, syncs) ==
        if before == None then None
        else
          var last := Plan(body[k], enabled, conditional, before.value.syncs);
          if last == None then None else Some(Entries(before.value.es + last.value.es, last.value.syncs))
    ensures PlanBody(body[..k + 1], enabled, conditional, syncs) == None ==> PlanBody(body, enabled, conditional, syncs) == None
    decreases |body| - k
  {
    assert body[..k + 1][..k] == body[..k] && body[..k + 1][k] == body[k];
    if k + 1 == |body| {
      assert body[..k + 1] == body;
    } else {
      PlanBodyStep(body, k + 1, enabled, conditional, syncs);
    }
  }

  /** The barriers for a whole program. */
  ghost function PlanProgram(body: seq<Stmt>, enabled: set<nat>): Option<set<nat>> {
    var inner := PlanBody(body, enabled, false, {});
    if inner == None then None
    else
      var r := PlanScope(inner.value.es, false, false, inner.value.syncs);
      if r == None then None else Some(r.value.syncs)
  }

  class ThreadSyncPlanner {
    /** The buffers whose storage scope is being synchronised. */
    const enabled: set<nat>
    var syncsInserted: set<nat>
    var conditionCounter: nat
    /** The statement entries of the open scopes. */
    var scope: seq<seq<StmtEntry>>

    constructor (enabled: set<nat>)
      ensures this.enabled == enabled && syncsInserted == {} && conditionCounter == 0 && scope == [[]]
    {
      this.enabled := enabled;
      syncsInserted, conditionCounter, scope := {}, 0, [[]];
    }

    /** Simulates the statements, twice for a loop body, and inserts a barrier before each statement that needs one. Under a
        condition it fails exactly if one is needed, or was inserted before. */
    method InsertSyncs(es: seq<StmtEntry>, loop: bool) returns (ok: bool)
      modifies `syncsInserted
      ensures ok <==> conditionCounter == 0 || Quiet(es, loop, old(syncsInserted))
      ensures ok ==> syncsInserted == SimAll(Simulation({}, old(syncsInserted)), Rotations(es, loop)).syncs
      ensures ok ==> old(syncsInserted) <= syncsInserted <= old(syncsInserted) + Stmts(es)
      ensures ok ==> Safe({}, GuardedAll(Rotations(es, loop), syncsInserted))
      ensures ok ==> (syncsInserted == old(syncsInserted) <==> Safe({}, GuardedAll(Rotations(es, loop), old(syncsInserted))))
    {
      hide SimStep, Safe, Quiet, Head, Tail, Clear, GuardedAll;
      var rs: seq<Access>, ws: seq<Access> := [], [];
      ghost var rotated := Rotations(es, loop);
      var maxSeq := if loop then |es| * 2 else |es|;
      ghost var syncs0 := syncsInserted;
      for i := 0 to maxSeq
        invariant Sorted(rs, ws)
        invariant Simulation(Elements(rs) + Elements(ws), syncsInserted) == SimAll(Simulation({}, syncs0), rotated[..i])
        invariant conditionCounter > 0 ==> syncsInserted == syncs0 && forall e <- rotated[..i] :: e.stmt !in syncs0
      {
        var s := es[i % |es|];
        Wrap(i, |es|);
        assert s == rotated[i] && s in es && rotated[..i + 1] == rotated[..i] + [s] && rotated[..i + 1][..i] == rotated[..i];
        rs, ws := Step(s, rs, ws);
        SimStepSyncs(SimAll(Simulation({}, syncs0), rotated[..i]), s);
        if s.stmt in syncsInserted && conditionCounter != 0 {
          NotQuiet(es, loop, i, syncs0);
          return false;
        }
      }
      assert rotated[..maxSeq] == rotated;
      SimSafe(rotated, syncs0);
      QuietIs(es, loop, syncs0);
      return true;
    }

    /** Barriers in the sequence, and the accesses that are exposed to the parent scope. */
    method Summarize(es: seq<StmtEntry>, loop: bool) returns (r: Option<seq<Access>>)
      modifies `syncsInserted
      ensures r.Some? <==> PlanScope(es, loop, conditionCounter > 0, old(syncsInserted)).Some?
      ensures r.Some? ==> Summary(r.value, syncsInserted) == PlanScope(es, loop, conditionCounter > 0, old(syncsInserted)).value
    {
      var ok := InsertSyncs(es, loop);
      if !ok {
        return None;
      }
      var head, tail := Collect(es);
      return Some(head + tail);
    }

    /** The accesses before the first barrier and those after the last one. */
    method Collect(es: seq<StmtEntry>) returns (head: seq<Access>, tail: seq<Access>)
      ensures head + tail == Exposed(Flatten(GuardedAll(es, syncsInserted)))
    {
      var syncCount := 0;
      head, tail := [], [];
      ghost var f: seq<Access> := [];
      for i := 0 to |es|
        invariant f == Flatten(GuardedAll(es[..i], syncsInserted))
        invariant Collected(f, syncCount, head, tail)
      {
        assert es[..i + 1] == es[..i] + [es[i]];
        GuardedSnoc(es[..i], es[i], syncsInserted);
        FlattenSnoc(GuardedAll(es[..i], syncsInserted), Guarded(es[i], syncsInserted));
        if es[i].stmt in syncsInserted {
          syncCount, head, tail := CollectRun(f, [Sync], syncCount, head, tail);
          syncCount, head, tail := CollectRun(f + [Sync], es[i].access, syncCount, head, tail);
          assert (f + [Sync]) + es[i].access == f + Guarded(es[i], syncsInserted);
        } else {
          syncCount, head, tail := CollectRun(f, es[i].access, syncCount, head, tail);
        }
        f := f + Guarded(es[i], syncsInserted);
      }
      assert es[..|es|] == es;
    }

    /** One statement of the simulation. */
    method Step(s: StmtEntry, rs0: seq<Access>, ws0: seq<Access>) returns (rs: seq<Access>, ws: seq<Access>)
      requires Sorted(rs0, ws0)
      modifies `syncsInserted
      ensures Sorted(rs, ws)
      ensures Simulation(Elements(rs) + Elements(ws), syncsInserted) ==
        SimStep(Simulation(Elements(rs0) + Elements(ws0), old(syncsInserted)), s)
    {
      rs, ws := rs0, ws0;
      var sync := s.stmt in syncsInserted;
      if sync {
        rs, ws := [], [];
      }
      var found, r, w := NeedsSync(s.access, rs, ws);
      sync := sync || found;
      if sync {
        rs, ws := [], [];
      } else {
        rs, ws := r, w;
      }
      rs, ws := Record(s.access, rs, ws);
      if sync {
        syncsInserted := syncsInserted + {s.stmt};
      }
    }

    method OpenScope()
      modifies `scope
      ensures scope == old(scope) + [[]]
    {
      scope := scope + [[]];
    }

    method CloseScope() returns (es: seq<StmtEntry>)
      requires scope != []
      modifies `scope
      ensures scope == old(scope)[..|old(scope)| - 1] && es == old(scope)[|old(scope)| - 1]
    {
      es, scope := scope[|scope| - 1], scope[..|scope| - 1];
    }

    method Append(e: StmtEntry)
      requires scope != []
      modifies `scope
      ensures scope == Pushed(old(scope), [e])
    {
      scope := scope[..|scope| - 1] + [scope[|scope| - 1] + [e]];
    }

    /** Visits a statement; fails where a check of the source fails. */
    method Visit(s: Stmt) returns (ok: bool, ghost es: seq<StmtEntry>)
      requires scope != []
      modifies this
      ensures ok <==> Plan(s, enabled, old(conditionCounter) > 0, old(syncsInserted)).Some?
      ensures ok ==> Plan(s, enabled, old(conditionCounter) > 0, old(syncsInserted)) == Some(Entries(es, syncsInserted))
      ensures ok ==> old(syncsInserted) <= syncsInserted && conditionCounter == old(conditionCounter)
      ensures ok ==> scope == Pushed(old(scope), es) && Planned([s], enabled, es, syncsInserted, conditionCounter > 0)
      decreases s, 0
    {
      match s
      case Store(id, b, index, ops) =>
        ok, es := VisitStore(s);
      case Evaluate(id, ops) =>
        ok, es := VisitEvaluate(s);
      case For(id, loopVar, min, extent, body) =>
        ok, es := VisitFor(s);
      case IfThenElse(id, condition, thenCase, elseCase) =>
        ok, es := VisitIf(s);
    }

    method VisitStore(s: Stmt) returns (ok: bool, ghost es: seq<StmtEntry>)
      requires scope != [] && s.Store?
      modifies `scope
      ensures Some(Entries(es, syncsInserted)) == Plan(s, enabled, conditionCounter > 0, syncsInserted)
      ensures ok && scope == Pushed(old(scope), es) && Planned([s], enabled, es, syncsInserted, conditionCounter > 0)
    {
      var access := StoreAccess(s.buffer, s.index, s.ops, enabled);
      Append(StmtEntry(s.id, access));
      PlannedLeaf(s, enabled, access, syncsInserted, conditionCounter > 0, true);
      return true, [StmtEntry(s.id, access)];
    }

    method VisitEvaluate(s: Stmt) returns (ok: bool, ghost es: seq<StmtEntry>)
      requires scope != [] && s.Evaluate?
      modifies `scope
      ensures Some(Entries(es, syncsInserted)) == Plan(s, enabled, conditionCounter > 0, syncsInserted)
      ensures ok && scope == Pushed(old(scope), es) && Planned([s], enabled, es, syncsInserted, conditionCounter > 0)
    {
      var access := OpsAccess(s.ops, enabled);
      PushedTwice(scope, [], []);
      if access != [] {
        Append(StmtEntry(s.id, access));
      }
      PlannedLeaf(s, enabled, access, syncsInserted, conditionCounter > 0, access != []);
      return true, if access != [] then [StmtEntry(s.id, access)] else [];
    }

    /** The body is simulated twice; its summary, relaxed over the loop variable, stands for the loop. */
    method VisitFor(s: Stmt) returns (ok: bool, ghost es: seq<StmtEntry>)
      requires scope != [] && s.For?
      modifies this
      ensures ok <==> Plan(s, enabled, old(conditionCounter) > 0, old(syncsInserted)).Some?
      ensures ok ==> Plan(s, enabled, old(conditionCounter) > 0, old(syncsInserted)) == Some(Entries(es, syncsInserted))
      ensures ok ==> old(syncsInserted) <= syncsInserted && conditionCounter == old(conditionCounter)
      ensures ok ==> scope == Pushed(old(scope), es) && Planned([s], enabled, es, syncsInserted, conditionCounter > 0)
      decreases s.body, 1
    {
      hide Plan, PlanScope, PlanBody, Planned, Exposed, GuardedAll, IsTrace, Safe;
      PlanLoop(s, enabled, conditionCounter > 0, syncsInserted);
      es := [];
      OpenScope();
      ghost var inner;
      ok, inner := VisitBody(s.body);
      if !ok {
        return;
      }
      var entries := CloseScope();
      assert entries == [] + inner == inner;
      ghost var syncs0 := syncsInserted;
      var r := Summarize(entries, true);
      if r == None {
        return false, [];
      }
      var access := RelaxAll(r.value, LoopDomain(s));
      PlannedLoop(s, enabled, inner, syncs0, syncsInserted, conditionCounter > 0, access);
      es := if access != [] then [StmtEntry(s.id, access)] else [];
      PushedTwice(scope, [], []);
      if access != [] {
        Append(StmtEntry(s.id, access));
      }
    }

    /** The else branch, if any, gets an empty sequence of its own and is not visited. */
    method VisitIf(s: Stmt) returns (ok: bool, ghost es: seq<StmtEntry>)
      requires scope != [] && s.IfThenElse?
      modifies this
      ensures ok <==> Plan(s, enabled, old(conditionCounter) > 0, old(syncsInserted)).Some?
      ensures ok ==> Plan(s, enabled, old(conditionCounter) > 0, old(syncsInserted)) == Some(Entries(es, syncsInserted))
      ensures ok ==> old(syncsInserted) <= syncsInserted && conditionCounter == old(conditionCounter)
      ensures ok ==> scope == Pushed(old(scope), es) && Planned([s], enabled, es, syncsInserted, conditionCounter > 0)
      decreases s.thenCase, 1
    {
      hide PlanScope, PlanBody, Planned, Exposed, GuardedAll, IsTrace;
      es := [];
      conditionCounter := conditionCounter + 1;
      if OpsAccess(s.condition, enabled) != [] {
        return false, [];
      }
      OpenScope();
      ghost var inner;
      ok, inner := VisitBody(s.thenCase);
      if !ok {
        return;
      }
      var entries := CloseScope();
      assert entries == [] + inner == inner;
      var r := Summarize(entries, false);
      if r == None {
        return false, [];
      }
      PlannedIf(s, enabled, inner, syncsInserted, conditionCounter > 1, r.value);
      Append(StmtEntry(s.id, r.value));
      conditionCounter := conditionCounter - 1;
      return true, [StmtEntry(s.id, r.value)];
    }

    method VisitBody(body: seq<Stmt>) returns (ok: bool, ghost es: seq<StmtEntry>)
      requires scope != []
      modifies this
      ensures ok <==> PlanBody(body, enabled, old(conditionCounter) > 0, old(syncsInserted)).Some?
      ensures ok ==> PlanBody(body, enabled, old(conditionCounter) > 0, old(syncsInserted)) == Some(Entries(es, syncsInserted))
      ensures ok ==> old(syncsInserted) <= syncsInserted && conditionCounter == old(conditionCounter)
      ensures ok ==> scope == Pushed(old(scope), es) && Planned(body, enabled, es, syncsInserted, conditionCounter > 0)
      decreases body, 0
    {
      hide Planned, Plan, PlanBody;
      PlannedNothing(enabled, syncsInserted, conditionCounter > 0);
      es := [];
      PushedTwice(scope, [], []);
      for k := 0 to |body|
        invariant scope == Pushed(old(scope), es) && old(syncsInserted) <= syncsInserted
        invariant conditionCounter == old(conditionCounter)
        invariant PlanBody(body[..k], enabled, conditionCounter > 0, old(syncsInserted)) == Some(Entries(es, syncsInserted))
        invariant Planned(body[..k], enabled, es, syncsInserted, conditionCounter > 0)
      {
        ghost var fs, syncs0 := [], syncsInserted;
        PlanBodyStep(body, k, enabled, conditionCounter > 0, old(syncsInserted));
        ok, fs := Visit(body[k]);
        if !ok {
          return;
        }
        assert body[..k + 1] == body[..k] + [body[k]];
        PlannedSnoc(body[..k], enabled, es, syncs0, conditionCounter > 0, body[k], fs, syncsInserted);
        PushedTwice(old(scope), es, fs);
        es := es + fs;
      }
      assert body[..|body|] == body;
      return true, es;
    }
  }

  /** The barriers for the body of the outermost thread extent: no execution of it meets a hazard without a barrier
      in between, neither in the body itself nor in any loop or branch inside. Loops without barriers may be skipped. */
  method PlanSyncs(body: seq<Stmt>, enabled: set<nat>) returns (r: Option<set<nat>>)
    ensures r == PlanProgram(body, enabled)
    ensures r.Some? && SupportedBody(body, enabled) ==>
      forall skip: set<nat> | MaySkipBody(body, enabled, skip, r.value) ::
        BodyScopesSafe(body, enabled, skip, r.value) && RunsSafe(body, enabled, skip, r.value)
  {
    var planner := new ThreadSyncPlanner(enabled);
    var ok, es := planner.VisitBody(body);
    if !ok {
      return None;
    }
    ghost var syncs0 := planner.syncsInserted;
    var entries := planner.CloseScope();
    assert entries == [] + es == es;
    var access := planner.Summarize(entries, false);
    if access == None {
      return None;
    }
    forall skip: set<nat> | SupportedBody(body, enabled) && MaySkipBody(body, enabled, skip, planner.syncsInserted)
      ensures BodyScopesSafe(body, enabled, skip, planner.syncsInserted) && RunsSafe(body, enabled, skip, planner.syncsInserted)
    {
      assert Right(body, enabled, skip, es, syncs0);
      MaySkipBodyLess(body, enabled, skip, syncs0, planner.syncsInserted);
      BodyScopesSafeMore(body, enabled, skip, syncs0, planner.syncsInserted);
      assert Describes(body, enabled, skip, es, planner.syncsInserted);
      BodySafe(body, enabled, skip, es, planner.syncsInserted);
    }
    return Some(planner.syncsInserted);
  }
}
