/** The linear-scan planner that shares storage (src/pass/storage_rewrite.cc, FindFreeLocation to Free),
    and the whole pass. */
module StoragePlanner {
  import opened Wrappers
  import opened StorageIR
  import opened StorageRewrite

  /** Each buffer is allocated at one point, and touched there or later only. */
  ghost predicate AllocatedOnce(pattern: seq<StmtEntry>) {
    && (forall i, j, b: nat | 0 <= i < j < |pattern| && IsAlloc(pattern[i], b) :: !IsAlloc(pattern[j], b))
    && (forall i, b | 0 <= i < |pattern| && b in pattern[i].touched :: AllocBefore(pattern, i + 1, b))
  }

  /** b is touched at point i for the last time. */
  ghost predicate LastTouch(pattern: seq<StmtEntry>, i: nat, b: nat) {
    i < |pattern| && b in pattern[i].touched && !TouchedFrom(pattern, i + 1, b)
  }

  predicate Distinct(bs: seq<nat>) {
    forall i, j :: 0 <= i < j < |bs| ==> bs[i] != bs[j]
  }

  /** The simulated frees after each point. */
  type FreeLoc = map<nat, seq<nat>>

  ghost predicate FreesLastTouches(pattern: seq<StmtEntry>, freeLoc: FreeLoc, from: nat) {
    forall i :: from <= i < |pattern| ==> FreesAt(pattern, freeLoc, i)
  }

  ghost predicate FreesAt(pattern: seq<StmtEntry>, freeLoc: FreeLoc, i: nat) {
    && (i in freeLoc ==> Distinct(freeLoc[i]))
    && (forall b: nat :: LastTouch(pattern, i, b) <==> i in freeLoc && b in freeLoc[i])
  }

  /** A reverse scan: the first point at which a buffer is met is its last touch. */
  method FindFreeLocation(pattern: seq<StmtEntry>) returns (freeLoc: FreeLoc)
    ensures FreesLastTouches(pattern, freeLoc, 0)
    ensures forall k <- freeLoc :: k < |pattern|
  {
    freeLoc := map[];
    var touched: set<nat> := {};
    var i: nat := |pattern|;
    while i != 0
      invariant i <= |pattern|
      invariant FreesLastTouches(pattern, freeLoc, i)
      invariant forall k <- freeLoc :: i <= k < |pattern|
      invariant forall b: nat :: b in touched <==> TouchedFrom(pattern, i, b)
    {
      var s := pattern[i - 1].touched;
      ghost var freeLoc0 := freeLoc;
      var bs, touched1 := FirstMet(s, touched);
      if bs != [] {
        freeLoc := freeLoc[i - 1 := bs];
      }
      forall b: nat ensures b in touched1 <==> TouchedFrom(pattern, i - 1, b) {
      }
      touched := touched1;
      forall k | i <= k < |pattern| ensures FreesAt(pattern, freeLoc, k) {
        assert FreesAt(pattern, freeLoc0, k);
      }
      i := i - 1;
    }
  }

  /** The buffers of s that are not met before, each once, and all that are met then. */
  method FirstMet(s: seq<nat>, touched0: set<nat>) returns (bs: seq<nat>, touched: set<nat>)
    ensures Distinct(bs) && forall b: nat :: b in bs <==> b in s && b !in touched0
    ensures touched == touched0 + set b <- s
  {
    bs, touched := [], touched0;
    for k := 0 to |s|
      invariant Distinct(bs) && forall b: nat :: b in bs <==> b in s[..k] && b !in touched0
      invariant touched == touched0 + set b <- s[..k]
    {
      assert s[..k + 1] == s[..k] + [s[k]];
      if s[k] !in touched {
        touched := touched + {s[k]};
        bs := bs + [s[k]];
      }
    }
    assert s[..|s|] == s;
  }

  // ----- free lists -----

  /** An entry in the free map, under its size when it was freed. */
  datatype FreeSlot = FreeSlot(nbits: nat, entry: nat)

  predicate SortedSlots(slots: seq<FreeSlot>) {
    forall i, j :: 0 <= i < j < |slots| ==> slots[i].nbits <= slots[j].nbits
  }

  /** The first slot of at least n bits. */
  function LowerBound(slots: seq<FreeSlot>, n: nat): (i: nat)
    ensures i <= |slots| && (forall k :: 0 <= k < i ==> slots[k].nbits < n)
    ensures i < |slots| ==> slots[i].nbits >= n
  {
    if slots == [] || slots[0].nbits >= n then 0 else 1 + LowerBound(slots[1..], n)
  }

  function Entries(slots: seq<FreeSlot>): seq<nat> {
    seq(|slots|, i requires 0 <= i < |slots| => slots[i].entry)
  }

  function RemoveAt<T>(s: seq<T>, i: nat): seq<T>
    requires i < |s|
  {
    s[..i] + s[i + 1..]
  }

  function InsertAt<T>(s: seq<T>, i: nat, x: T): seq<T>
    requires i <= |s|
  {
    s[..i] + [x] + s[i..]
  }

  lemma {:induction false} InsertAtDistinct(s: seq<nat>, i: nat, x: nat)
    requires Distinct(s) && i <= |s| && x !in s
    ensures Distinct(InsertAt(s, i, x)) && forall y: nat :: y in InsertAt(s, i, x) <==> y == x || y in s
  {
    assert s == s[..i] + s[i..];
    assert InsertAt(s, i, x)[i] == x;
  }

  lemma {:induction false} InsertAtEntries(slots: seq<FreeSlot>, i: nat, slot: FreeSlot)
    requires i <= |slots|
    ensures Entries(InsertAt(slots, i, slot)) == InsertAt(Entries(slots), i, slot.entry)
  {
    assert forall j | 0 <= j <= |slots| :: InsertAt(slots, i, slot)[j].entry == InsertAt(Entries(slots), i, slot.entry)[j];
  }

  lemma {:induction false} InsertSorted(slots: seq<FreeSlot>, slot: FreeSlot)
    requires SortedSlots(slots)
    ensures SortedSlots(InsertAt(slots, LowerBound(slots, slot.nbits + 1), slot))
  {
  }

  lemma {:induction false} InsertAtPrefix(s: seq<nat>, t: seq<nat>, i: nat, x: nat)
    requires i <= |s|
    ensures InsertAt(s, i, x) + t == InsertAt(s + t, i, x)
  {
  }

  /** The number of elements of a constant allocation; 0 if it is not constant. */
  function ConstantSize(extents: seq<Extent>): nat {
    if extents == [] then 1
    else if extents[0].Const? then extents[0].size * ConstantSize(extents[1..])
    else 0
  }

  function ConstNbits(info: AllocInfo): nat {
    ConstantSize(info.extents) * info.bits * info.lanes
  }

  const MATCH_RANGE := 16

  /** The entry may hold an allocation with this scope, element type and place. */
  predicate Compatible(e: StorageEntry, attach: Option<nat>, info: AllocInfo) {
    e.attach == attach && e.rank == info.rank && e.elemType == info.elemType
  }

  /** Storage of this kind is never reused: registers, handles and small constant arrays. */
  predicate NotShared(rank: nat, isHandle: bool, nbits: nat) {
    rank > 1 || isHandle || 0 < nbits <= 32
  }

  predicate InMatchRange(nbits: nat, n: nat) {
    n / MATCH_RANGE <= nbits <= n * MATCH_RANGE
  }

  /** A free entry that the allocation may reuse: constant sizes within the match range, symbolic sizes any. */
  predicate Reusable(e: StorageEntry, attach: Option<nat>, info: AllocInfo) {
    && !NotShared(info.rank, info.isHandle, ConstNbits(info))
    && Compatible(e, attach, info)
    && (if ConstNbits(info) == 0 then e.constNbits == 0 else e.constNbits != 0 && InMatchRange(e.constNbits, ConstNbits(info)))
  }

  /** x bits are a better place for n bits than y bits are: the smallest that is large enough, otherwise the largest. */
  predicate Better(x: nat, y: nat, n: nat) {
    if y >= n then n <= x < y else x > y
  }

  // ----- what the planner has built -----

  /** Every buffer allocated before point a has an entry, which serves it. */
  ghost predicate EntriesOf(pattern: seq<StmtEntry>, a: nat, plan: Plan) {
    && (forall b: nat :: b in plan.allocMap <==> AllocBefore(pattern, a, b))
    && (forall b <- plan.allocMap :: plan.allocMap[b] < |plan.entries|)
    && (forall k :: 0 <= k < |plan.entries| ==> EntryOf(plan, k, pattern, a))
    && (forall i, b: nat | 0 <= i < a && i < |pattern| && IsAlloc(pattern[i], b) && b in plan.allocMap && plan.allocMap[b] < |plan.entries| ::
          Serves(plan.entries[plan.allocMap[b]], ScopeAt(pattern, i), b, pattern[i].point.info))
  }

  ghost predicate EntryOf(plan: Plan, k: nat, pattern: seq<StmtEntry>, p: nat)
    requires k < |plan.entries|
  {
    && plan.entries[k].allocs != []
    && forall a <- plan.entries[k].allocs :: a.buffer in plan.allocMap && plan.allocMap[a.buffer] == k && AllocAt(pattern, p, a)
  }

  /** The program allocates a, before point p. */
  ghost predicate AllocAt(pattern: seq<StmtEntry>, p: nat, a: Alloc) {
    exists i :: 0 <= i < p && i < |pattern| && pattern[i].point == AllocPoint(a.buffer, a.info)
  }

  ghost predicate Serves(e: StorageEntry, attach: Option<nat>, b: nat, info: AllocInfo) {
    Compatible(e, attach, info) && Alloc(b, info) in e.allocs
  }

  /** Buffers with one entry are never live together, and at most one of them is still to be touched from point i on. */
  ghost predicate NeverTogether(pattern: seq<StmtEntry>, i: nat, allocMap: map<nat, nat>) {
    forall b, c: nat | b in allocMap && c in allocMap && b != c && allocMap[b] == allocMap[c] ::
      !(TouchedFrom(pattern, i, b) && TouchedFrom(pattern, i, c))
      && forall p: nat :: !(Live(pattern, p, b) && Live(pattern, p, c))
  }

  /** No buffer of entry k is touched from point i on. */
  ghost predicate Dead(pattern: seq<StmtEntry>, i: nat, allocMap: map<nat, nat>, k: nat) {
    forall b <- allocMap | allocMap[b] == k :: !TouchedFrom(pattern, i, b)
  }

  ghost predicate FreeDead(pattern: seq<StmtEntry>, i: nat, allocMap: map<nat, nat>, free: seq<nat>) {
    forall k <- free :: Dead(pattern, i, allocMap, k)
  }

  /** entries are the entries of plan with c added to entry k, which may be new. */
  ghost predicate Extends(plan: Plan, k: nat, entries: seq<StorageEntry>, c: nat, info: AllocInfo) {
    && k < |entries| && k <= |plan.entries| && |entries| == (if k == |plan.entries| then k + 1 else |plan.entries|)
    && (forall j | 0 <= j < |plan.entries| && j != k :: entries[j] == plan.entries[j])
    && (if k < |plan.entries| then
          entries[k] == plan.entries[k].(constNbits := entries[k].constNbits, allocs := plan.entries[k].allocs + [Alloc(c, info)])
        else entries[k].allocs == [Alloc(c, info)])
  }

  /** Giving c, allocated at point i, to an entry all of whose buffers are dead keeps buffers apart. */
  lemma {:induction false} AddAlloc(pattern: seq<StmtEntry>, i: nat, plan: Plan, k: nat, entries: seq<StorageEntry>, c: nat, info: AllocInfo, free: seq<nat>)
    requires AllocatedOnce(pattern) && i < |pattern| && pattern[i].point == AllocPoint(c, info)
    requires EntriesOf(pattern, i, plan) && NeverTogether(pattern, i, plan.allocMap)
    requires Extends(plan, k, entries, c, info) && Dead(pattern, i, plan.allocMap, k)
    requires Compatible(entries[k], ScopeAt(pattern, i), info)
    requires FreeDead(pattern, i, plan.allocMap, free) && k !in free
    ensures var plan1 := Plan(plan.allocMap[c := k], entries);
      EntriesOf(pattern, i + 1, plan1) && NeverTogether(pattern, i, plan1.allocMap) && FreeDead(pattern, i, plan1.allocMap, free)
  {
    hide EntriesOf, NeverTogether, Dead, FreeDead, Extends, AllocatedOnce;
    NewBuffer(pattern, i, plan, c);
    AddAllocEntries(pattern, i, plan, k, entries, c, info);
    AddAllocApart(pattern, i, plan.allocMap, k, c);
    FreeStaysDead(pattern, i, plan.allocMap, k, c, free);
  }

  lemma {:induction false} FreeStaysDead(pattern: seq<StmtEntry>, i: nat, allocMap: map<nat, nat>, k: nat, c: nat, free: seq<nat>)
    requires FreeDead(pattern, i, allocMap, free) && c !in allocMap && k !in free
    ensures FreeDead(pattern, i, allocMap[c := k], free)
  {
    forall j <- free ensures Dead(pattern, i, allocMap[c := k], j) {
      assert Dead(pattern, i, allocMap, j);
    }
  }

  lemma {:induction false} NewBuffer(pattern: seq<StmtEntry>, i: nat, plan: Plan, c: nat)
    requires AllocatedOnce(pattern) && i < |pattern| && IsAlloc(pattern[i], c) && EntriesOf(pattern, i, plan)
    ensures c !in plan.allocMap
  {
  }

  lemma {:induction false} AddAllocEntries(pattern: seq<StmtEntry>, i: nat, plan: Plan, k: nat, entries: seq<StorageEntry>, c: nat, info: AllocInfo)
    requires AllocatedOnce(pattern) && i < |pattern| && pattern[i].point == AllocPoint(c, info)
    requires EntriesOf(pattern, i, plan) && c !in plan.allocMap
    requires Extends(plan, k, entries, c, info) && Compatible(entries[k], ScopeAt(pattern, i), info)
    ensures EntriesOf(pattern, i + 1, Plan(plan.allocMap[c := k], entries))
  {
    var plan1 := Plan(plan.allocMap[c := k], entries);
    forall b: nat ensures b in plan1.allocMap <==> AllocBefore(pattern, i + 1, b) {
    }
    var next := i + 1;
    forall j | 0 <= j < |entries| ensures EntryOf(plan1, j, pattern, next) {
      if j < |plan.entries| {
        assert EntryOf(plan, j, pattern, i);
      }
    }
    forall j, b: nat | 0 <= j < i + 1 && j < |pattern| && IsAlloc(pattern[j], b) && b in plan1.allocMap && plan1.allocMap[b] < |entries|
      ensures Serves(entries[plan1.allocMap[b]], ScopeAt(pattern, j), b, pattern[j].point.info)
    {
      if j < i {
        assert AllocBefore(pattern, i, b);
        assert Serves(plan.entries[plan.allocMap[b]], ScopeAt(pattern, j), b, pattern[j].point.info);
      }
    }
  }

  lemma {:induction false} AddAllocApart(pattern: seq<StmtEntry>, i: nat, allocMap: map<nat, nat>, k: nat, c: nat)
    requires AllocatedOnce(pattern) && i < |pattern| && IsAlloc(pattern[i], c) && c !in allocMap
    requires NeverTogether(pattern, i, allocMap) && Dead(pattern, i, allocMap, k)
    ensures NeverTogether(pattern, i, allocMap[c := k])
  {
    forall b | b in allocMap && allocMap[b] == k
      ensures !TouchedFrom(pattern, i, b) && forall p: nat :: !(Live(pattern, p, b) && Live(pattern, p, c))
    {
      forall p: nat ensures !(Live(pattern, p, b) && Live(pattern, p, c)) {
        if Live(pattern, p, b) && Live(pattern, p, c) {
          TouchedFromLess(pattern, i, p, b);
        }
      }
    }
  }

  /** A point that allocates nothing leaves the entries as they are. */
  lemma {:induction false} NoAlloc(pattern: seq<StmtEntry>, i: nat, plan: Plan)
    requires i < |pattern| && !pattern[i].point.AllocPoint? && EntriesOf(pattern, i, plan)
    ensures EntriesOf(pattern, i + 1, plan)
  {
    forall b: nat ensures b in plan.allocMap <==> AllocBefore(pattern, i + 1, b) {
    }
    var next := i + 1;
    forall k | 0 <= k < |plan.entries| ensures EntryOf(plan, k, pattern, next) {
      assert EntryOf(plan, k, pattern, i);
    }
  }

  /** What may be shared at point i may be shared at the next one. */
  lemma {:induction false} NextPoint(pattern: seq<StmtEntry>, i: nat, allocMap: map<nat, nat>, free: seq<nat>)
    requires NeverTogether(pattern, i, allocMap) && FreeDead(pattern, i, allocMap, free)
    ensures NeverTogether(pattern, i + 1, allocMap) && FreeDead(pattern, i + 1, allocMap, free)
  {
    forall b: nat | TouchedFrom(pattern, i + 1, b) ensures TouchedFrom(pattern, i, b) {
      TouchedFromLess(pattern, i, i + 1, b);
    }
    forall k <- free ensures Dead(pattern, i + 1, allocMap, k) {
      assert Dead(pattern, i, allocMap, k);
    }
  }

  /** After the last touch of b, its whole entry is dead: the other buffers of the entry were dead before. */
  lemma {:induction false} LastTouchDead(pattern: seq<StmtEntry>, i: nat, allocMap: map<nat, nat>, b: nat)
    requires NeverTogether(pattern, i, allocMap) && LastTouch(pattern, i, b) && b in allocMap
    ensures Dead(pattern, i + 1, allocMap, allocMap[b])
  {
    assert TouchedFrom(pattern, i, b);
    forall c <- allocMap | allocMap[c] == allocMap[b] ensures !TouchedFrom(pattern, i + 1, c) {
      if c != b && TouchedFrom(pattern, i + 1, c) {
        TouchedFromLess(pattern, i, i + 1, c);
      }
    }
  }

  /** The entries whose buffers are touched at point i are not free, and are different for different buffers. */
  lemma {:induction false} FreedApart(pattern: seq<StmtEntry>, i: nat, allocMap: map<nat, nat>, free: seq<nat>, bs: seq<nat>)
    requires NeverTogether(pattern, i, allocMap) && FreeDead(pattern, i, allocMap, free) && Distinct(bs) && i < |pattern|
    requires forall b <- bs :: b in allocMap && LastTouch(pattern, i, b)
    ensures forall m | 0 <= m < |bs| :: allocMap[bs[m]] !in free
    ensures forall m, n | 0 <= m < n < |bs| :: allocMap[bs[m]] != allocMap[bs[n]]
  {
    forall m | 0 <= m < |bs| ensures TouchedFrom(pattern, i, bs[m]) && allocMap[bs[m]] !in free {
      assert bs[m] in bs;
      assert bs[m] in pattern[i].touched;
      if allocMap[bs[m]] in free {
        assert Dead(pattern, i, allocMap, allocMap[bs[m]]);
      }
    }
  }

  /** The check of the scope planner: a thread node does not start inside the scope of another one. */
  predicate ScopeFits(pattern: seq<StmtEntry>, i: nat)
    requires i < |pattern|
  {
    pattern[i].point.ScopePoint? && pattern[i].point.kind == Thread ==> ScopeAt(pattern, i) in {None, Some(pattern[i].point.id)}
  }

  // ----- no sharing is missed, and none is too much -----

  ghost predicate FitsBefore(pattern: seq<StmtEntry>, q: nat) {
    q <= |pattern| && forall i | 0 <= i < q :: ScopeFits(pattern, i)
  }

  /** Global or shared memory for numbers, of more than 32 bits if its size is constant. */
  predicate MayShare(info: AllocInfo) {
    info.rank <= 1 && !info.isHandle && (ConstNbits(info) == 0 || ConstNbits(info) > 32)
  }

  /** Storage that was made for first may serve an allocation with info: constant sizes within a factor of 16 of each other, other sizes
      not constant both. */
  predicate Matches(first: AllocInfo, info: AllocInfo) {
    && MayShare(first) && MayShare(info) && first.rank == info.rank && first.elemType == info.elemType
    && (if ConstNbits(info) == 0 then ConstNbits(first) == 0
        else ConstNbits(first) > 0 && ConstNbits(info) / 16 <= ConstNbits(first) <= ConstNbits(info) * 16)
  }

  /** The entry is there at point i, in the thread scope of the point, and no buffer that has it is touched from there on. */
  ghost predicate IdleAt(pattern: seq<StmtEntry>, i: nat, plan: Plan, k: nat)
    requires i <= |pattern|
  {
    && k < |plan.entries| && plan.entries[k].allocs != []
    && AllocBefore(pattern, i, plan.entries[k].allocs[0].buffer) && plan.entries[k].attach == ScopeAt(pattern, i)
    && forall b <- plan.allocMap | plan.allocMap[b] == k && AllocBefore(pattern, i, b) :: !TouchedFrom(pattern, i, b)
  }

  ghost predicate Available(pattern: seq<StmtEntry>, i: nat, plan: Plan, k: nat, info: AllocInfo)
    requires i <= |pattern|
  {
    IdleAt(pattern, i, plan, k) && Matches(plan.entries[k].allocs[0].info, info)
  }

  /** The buffer c, allocated at point i, has the best of the available entries, and an entry of its own exactly if there is none. */
  ghost predicate SharedAt(pattern: seq<StmtEntry>, i: nat, plan: Plan, c: nat, info: AllocInfo)
    requires i <= |pattern|
  {
    && c in plan.allocMap && plan.allocMap[c] < |plan.entries| && plan.entries[plan.allocMap[c]].allocs != []
    && var k := plan.allocMap[c];
    if plan.entries[k].allocs[0].buffer == c then forall j: nat :: !Available(pattern, i, plan, j, info)
    else
      && Available(pattern, i, plan, k, info)
      && forall j: nat | Available(pattern, i, plan, j, info) ::
           !Better(ConstNbits(plan.entries[j].allocs[0].info), ConstNbits(plan.entries[k].allocs[0].info), ConstNbits(info))
  }

  /** So it is for all buffers allocated before point n. */
  ghost predicate SharesAll(pattern: seq<StmtEntry>, n: nat, plan: Plan) {
    n <= |pattern| && forall i | 0 <= i < n && pattern[i].point.AllocPoint? :: SharedAt(pattern, i, plan, pattern[i].point.buffer, pattern[i].point.info)
  }

  /** Allocations touch their buffers, and a thread scope is opened once. */
  ghost predicate Regular(pattern: seq<StmtEntry>) {
    && (forall i | 0 <= i < |pattern| && pattern[i].point.AllocPoint? :: pattern[i].point.buffer in pattern[i].touched)
    && (forall i, id | 0 <= i < |pattern| && FitsBefore(pattern, i) && OpensAt(pattern, i, id) :: NoIdsBefore(pattern, i, {id}))
  }

  predicate OpensAt(pattern: seq<StmtEntry>, i: nat, id: nat)
    requires i < |pattern|
  {
    pattern[i].point in {ScopePoint(id, Thread), ScopePoint(id, ParallelLoop)} && ScopeAt(pattern, i) == None
  }

  /** An entry is what its first allocation made it. */
  ghost predicate EntriesMade(plan: Plan) {
    forall k | 0 <= k < |plan.entries| :: EntryMade(plan.entries[k])
  }

  predicate EntryMade(e: StorageEntry) {
    && e.allocs != [] && e.constNbits == ConstNbits(e.allocs[0].info)
    && e.rank == e.allocs[0].info.rank && e.elemType == e.allocs[0].info.elemType
  }

  /** The free entries are exactly the dead ones that may be shared, of the current thread scope or of none. */
  ghost predicate FreeRight(pattern: seq<StmtEntry>, i: nat, plan: Plan, free: seq<nat>, cur: Option<nat>) {
    forall k | 0 <= k < |plan.entries| && plan.entries[k].allocs != [] ::
      && (k in free ==> MayShare(plan.entries[k].allocs[0].info))
      && (Dead(pattern, i, plan.allocMap, k) && MayShare(plan.entries[k].allocs[0].info) && plan.entries[k].attach in {None, cur} ==> k in free)
  }

  lemma {:induction false} NotSharedMeans(e: StorageEntry)
    requires EntryMade(e)
    ensures NotShared(e.rank, e.allocs[0].info.isHandle, e.constNbits) <==> !MayShare(e.allocs[0].info)
  {
  }

  lemma {:induction false} ReusableMeans(e: StorageEntry, attach: Option<nat>, info: AllocInfo)
    requires EntryMade(e)
    ensures Matches(e.allocs[0].info, info) && e.attach == attach <==> Reusable(e, attach, info) && MayShare(e.allocs[0].info)
  {
    assert ConstNbits(info) / 16 <= ConstNbits(info) * 16;
  }

  /** Before point i all buffers that have an entry are allocated, so an idle entry is a dead one. */
  lemma {:induction false} IdleDead(pattern: seq<StmtEntry>, i: nat, plan: Plan, k: nat)
    requires i < |pattern| && EntriesOf(pattern, i, plan) && k < |plan.entries|
    ensures IdleAt(pattern, i, plan, k) <==> plan.entries[k].attach == ScopeAt(pattern, i) && Dead(pattern, i, plan.allocMap, k)
  {
    assert EntryOf(plan, k, pattern, i);
    assert plan.entries[k].allocs[0] in plan.entries[k].allocs;
  }

  /** The available entries are the free ones that may be reused. */
  lemma {:induction false} AvailableFree(pattern: seq<StmtEntry>, i: nat, plan: Plan, free: seq<nat>, info: AllocInfo, k: nat)
    requires i < |pattern| && EntriesOf(pattern, i, plan) && EntriesMade(plan) && FreeDead(pattern, i, plan.allocMap, free)
    requires FreeRight(pattern, i, plan, free, ScopeAt(pattern, i)) && k < |plan.entries|
    ensures Available(pattern, i, plan, k, info) <==> k in free && Reusable(plan.entries[k], ScopeAt(pattern, i), info)
  {
    hide EntriesOf, Dead, Matches, Reusable, MayShare, ScopeAt;
    IdleDead(pattern, i, plan, k);
    assert EntryMade(plan.entries[k]);
    ReusableMeans(plan.entries[k], ScopeAt(pattern, i), info);
    ReusableHere(plan.entries[k], ScopeAt(pattern, i), info);
  }

  lemma {:induction false} ReusableHere(e: StorageEntry, attach: Option<nat>, info: AllocInfo)
    ensures Reusable(e, attach, info) ==> e.attach == attach
    ensures e.allocs != [] && Matches(e.allocs[0].info, info) ==> MayShare(e.allocs[0].info)
  {
  }

  /** Giving c to entry k, which is new or was free, takes no other entry from the free ones. */
  lemma {:induction false} FreeRightTaken(pattern: seq<StmtEntry>, i: nat, plan: Plan, k: nat, entries: seq<StorageEntry>, c: nat, info: AllocInfo,
                                          free: seq<nat>, free1: seq<nat>, cur: Option<nat>)
    requires FreeRight(pattern, i, plan, free, cur) && EntriesMade(plan) && EntriesOf(pattern, i, plan) && c !in plan.allocMap
    requires Extends(plan, k, entries, c, info) && EntryMade(entries[k]) && TouchedFrom(pattern, i, c)
    requires forall j: nat :: j in free1 <==> j in free && j != k
    ensures FreeRight(pattern, i, Plan(plan.allocMap[c := k], entries), free1, cur) && EntriesMade(Plan(plan.allocMap[c := k], entries))
  {
    hide EntriesOf, MayShare, TouchedFrom;
    var plan1 := Plan(plan.allocMap[c := k], entries);
    forall j | 0 <= j < |entries| && j != k
      ensures Dead(pattern, i, plan1.allocMap, j) ==> Dead(pattern, i, plan.allocMap, j)
      ensures j < |plan.entries| && entries[j] == plan.entries[j]
    {
      forall b <- plan.allocMap | plan.allocMap[b] == j && Dead(pattern, i, plan1.allocMap, j) ensures !TouchedFrom(pattern, i, b) {
        assert b in plan1.allocMap && plan1.allocMap[b] == j;
      }
    }
    assert !Dead(pattern, i, plan1.allocMap, k);
  }

  /** What is available at an earlier point does not change when c, allocated at point i, gets its entry. */
  lemma {:induction false} AvailableStays(pattern: seq<StmtEntry>, m: nat, i: nat, plan: Plan, k: nat, entries: seq<StorageEntry>, c: nat, info: AllocInfo,
                                          j: nat, need: AllocInfo)
    requires m <= i <= |pattern| && AllocatedOnce(pattern) && i < |pattern| && IsAlloc(pattern[i], c) && EntriesOf(pattern, i, plan) && c !in plan.allocMap
    requires Extends(plan, k, entries, c, info) && EntriesMade(plan)
    ensures Available(pattern, m, Plan(plan.allocMap[c := k], entries), j, need) <==> Available(pattern, m, plan, j, need)
    ensures j < |plan.entries| ==> EntryMade(plan.entries[j]) && entries[j].allocs != [] && entries[j].allocs[0] == plan.entries[j].allocs[0]
  {
    hide EntriesOf, Matches, TouchedFrom, ScopeAt;
    var plan1 := Plan(plan.allocMap[c := k], entries);
    assert !AllocBefore(pattern, m, c);
    if j < |plan.entries| {
      assert EntryMade(plan.entries[j]);
      assert entries[j].attach == plan.entries[j].attach && entries[j].allocs[0] == plan.entries[j].allocs[0];
      forall b <- plan.allocMap ensures b in plan1.allocMap && plan1.allocMap[b] == plan.allocMap[b] {
      }
    }
  }

  lemma {:induction false} SharesStay(pattern: seq<StmtEntry>, i: nat, plan: Plan, k: nat, entries: seq<StorageEntry>, c: nat, info: AllocInfo)
    requires AllocatedOnce(pattern) && i < |pattern| && IsAlloc(pattern[i], c) && EntriesOf(pattern, i, plan) && c !in plan.allocMap
    requires Extends(plan, k, entries, c, info) && EntriesMade(plan) && SharesAll(pattern, i, plan)
    ensures SharesAll(pattern, i, Plan(plan.allocMap[c := k], entries))
  {
    hide EntriesOf, Available, Better, Extends, AllocatedOnce, ScopeAt;
    var plan1 := Plan(plan.allocMap[c := k], entries);
    forall m | 0 <= m < i && pattern[m].point.AllocPoint? ensures SharedAt(pattern, m, plan1, pattern[m].point.buffer, pattern[m].point.info) {
      SharedStays(pattern, m, i, plan, k, entries, c, info);
    }
  }

  lemma {:induction false} SharedStays(pattern: seq<StmtEntry>, m: nat, i: nat, plan: Plan, k: nat, entries: seq<StorageEntry>, c: nat, info: AllocInfo)
    requires m < i < |pattern| && pattern[m].point.AllocPoint? && SharedAt(pattern, m, plan, pattern[m].point.buffer, pattern[m].point.info)
    requires AllocatedOnce(pattern) && IsAlloc(pattern[i], c) && EntriesOf(pattern, i, plan) && c !in plan.allocMap
    requires Extends(plan, k, entries, c, info) && EntriesMade(plan)
    ensures SharedAt(pattern, m, Plan(plan.allocMap[c := k], entries), pattern[m].point.buffer, pattern[m].point.info)
  {
    hide EntriesOf, Available, Better, AllocatedOnce, ScopeAt, EntriesMade;
    var b, need := pattern[m].point.buffer, pattern[m].point.info;
    var plan1 := Plan(plan.allocMap[c := k], entries);
    forall j: nat
      ensures Available(pattern, m, plan1, j, need) <==> Available(pattern, m, plan, j, need)
      ensures j < |plan.entries| ==> EntryMade(plan.entries[j]) && entries[j].allocs != [] && entries[j].allocs[0] == plan.entries[j].allocs[0]
    {
      AvailableStays(pattern, m, i, plan, k, entries, c, info, j, need);
    }
    AvailableThere(pattern, m, plan, need);
    assert plan1.allocMap[b] == plan.allocMap[b];
  }

  lemma {:induction false} AvailableThere(pattern: seq<StmtEntry>, m: nat, plan: Plan, need: AllocInfo)
    requires m <= |pattern|
    ensures forall j: nat | Available(pattern, m, plan, j, need) :: j < |plan.entries|
  {
  }

  /** The choice at point i. */
  lemma {:induction false} SharesNext(pattern: seq<StmtEntry>, i: nat, plan: Plan, k: nat, entries: seq<StorageEntry>, c: nat, info: AllocInfo, free: seq<nat>)
    requires AllocatedOnce(pattern) && i < |pattern| && pattern[i].point == AllocPoint(c, info) && EntriesOf(pattern, i, plan) && c !in plan.allocMap
    requires Extends(plan, k, entries, c, info) && EntriesMade(plan) && SharesAll(pattern, i, plan) && FreeDead(pattern, i, plan.allocMap, free)
    requires FreeRight(pattern, i, plan, free, ScopeAt(pattern, i))
    requires k == |plan.entries| ==> forall j <- free | j < |plan.entries| :: !Reusable(plan.entries[j], ScopeAt(pattern, i), info)
    requires k < |plan.entries| ==> k in free && Reusable(plan.entries[k], ScopeAt(pattern, i), info)
    requires k < |plan.entries| ==> forall j <- free | j < |plan.entries| && Reusable(plan.entries[j], ScopeAt(pattern, i), info) ::
      !Better(plan.entries[j].constNbits, plan.entries[k].constNbits, ConstNbits(info))
    ensures SharesAll(pattern, i + 1, Plan(plan.allocMap[c := k], entries))
  {
    hide EntriesOf, Available, Better, AllocatedOnce, Reusable, ScopeAt, FreeRight, FreeDead;
    var plan1 := Plan(plan.allocMap[c := k], entries);
    SharesStay(pattern, i, plan, k, entries, c, info);
    forall j: nat
      ensures Available(pattern, i, plan1, j, info) <==> j < |plan.entries| && j in free && Reusable(plan.entries[j], ScopeAt(pattern, i), info)
      ensures j < |plan.entries| ==> EntryMade(plan.entries[j]) && entries[j].allocs != [] && entries[j].allocs[0] == plan.entries[j].allocs[0]
    {
      AvailableStays(pattern, i, i, plan, k, entries, c, info, j, info);
      AvailableThere(pattern, i, plan, info);
      if j < |plan.entries| {
        AvailableFree(pattern, i, plan, free, info, j);
      }
    }
    if k < |plan.entries| {
      NotFirst(pattern, i, plan, k, c);
    }
    assert SharedAt(pattern, i, plan1, c, info);
  }

  lemma {:induction false} NotFirst(pattern: seq<StmtEntry>, i: nat, plan: Plan, k: nat, c: nat)
    requires EntriesOf(pattern, i, plan) && k < |plan.entries| && c !in plan.allocMap
    ensures plan.entries[k].allocs != [] && plan.entries[k].allocs[0].buffer != c
  {
    assert EntryOf(plan, k, pattern, i);
    assert plan.entries[k].allocs[0] in plan.entries[k].allocs;
  }

  /** A scope that is opened has no storage yet; one that is closed takes its storage along. */
  lemma {:induction false} FreeRightScope(pattern: seq<StmtEntry>, i: nat, plan: Plan, free: seq<nat>, free1: seq<nat>, id: nat)
    requires i < |pattern| && EntriesOf(pattern, i, plan) && Regular(pattern) && FitsBefore(pattern, i)
    requires pattern[i].point in {ScopePoint(id, Thread), ScopePoint(id, ParallelLoop)} && ScopeAt(pattern, i) in {None, Some(id)}
    requires FreeRight(pattern, i, plan, free, ScopeAt(pattern, i))
    requires forall k: nat | k < |plan.entries| :: k in free1 <==> k in free && (ScopeAt(pattern, i).Some? ==> plan.entries[k].attach != Some(id))
    ensures FreeRight(pattern, i, plan, free1, ScopeAt(pattern, i + 1))
  {
    hide EntriesOf, MayShare, Dead;
    if ScopeAt(pattern, i) == None {
      assert OpensAt(pattern, i, id);
      forall k | 0 <= k < |plan.entries| ensures plan.entries[k].attach != Some(id) {
        NoStorageYet(pattern, i, plan, k, id);
      }
    }
  }

  lemma {:induction false} NoStorageYet(pattern: seq<StmtEntry>, i: nat, plan: Plan, k: nat, id: nat)
    requires i < |pattern| && EntriesOf(pattern, i, plan) && NoIdsBefore(pattern, i, {id}) && k < |plan.entries|
    ensures plan.entries[k].attach != Some(id)
  {
    assert EntryOf(plan, k, pattern, i);
    var a := plan.entries[k].allocs[0];
    assert a in plan.entries[k].allocs;
    var j :| 0 <= j < i && j < |pattern| && pattern[j].point == AllocPoint(a.buffer, a.info);
    assert IsAlloc(pattern[j], a.buffer);
    assert Serves(plan.entries[k], ScopeAt(pattern, j), a.buffer, a.info);
    if ScopeAt(pattern, j) == Some(id) {
      ScopeAtPoint(pattern, j, id);
    }
  }

  /** An entry that dies at point i does so with the last touch of a buffer. */
  lemma {:induction false} DiesWith(pattern: seq<StmtEntry>, i: nat, allocMap: map<nat, nat>, k: nat)
    requires i < |pattern| && Dead(pattern, i + 1, allocMap, k)
    ensures Dead(pattern, i, allocMap, k) || exists b <- allocMap :: allocMap[b] == k && LastTouch(pattern, i, b)
  {
    if !Dead(pattern, i, allocMap, k) {
      var b :| b in allocMap && allocMap[b] == k && TouchedFrom(pattern, i, b);
      assert LastTouch(pattern, i, b);
    }
  }

  class StoragePlanRewriter {
    var threadScope: Option<nat>
    var allocMap: map<nat, nat>
    var allocVec: seq<StorageEntry>
    var constFree: seq<FreeSlot>
    var symFree: seq<nat>

    constructor ()
      ensures threadScope == None && allocMap == map[] && allocVec == [] && constFree == [] && symFree == []
    {
      threadScope, allocMap, allocVec, constFree, symFree := None, map[], [], [], [];
    }

    function Free(): seq<nat>
      reads this
    {
      Entries(constFree) + symFree
    }

    function CurrentPlan(): Plan
      reads this
    {
      Plan(allocMap, allocVec)
    }

    ghost predicate SlotRight(slot: FreeSlot)
      reads this
    {
      slot.entry < |allocVec| && slot.nbits == allocVec[slot.entry].constNbits && slot.nbits != 0
    }

    /** The free lists hold different entries, constant ones sorted by size and apart from symbolic ones. */
    ghost predicate Lists()
      reads this
    {
      && Distinct(Free()) && SortedSlots(constFree)
      && (forall i | 0 <= i < |constFree| :: SlotRight(constFree[i]))
      && (forall i | 0 <= i < |symFree| :: symFree[i] < |allocVec| && allocVec[symFree[i]].constNbits == 0)
    }

    lemma {:induction false} SlotsFree()
      ensures forall i | 0 <= i < |constFree| :: constFree[i].entry in Free() && Free()[i] == constFree[i].entry
      ensures forall k: nat | k in Free() :: (exists i :: 0 <= i < |constFree| && constFree[i].entry == k) || k in symFree
      ensures forall i | 0 <= i < |symFree| :: symFree[i] in Free() && Free()[|constFree| + i] == symFree[i]
    {
      forall i | 0 <= i < |constFree| ensures constFree[i].entry in Free() && Free()[i] == constFree[i].entry {
        assert Entries(constFree)[i] == constFree[i].entry;
      }
      forall i | 0 <= i < |symFree| ensures symFree[i] in Free() && Free()[|constFree| + i] == symFree[i] {
      }
    }

    method EraseConst(i: nat)
      requires Lists() && i < |constFree|
      modifies `constFree
      ensures Lists() && constFree == RemoveAt(old(constFree), i)
      ensures forall k: nat :: k in Free() <==> k in old(Free()) && k != old(constFree)[i].entry
    {
      assert Free()[i] == constFree[i].entry;
      constFree := RemoveAt(constFree, i);
      assert Free() == RemoveAt(old(Free()), i);
    }

    method EraseSym(i: nat)
      requires Lists() && i < |symFree|
      modifies `symFree
      ensures Lists() && symFree == RemoveAt(old(symFree), i)
      ensures forall k: nat :: k in Free() <==> k in old(Free()) && k != old(symFree)[i]
    {
      assert Free()[|constFree| + i] == symFree[i];
      symFree := RemoveAt(symFree, i);
      assert Free() == RemoveAt(old(Free()), |constFree| + i);
    }

    /** Opens a thread scope, or closes it and forgets the storage that is attached to it. */
    method PlanNewScope(op: nat) returns (ok: bool)
      requires Lists()
      modifies `threadScope, `constFree, `symFree
      ensures ok <==> old(threadScope) in {None, Some(op)}
      ensures ok ==> threadScope == (if old(threadScope) == None then Some(op) else None)
      ensures Lists()
      ensures forall k: nat :: k in Free() <==> k in old(Free()) && (ok && old(threadScope).Some? ==> allocVec[k].attach != Some(op))
    {
      if threadScope == None {
        threadScope := Some(op);
        return true;
      }
      if threadScope != Some(op) {
        return false;
      }
      EraseConstOf(op);
      EraseSymOf(op);
      SlotsFree();
      threadScope := None;
      return true;
    }

    method EraseConstOf(op: nat)
      requires Lists()
      modifies `constFree
      ensures Lists()
      ensures forall i | 0 <= i < |constFree| :: allocVec[constFree[i].entry].attach != Some(op)
      ensures forall k: nat :: k in Free() ==> k in old(Free())
      ensures forall k: nat | k in old(Free()) && k < |allocVec| && allocVec[k].attach != Some(op) :: k in Free()
    {
      var it := 0;
      while it < |constFree|
        invariant it <= |constFree| && Lists()
        invariant forall i | 0 <= i < it :: allocVec[constFree[i].entry].attach != Some(op)
        invariant forall k: nat :: k in Free() ==> k in old(Free())
        invariant forall k: nat | k in old(Free()) && k < |allocVec| && allocVec[k].attach != Some(op) :: k in Free()
        decreases |constFree| - it
      {
        if allocVec[constFree[it].entry].attach == Some(op) {
          EraseConst(it);
        } else {
          it := it + 1;
        }
      }
    }

    method EraseSymOf(op: nat)
      requires Lists()
      modifies `symFree
      ensures Lists()
      ensures forall i | 0 <= i < |symFree| :: allocVec[symFree[i]].attach != Some(op)
      ensures forall k: nat :: k in Free() ==> k in old(Free())
      ensures forall k: nat | k in old(Free()) && k < |allocVec| && allocVec[k].attach != Some(op) :: k in Free()
    {
      var it := 0;
      while it < |symFree|
        invariant it <= |symFree| && Lists()
        invariant forall i | 0 <= i < it :: allocVec[symFree[i]].attach != Some(op)
        invariant forall k: nat :: k in Free() ==> k in old(Free())
        invariant forall k: nat | k in old(Free()) && k < |allocVec| && allocVec[k].attach != Some(op) :: k in Free()
        decreases |symFree| - it
      {
        if allocVec[symFree[it]].attach == Some(op) {
          EraseSym(it);
        } else {
          it := it + 1;
        }
      }
    }

    method NewAlloc(info: AllocInfo, attach: Option<nat>, constNbits: nat) returns (k: nat)
      modifies `allocVec
      ensures k == |old(allocVec)| && allocVec == old(allocVec) + [StorageEntry(attach, constNbits, info.rank, info.elemType, [])]
    {
      k, allocVec := |allocVec|, allocVec + [StorageEntry(attach, constNbits, info.rank, info.elemType, [])];
    }

    predicate SlotFits(slot: FreeSlot, attach: Option<nat>, info: AllocInfo, n: nat)
      reads `allocVec
    {
      slot.entry < |allocVec| && Compatible(allocVec[slot.entry], attach, info) && InMatchRange(slot.nbits, n)
    }

    /** The first slot of at least n bits that fits. */
    method SearchUp(info: AllocInfo, attach: Option<nat>, n: nat) returns (found: bool, it: nat)
      requires Lists()
      ensures found ==> it < |constFree| && SlotFits(constFree[it], attach, info, n) && constFree[it].nbits >= n
      ensures forall j | 0 <= j < (if found then it else |constFree|) && SlotFits(constFree[j], attach, info, n) :: constFree[j].nbits < n
    {
      var end := LowerBound(constFree, n * MATCH_RANGE + 1);
      it := LowerBound(constFree, n);
      while it < end
        invariant it <= |constFree|
        invariant forall j | it <= j < |constFree| :: constFree[j].nbits >= n
        invariant forall j | 0 <= j < it && SlotFits(constFree[j], attach, info, n) :: constFree[j].nbits < n
      {
        if Compatible(allocVec[constFree[it].entry], attach, info) {
          return true, it;
        }
        it := it + 1;
      }
      return false, 0;
    }

    /** The last slot of less than n bits that fits. */
    method SearchDown(info: AllocInfo, attach: Option<nat>, n: nat) returns (found: bool, it: nat)
      requires Lists()
      ensures found ==> it < |constFree| && SlotFits(constFree[it], attach, info, n) && constFree[it].nbits < n
      ensures forall j | (if found then it + 1 else 0) <= j < |constFree| && SlotFits(constFree[j], attach, info, n) :: constFree[j].nbits >= n
    {
      var begin := LowerBound(constFree, n / MATCH_RANGE);
      it := LowerBound(constFree, n);
      while it > begin
        invariant it <= |constFree|
        invariant forall j | 0 <= j < it :: constFree[j].nbits < n
        invariant forall j | it <= j < |constFree| && SlotFits(constFree[j], attach, info, n) :: constFree[j].nbits >= n
      {
        it := it - 1;
        if Compatible(allocVec[constFree[it].entry], attach, info) {
          return true, it;
        }
      }
      return false, 0;
    }

    /** The best compatible slot within the match range: upwards from n bits first, downwards after that. */
    method FindConst(info: AllocInfo, attach: Option<nat>, n: nat) returns (found: bool, k: nat, ghost it: nat)
      requires Lists()
      modifies `constFree, `allocVec
      ensures Lists() && allocVec == old(allocVec)
      ensures found ==> it < |old(constFree)| && k == old(constFree)[it].entry && SlotFits(old(constFree)[it], attach, info, n)
      ensures found ==> forall j: nat :: j in Free() <==> j in old(Free()) && j != k
      ensures found ==> forall j | 0 <= j < |old(constFree)| && SlotFits(old(constFree)[j], attach, info, n) ::
                          !Better(old(constFree)[j].nbits, old(constFree)[it].nbits, n)
      ensures !found ==> constFree == old(constFree) && forall j | 0 <= j < |constFree| :: !SlotFits(constFree[j], attach, info, n)
    {
      var i;
      found, i := SearchUp(info, attach, n);
      if found {
        k, it := constFree[i].entry, i;
        allocVec := allocVec[k := allocVec[k].(constNbits := if n > allocVec[k].constNbits then n else allocVec[k].constNbits)];
        assert allocVec == old(allocVec);
        EraseConst(i);
        return;
      }
      found, i := SearchDown(info, attach, n);
      if found {
        k, it := constFree[i].entry, i;
        EraseConst(i);
        return;
      }
      k, it := 0, 0;
    }

    /** The symbolic entry that was freed first. */
    method FindSymbolic(info: AllocInfo, attach: Option<nat>) returns (found: bool, it: nat)
      requires Lists()
      ensures found ==> it < |symFree| && Compatible(allocVec[symFree[it]], attach, info)
      ensures forall j | 0 <= j < (if found then it else |symFree|) && j < |symFree| :: !Compatible(allocVec[symFree[j]], attach, info)
    {
      it := 0;
      while it < |symFree|
        invariant it <= |symFree|
        invariant forall j | 0 <= j < it :: !Compatible(allocVec[symFree[j]], attach, info)
      {
        if Compatible(allocVec[symFree[it]], attach, info) {
          return true, it;
        }
        it := it + 1;
      }
      return false, 0;
    }

    /** A free entry that may be reused, if there is one; no other fits better. */
    method FindFree(info: AllocInfo, attach: Option<nat>) returns (found: bool, k: nat)
      requires Lists() && !NotShared(info.rank, info.isHandle, ConstNbits(info))
      modifies `allocVec, `constFree, `symFree
      ensures Lists() && allocVec == old(allocVec)
      ensures !found ==> Free() == old(Free()) && forall j <- Free() | j < |allocVec| :: !Reusable(allocVec[j], attach, info)
      ensures found ==> k in old(Free()) && k < |allocVec| && Reusable(allocVec[k], attach, info)
      ensures found ==> forall j: nat :: j in Free() <==> j in old(Free()) && j != k
      ensures found ==> forall j <- old(Free()) | j < |allocVec| && Reusable(allocVec[j], attach, info) ::
                !Better(allocVec[j].constNbits, allocVec[k].constNbits, ConstNbits(info))
    {
      SlotsFree();
      var n := ConstNbits(info);
      if n != 0 {
        ghost var slot;
        found, k, slot := FindConst(info, attach, n);
      } else {
        var it;
        found, it := FindSymbolic(info, attach);
        k := 0;
        if found {
          k := symFree[it];
          EraseSym(it);
        }
      }
    }

    /** The entry for an allocation: a free one that may be reused and fits best, or else a new one. */
    method FindAlloc(info: AllocInfo, attach: Option<nat>) returns (k: nat)
      requires Lists()
      modifies `allocVec, `constFree, `symFree
      ensures Lists() && k < |allocVec|
      ensures forall j: nat :: j in Free() <==> j in old(Free()) && j != k
      ensures (forall j <- old(Free()) | j < |old(allocVec)| :: !Reusable(old(allocVec)[j], attach, info)) ==>
        allocVec == old(allocVec) + [StorageEntry(attach, ConstNbits(info), info.rank, info.elemType, [])] && k == |old(allocVec)|
      ensures (exists j <- old(Free()) :: j < |old(allocVec)| && Reusable(old(allocVec)[j], attach, info)) ==>
        && allocVec == old(allocVec) && k in old(Free()) && Reusable(allocVec[k], attach, info)
        && forall j <- old(Free()) | j < |allocVec| && Reusable(allocVec[j], attach, info) ::
             !Better(allocVec[j].constNbits, allocVec[k].constNbits, ConstNbits(info))
    {
      hide Better;
      SlotsFree();
      if !NotShared(info.rank, info.isHandle, ConstNbits(info)) {
        var found, e := FindFree(info, attach);
        if found {
          return e;
        }
      }
      k := NewAlloc(info, attach, ConstNbits(info));
    }

    method InsertConst(slot: FreeSlot)
      requires Lists() && SlotRight(slot) && slot.entry !in Free()
      modifies `constFree
      ensures Lists()
      ensures forall k: nat :: k in Free() <==> k in old(Free()) || k == slot.entry
    {
      hide Distinct, SortedSlots;
      var u := LowerBound(constFree, slot.nbits + 1);
      InsertAtEntries(constFree, u, slot);
      InsertSorted(constFree, slot);
      InsertAtPrefix(Entries(constFree), symFree, u, slot.entry);
      InsertAtDistinct(Free(), u, slot.entry);
      constFree := InsertAt(constFree, u, slot);
    }

    /** Simulated free: the entry of b may be given out again, unless its kind of storage is never shared. */
    method FreeBuffer(b: nat)
      requires Lists() && b in allocMap && allocMap[b] < |allocVec| && allocVec[allocMap[b]].allocs != []
      requires allocMap[b] !in Free()
      modifies `constFree, `symFree
      ensures Lists()
      ensures var e := allocVec[allocMap[b]];
        forall k: nat :: k in Free() <==> k in old(Free()) || (k == allocMap[b] && !NotShared(e.rank, e.allocs[0].info.isHandle, e.constNbits))
    {
      var k := allocMap[b];
      var e := allocVec[k];
      if NotShared(e.rank, e.allocs[0].info.isHandle, e.constNbits) {
        return;
      }
      if e.constNbits != 0 {
        InsertConst(FreeSlot(e.constNbits, k));
      } else {
        InsertAtDistinct(Free(), |Free()|, k);
        symFree := symFree + [k];
        assert Free() == InsertAt(old(Free()), |old(Free())|, k);
      }
    }

    /** The state before point i is planned. */
    ghost predicate Planned(pattern: seq<StmtEntry>, i: nat)
      reads this
    {
      && i <= |pattern| && threadScope == ScopeAt(pattern, i) && Lists()
      && EntriesOf(pattern, i, CurrentPlan()) && NeverTogether(pattern, i, allocMap) && FreeDead(pattern, i, allocMap, Free())
    }

    /** So far every buffer has the best entry that was available, in a regular pattern. */
    ghost predicate Greedy(pattern: seq<StmtEntry>, a: nat, i: nat)
      reads this
    {
      Regular(pattern) && FitsBefore(pattern, a) ==>
        SharesAll(pattern, a, CurrentPlan()) && EntriesMade(CurrentPlan()) && FreeRight(pattern, i, CurrentPlan(), Free(), threadScope)
    }

    /** The frees after point i. */
    method FreeAll(bs: seq<nat>, ghost pattern: seq<StmtEntry>, ghost i: nat)
      requires i < |pattern| && threadScope == ScopeAt(pattern, i + 1) && Lists()
      requires EntriesOf(pattern, i + 1, CurrentPlan()) && NeverTogether(pattern, i, allocMap) && FreeDead(pattern, i, allocMap, Free())
      requires Distinct(bs) && forall b <- bs :: b in allocMap && LastTouch(pattern, i, b)
      requires (forall b: nat | LastTouch(pattern, i, b) :: b in bs) && Greedy(pattern, i + 1, i)
      modifies `constFree, `symFree
      ensures Planned(pattern, i + 1) && Greedy(pattern, i + 1, i + 1)
    {
      hide SharesAll;
      FreedApart(pattern, i, allocMap, Free(), bs);
      NextPoint(pattern, i, allocMap, Free());
      ghost var free0 := Free();
      for m := 0 to |bs|
        invariant Lists() && FreeDead(pattern, i + 1, allocMap, Free())
        invariant forall j | m <= j < |bs| :: allocMap[bs[j]] !in Free()
        invariant EntriesMade(CurrentPlan()) ==> forall k: nat :: k in Free() <==> k in free0 || FreedBy(bs, m, k)
      {
        assert bs[m] in bs;
        assert EntryOf(CurrentPlan(), allocMap[bs[m]], pattern, i + 1);
        LastTouchDead(pattern, i, allocMap, bs[m]);
        ghost var free1 := Free();
        FreeBuffer(bs[m]);
        FreedByNext(bs, m, free1);
      }
      AllFreed(pattern, i, bs, free0);
    }

    /** Entry k may be shared and is that of one of the first m buffers. */
    ghost predicate FreedBy(bs: seq<nat>, m: nat, k: nat)
      requires m <= |bs|
      reads this
    {
      k < |allocVec| && allocVec[k].allocs != [] && MayShare(allocVec[k].allocs[0].info) && exists j :: 0 <= j < m && bs[j] in allocMap && allocMap[bs[j]] == k
    }

    lemma {:induction false} FreedByNext(bs: seq<nat>, m: nat, free1: seq<nat>)
      requires m < |bs| && bs[m] in allocMap && allocMap[bs[m]] < |allocVec| && allocVec[allocMap[bs[m]]].allocs != []
      requires var e := allocVec[allocMap[bs[m]]];
        forall k: nat :: k in Free() <==> k in free1 || (k == allocMap[bs[m]] && !NotShared(e.rank, e.allocs[0].info.isHandle, e.constNbits))
      ensures EntriesMade(CurrentPlan()) ==> forall k: nat :: k in Free() || FreedBy(bs, m, k) <==> k in free1 || FreedBy(bs, m + 1, k)
    {
      hide NotShared, MayShare;
      if EntriesMade(CurrentPlan()) {
        assert EntryMade(CurrentPlan().entries[allocMap[bs[m]]]);
        NotSharedMeans(allocVec[allocMap[bs[m]]]);
      }
    }

    /** With all last touches freed, exactly the entries that may be shared are free. */
    lemma {:induction false} AllFreed(pattern: seq<StmtEntry>, i: nat, bs: seq<nat>, free0: seq<nat>)
      requires i < |pattern| && (forall b <- bs :: b in allocMap) && forall b: nat | LastTouch(pattern, i, b) :: b in bs
      requires Regular(pattern) && FitsBefore(pattern, i + 1) ==>
        SharesAll(pattern, i + 1, CurrentPlan()) && EntriesMade(CurrentPlan()) && FreeRight(pattern, i, CurrentPlan(), free0, threadScope)
      requires EntriesMade(CurrentPlan()) ==> forall k: nat :: k in Free() <==> k in free0 || FreedBy(bs, |bs|, k)
      ensures Greedy(pattern, i + 1, i + 1)
    {
      hide SharesAll, MayShare, LastTouch, EntriesMade, Regular, FitsBefore;
      if Regular(pattern) && FitsBefore(pattern, i + 1) {
        forall k | 0 <= k < |allocVec| && allocVec[k].allocs != [] && Dead(pattern, i + 1, allocMap, k)
          ensures Dead(pattern, i, allocMap, k) || exists j :: 0 <= j < |bs| && bs[j] in allocMap && allocMap[bs[j]] == k
        {
          DiesWith(pattern, i, allocMap, k);
          if !Dead(pattern, i, allocMap, k) {
            var b :| b in allocMap && allocMap[b] == k && LastTouch(pattern, i, b);
            assert b in bs;
          }
        }
      }
    }

    /** The entry for c, with c as its last buffer. */
    method TakeEntry(c: nat, info: AllocInfo) returns (k: nat)
      requires Lists()
      modifies `allocVec, `constFree, `symFree
      ensures Lists() && k <= |old(allocVec)| && Extends(old(CurrentPlan()), k, allocVec, c, info) && Compatible(allocVec[k], threadScope, info)
      ensures forall j: nat :: j in Free() <==> j in old(Free()) && j != k
      ensures k == |old(allocVec)| ==> EntryMade(allocVec[k])
      ensures k == |old(allocVec)| ==> forall j <- old(Free()) | j < |old(allocVec)| :: !Reusable(old(allocVec)[j], threadScope, info)
      ensures k < |old(allocVec)| ==>
        k in old(Free()) && Reusable(old(allocVec)[k], threadScope, info) && allocVec[k].constNbits == old(allocVec)[k].constNbits
      ensures k < |old(allocVec)| ==> forall j <- old(Free()) | j < |old(allocVec)| && Reusable(old(allocVec)[j], threadScope, info) ::
        !Better(old(allocVec)[j].constNbits, old(allocVec)[k].constNbits, ConstNbits(info))
    {
      hide Better, ConstNbits;
      k := FindAlloc(info, threadScope);
      allocVec := allocVec[k := allocVec[k].(allocs := allocVec[k].allocs + [Alloc(c, info)])];
    }

    lemma {:induction false} TakenDead(pattern: seq<StmtEntry>, i: nat, plan: Plan, free: seq<nat>, k: nat)
      requires FreeDead(pattern, i, plan.allocMap, free) && EntriesOf(pattern, i, plan)
      requires k in free || k == |plan.entries|
      ensures Dead(pattern, i, plan.allocMap, k)
    {
    }

    /** The allocation of c at point i. */
    method PlanAlloc(c: nat, info: AllocInfo, ghost pattern: seq<StmtEntry>, ghost i: nat)
      requires AllocatedOnce(pattern) && i < |pattern| && pattern[i].point == AllocPoint(c, info) && Planned(pattern, i) && Greedy(pattern, i, i)
      modifies `allocMap, `allocVec, `constFree, `symFree
      ensures Lists() && threadScope == ScopeAt(pattern, i + 1)
      ensures EntriesOf(pattern, i + 1, CurrentPlan()) && NeverTogether(pattern, i, allocMap) && FreeDead(pattern, i, allocMap, Free())
      ensures Greedy(pattern, i + 1, i)
    {
      hide SharesAll, FreeRight, EntriesMade, Better, Reusable, Compatible, Extends, EntriesOf, NeverTogether, AllocatedOnce, Regular, ConstNbits;
      ghost var plan, free := CurrentPlan(), Free();
      var k := TakeEntry(c, info);
      TakenDead(pattern, i, plan, free, k);
      AddAlloc(pattern, i, plan, k, allocVec, c, info, Free());
      NewBuffer(pattern, i, plan, c);
      ChosenBest(pattern, i, plan, k, c, info, free);
      allocMap := allocMap[c := k];
    }

    /** The entry that was found keeps the sharing right. */
    lemma {:induction false} ChosenBest(pattern: seq<StmtEntry>, i: nat, plan: Plan, k: nat, c: nat, info: AllocInfo, free: seq<nat>)
      requires AllocatedOnce(pattern) && i < |pattern| && pattern[i].point == AllocPoint(c, info)
      requires EntriesOf(pattern, i, plan) && c !in plan.allocMap && FreeDead(pattern, i, plan.allocMap, free)
      requires threadScope == ScopeAt(pattern, i) && plan.allocMap == allocMap && Extends(plan, k, allocVec, c, info)
      requires forall j: nat :: j in Free() <==> j in free && j != k
      requires Regular(pattern) && FitsBefore(pattern, i) ==>
        SharesAll(pattern, i, plan) && EntriesMade(plan) && FreeRight(pattern, i, plan, free, threadScope)
      requires k == |plan.entries| ==> forall j <- free | j < |plan.entries| :: !Reusable(plan.entries[j], threadScope, info)
      requires k == |plan.entries| ==> EntryMade(allocVec[k])
      requires k < |plan.entries| ==>
        k in free && Reusable(plan.entries[k], threadScope, info) && allocVec[k].constNbits == plan.entries[k].constNbits
      requires k < |plan.entries| ==> forall j <- free | j < |plan.entries| && Reusable(plan.entries[j], threadScope, info) ::
        !Better(plan.entries[j].constNbits, plan.entries[k].constNbits, ConstNbits(info))
      ensures Regular(pattern) && FitsBefore(pattern, i + 1) ==>
        var plan1 := Plan(allocMap[c := k], allocVec);
        SharesAll(pattern, i + 1, plan1) && EntriesMade(plan1) && FreeRight(pattern, i, plan1, Free(), threadScope)
    {
      hide SharesAll, FreeRight, Better, Reusable, EntriesOf, FreeDead, AllocatedOnce, ScopeAt;
      if Regular(pattern) && FitsBefore(pattern, i + 1) {
        assert TouchedFrom(pattern, i, c);
        assert k < |plan.entries| ==> EntryMade(plan.entries[k]);
        FreeRightTaken(pattern, i, plan, k, allocVec, c, info, free, Free(), threadScope);
        SharesNext(pattern, i, plan, k, allocVec, c, info, free);
      }
    }

    method PlanPoint(e: StmtEntry, ghost pattern: seq<StmtEntry>, ghost i: nat) returns (ok: bool)
      requires AllocatedOnce(pattern) && i < |pattern| && pattern[i] == e && Planned(pattern, i) && Greedy(pattern, i, i)
      modifies this
      ensures ok <==> ScopeFits(pattern, i)
      ensures ok ==> Lists() && threadScope == ScopeAt(pattern, i + 1)
      ensures ok ==> EntriesOf(pattern, i + 1, CurrentPlan()) && NeverTogether(pattern, i, allocMap) && FreeDead(pattern, i, allocMap, Free())
      ensures ok ==> Greedy(pattern, i + 1, i)
    {
      hide SharesAll, FreeRight, EntriesMade, Regular;
      ok := true;
      ghost var plan, free := CurrentPlan(), Free();
      match e.point {
        case AllocPoint(c, info) =>
          PlanAlloc(c, info, pattern, i);
        case LeafPoint =>
          NoAlloc(pattern, i, CurrentPlan());
          NoneShared(pattern, i, CurrentPlan());
        case ScopePoint(id, kind) =>
          NoAlloc(pattern, i, CurrentPlan());
          NoneShared(pattern, i, CurrentPlan());
          if kind == Thread || (kind == ParallelLoop && threadScope in {None, Some(id)}) {
            ok := PlanNewScope(id);
            if ok && Regular(pattern) && FitsBefore(pattern, i) && FreeRight(pattern, i, plan, free, ScopeAt(pattern, i)) {
              FreeRightScope(pattern, i, plan, free, Free(), id);
            }
          }
      }
    }

    /** Plans the storage of a program; fails where a thread node starts inside the scope of another one. */
    method PlanMemory(pattern: seq<StmtEntry>, freeLoc: FreeLoc) returns (ok: bool)
      requires AllocatedOnce(pattern) && FreesLastTouches(pattern, freeLoc, 0) && Planned(pattern, 0) && allocVec == []
      modifies this
      ensures ok <==> forall i | 0 <= i < |pattern| :: ScopeFits(pattern, i)
      ensures ok ==> GoodPlan(pattern, CurrentPlan()) && EntriesOf(pattern, |pattern|, CurrentPlan())
      ensures ok && Regular(pattern) ==> SharesAll(pattern, |pattern|, CurrentPlan())
    {
      hide SharesAll, FreeRight, Regular;
      StartGreedy(pattern, CurrentPlan(), Free(), threadScope);
      for i := 0 to |pattern|
        invariant Planned(pattern, i) && Greedy(pattern, i, i)
        invariant forall j | 0 <= j < i :: ScopeFits(pattern, j)
      {
        ok := PlanPoint(pattern[i], pattern, i);
        if !ok {
          return;
        }
        assert FreesAt(pattern, freeLoc, i);
        if i in freeLoc {
          FreeAll(freeLoc[i], pattern, i);
        } else {
          NextPoint(pattern, i, allocMap, Free());
          NextFree(pattern, i, CurrentPlan(), Free(), threadScope);
        }
      }
      PlannedGood(pattern, CurrentPlan());
      return true;
    }
  }

  /** Of two buffers of the same kind one after the other in one thread scope, the second one gets no entry of its own, if the kind is for
      numbers in global or shared memory, of more than 32 bits or of a size that is not constant. */
  lemma {:induction false} SharedInTurn(pattern: seq<StmtEntry>, plan: Plan, j: nat, i: nat, b: nat, c: nat, info: AllocInfo)
    requires SharesAll(pattern, |pattern|, plan) && j < i < |pattern| && ScopeAt(pattern, j) == ScopeAt(pattern, i)
    requires pattern[j].point == AllocPoint(b, info) && pattern[i].point == AllocPoint(c, info)
    requires info.rank <= 1 && !info.isHandle && (ConstNbits(info) == 0 || ConstNbits(info) > 32)
    requires b in plan.allocMap && plan.allocMap[b] < |plan.entries|
    requires var e := plan.entries[plan.allocMap[b]]; e.allocs != [] && e.allocs[0] == Alloc(b, info) && e.attach == ScopeAt(pattern, j)
    requires forall d <- plan.allocMap | plan.allocMap[d] == plan.allocMap[b] && AllocBefore(pattern, i, d) :: !TouchedFrom(pattern, i, d)
    ensures c in plan.allocMap && plan.allocMap[c] < |plan.entries|
    ensures plan.entries[plan.allocMap[c]].allocs != [] && plan.entries[plan.allocMap[c]].allocs[0].buffer != c
  {
    hide ScopeAt, ConstNbits;
    assert IsAlloc(pattern[j], b);
    assert SharedAt(pattern, i, plan, c, info);
    assert Available(pattern, i, plan, plan.allocMap[b], info) by {
      assert ConstNbits(info) / 16 <= ConstNbits(info) <= ConstNbits(info) * 16;
    }
  }

  lemma {:induction false} StartGreedy(pattern: seq<StmtEntry>, plan: Plan, free: seq<nat>, cur: Option<nat>)
    requires plan.entries == []
    ensures SharesAll(pattern, 0, plan) && EntriesMade(plan) && FreeRight(pattern, 0, plan, free, cur)
  {
  }

  /** A point that allocates nothing shares nothing. */
  lemma {:induction false} NoneShared(pattern: seq<StmtEntry>, i: nat, plan: Plan)
    requires i < |pattern| && !pattern[i].point.AllocPoint?
    ensures SharesAll(pattern, i, plan) ==> SharesAll(pattern, i + 1, plan)
  {
  }

  /** Without a last touch, no entry dies. */
  lemma {:induction false} NextFree(pattern: seq<StmtEntry>, i: nat, plan: Plan, free: seq<nat>, cur: Option<nat>)
    requires i < |pattern| && forall b: nat :: !LastTouch(pattern, i, b)
    ensures FreeRight(pattern, i, plan, free, cur) ==> FreeRight(pattern, i + 1, plan, free, cur)
  {
    hide MayShare, Dead, LastTouch;
    forall k | Dead(pattern, i + 1, plan.allocMap, k) ensures Dead(pattern, i, plan.allocMap, k) {
      DiesWith(pattern, i, plan.allocMap, k);
    }
  }

  lemma {:induction false} PlannedGood(pattern: seq<StmtEntry>, plan: Plan)
    requires EntriesOf(pattern, |pattern|, plan) && NeverTogether(pattern, |pattern|, plan.allocMap)
    ensures GoodPlan(pattern, plan)
  {
    forall k | 0 <= k < |plan.entries|
      ensures plan.entries[k].allocs != [] && forall a <- plan.entries[k].allocs :: a.buffer in plan.allocMap && plan.allocMap[a.buffer] == k
    {
      assert EntryOf(plan, k, pattern, |pattern|);
    }
    forall b, i | 0 <= i < |pattern| && IsAlloc(pattern[i], b) && b in plan.allocMap
      ensures Serves(plan.entries[plan.allocMap[b]], ScopeAt(pattern, i), b, pattern[i].point.info)
    {
    }
  }
}
