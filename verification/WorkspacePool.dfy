/** The best-fit pool of temporary device memory (src/runtime/workspace_pool.cc). */
module WorkspacePool {

  const PAGE_SIZE := 4096
  const NULL := 0

  /** A block: its address and its size. */
  datatype Entry = Entry(data: nat, size: nat)

  const GUARD := Entry(NULL, 0)

  /** The size in whole pages, and at least one. */
  function PageRounded(size: nat): (n: nat)
    ensures n >= size && n % PAGE_SIZE == 0 && n >= PAGE_SIZE && (n < size + PAGE_SIZE || size == 0)
  {
    var n := (size + (PAGE_SIZE - 1)) / PAGE_SIZE * PAGE_SIZE;
    if n == 0 then PAGE_SIZE else n
  }

  predicate Sorted(es: seq<Entry>) {
    forall i, j | 0 <= i < j < |es| :: es[i].size <= es[j].size
  }

  function InsertAt(es: seq<Entry>, i: nat, e: Entry): seq<Entry>
    requires i <= |es|
  {
    es[..i] + [e] + es[i..]
  }

  function RemoveAt(es: seq<Entry>, i: nat): seq<Entry>
    requires i < |es|
  {
    es[..i] + es[i + 1..]
  }

  lemma {:induction false} InsertBlocks(es: seq<Entry>, i: nat, e: Entry)
    requires 1 <= i <= |es|
    ensures multiset(InsertAt(es, i, e)[1..]) == multiset(es[1..]) + multiset{e}
  {
    assert InsertAt(es, i, e)[1..] == es[1..][..i - 1] + [e] + es[1..][i - 1..];
    assert es[1..] == es[1..][..i - 1] + es[1..][i - 1..];
  }

  lemma {:induction false} RemoveBlocks(es: seq<Entry>, i: nat)
    requires 1 <= i < |es|
    ensures multiset(RemoveAt(es, i)[1..]) == multiset(es[1..]) - multiset{es[i]} && es[i] in multiset(es[1..])
  {
    assert RemoveAt(es, i)[1..] == es[1..][..i - 1] + es[1..][i..];
    assert es[1..] == es[1..][..i - 1] + [es[i]] + es[1..][i..];
  }

  /** The blocks of the two lists, without the guards. */
  ghost function BlocksOf(free: seq<Entry>, used: seq<Entry>): multiset<Entry> {
    multiset(Behind(free)) + multiset(Behind(used))
  }

  function Behind(es: seq<Entry>): seq<Entry> {
    if es == [] then [] else es[1..]
  }

  /** The free list is sorted, both lists start with a guard, and all other sizes are whole pages. */
  ghost predicate Listed(free: seq<Entry>, used: seq<Entry>) {
    && free != [] && free[0] == GUARD && Sorted(free) && used != [] && used[0] == GUARD
    && (forall i | 1 <= i < |free| :: Paged(free[i])) && (forall i | 1 <= i < |used| :: Paged(used[i]))
  }

  predicate Paged(e: Entry) {
    e.size % PAGE_SIZE == 0 && e.size > 0
  }

  /** The device's blocks with their sizes, and the first address that was never given out. */
  datatype Device = Device(live: map<nat, nat>, unused: nat)

  /** Every block of the device is in blocks, once, with its size. */
  ghost predicate Owned(blocks: multiset<Entry>, d: Device) {
    && d.unused > 0
    && (forall e <- blocks :: blocks[e] == 1 && e.data != NULL && e.data < d.unused && e.data in d.live && d.live[e.data] == e.size)
    && (forall a <- d.live :: Entry(a, d.live[a]) in blocks)
  }

  lemma {:induction false} OwnedNew(blocks: multiset<Entry>, d: Device, size: nat)
    requires Owned(blocks, d)
    ensures Owned(blocks + multiset{Entry(d.unused, size)}, Device(d.live[d.unused := size], d.unused + 1)) && d.unused !in d.live
  {
  }

  lemma {:induction false} OwnedLess(blocks: multiset<Entry>, d: Device, e: Entry)
    requires Owned(blocks + multiset{e}, d)
    ensures Owned(blocks, d.(live := d.live - {e.data})) && e !in blocks && e.data in d.live
  {
    var all := blocks + multiset{e};
    assert all[e] == 1;
    forall f <- blocks ensures f in all && f.data != e.data {
    }
    forall f <- blocks ensures blocks[f] == 1 {
      assert all[f] == blocks[f];
    }
  }

  /** The device has as many blocks as are listed. */
  lemma {:induction false} OwnedCount(blocks: multiset<Entry>, d: Device)
    requires Owned(blocks, d)
    ensures |d.live| == |blocks|
    decreases |blocks|
  {
    hide Owned;
    if blocks == multiset{} {
      OwnedNone(d);
    } else {
      var e :| e in blocks;
      var rest := blocks - multiset{e};
      assert rest + multiset{e} == blocks;
      OwnedLess(rest, d, e);
      OneLess(d.live, e.data);
      OwnedCount(rest, d.(live := d.live - {e.data}));
    }
  }

  lemma {:induction false} OwnedNone(d: Device)
    requires Owned(multiset{}, d)
    ensures d.live == map[] && |d.live| == 0
  {
    assert forall a: nat :: a in d.live ==> Entry(a, d.live[a]) in multiset{};
  }

  lemma {:induction false} OneLess(live: map<nat, nat>, a: nat)
    requires a in live
    ensures |live| == |live - {a}| + 1
  {
    assert live.Keys == (live - {a}).Keys + {a};
  }

  lemma {:induction false} TakeFreeBlock(free: seq<Entry>, used: seq<Entry>, i: nat)
    requires Listed(free, used) && 1 <= i < |free|
    ensures Listed(RemoveAt(free, i), used) && BlocksOf(RemoveAt(free, i), used) + multiset{free[i]} == BlocksOf(free, used) && Paged(free[i])
  {
    RemoveBlocks(free, i);
  }

  lemma {:induction false} TakeUsedBlock(free: seq<Entry>, used: seq<Entry>, i: nat)
    requires Listed(free, used) && 1 <= i < |used|
    ensures Listed(free, RemoveAt(used, i)) && BlocksOf(free, RemoveAt(used, i)) + multiset{used[i]} == BlocksOf(free, used) && Paged(used[i])
  {
    RemoveBlocks(used, i);
  }

  lemma {:induction false} PutFreeBlock(free: seq<Entry>, used: seq<Entry>, k: nat, e: Entry)
    requires Listed(free, used) && 1 <= k <= |free| && Paged(e)
    requires (forall i | 0 <= i < k :: free[i].size <= e.size) && (forall i | k <= i < |free| :: free[i].size >= e.size)
    ensures Listed(InsertAt(free, k, e), used) && BlocksOf(InsertAt(free, k, e), used) == BlocksOf(free, used) + multiset{e}
  {
    InsertBlocks(free, k, e);
  }

  lemma {:induction false} PutUsedBlock(free: seq<Entry>, used: seq<Entry>, e: Entry)
    requires Listed(free, used) && Paged(e)
    ensures Listed(free, used + [e]) && BlocksOf(free, used + [e]) == BlocksOf(free, used) + multiset{e}
  {
    assert (used + [e])[1..] == used[1..] + [e];
  }

  class Pool {
    /** Free blocks by size, and blocks that are in use, each behind a guard entry. */
    var freeList: seq<Entry>
    var inUse: seq<Entry>
    var device: Device

    constructor ()
      ensures Valid() && freeList == [GUARD] && inUse == [GUARD] && device.live == map[]
    {
      freeList, inUse, device := [GUARD], [GUARD], Device(map[], 1);
    }

    /** The pool and the block in hand, if there is one, hold every block of the device once. */
    ghost predicate Holding(hand: multiset<Entry>)
      reads `freeList, `inUse, `device
    {
      Listed(freeList, inUse) && Owned(BlocksOf(freeList, inUse) + hand, device) && forall e <- hand :: Paged(e)
    }

    /** The two lists hold every block of the device once. */
    ghost predicate Valid()
      reads this
    {
      Holding(multiset{})
    }

    lemma {:induction false} NumberOfBlocks()
      requires Valid()
      ensures freeList != [] && inUse != [] && |device.live| == |freeList| + |inUse| - 2
    {
      var blocks := BlocksOf(freeList, inUse);
      assert blocks + multiset{} == blocks;
      OwnedCount(blocks, device);
    }

    lemma {:induction false} Guards(hand: multiset<Entry>)
      requires Holding(hand)
      ensures freeList != [] && freeList[0] == GUARD && Sorted(freeList) && inUse != [] && inUse[0] == GUARD
      ensures forall i | 1 <= i < |freeList| :: Paged(freeList[i])
      ensures forall e <- hand :: Paged(e) && e.data != NULL
    {
    }

    method AllocDataSpace(size: nat) returns (e: Entry)
      requires Holding(multiset{}) && size > 0 && size % PAGE_SIZE == 0
      modifies `device
      ensures e.size == size && e.data !in old(device.live) && Holding(multiset{e})
    {
      hide BlocksOf, Owned;
      ghost var blocks := BlocksOf(freeList, inUse);
      assert blocks + multiset{} == blocks;
      OwnedNew(blocks, device, size);
      e := Entry(device.unused, size);
      device := Device(device.live[device.unused := size], device.unused + 1);
    }

    method FreeDataSpace(e: Entry)
      requires Holding(multiset{e})
      modifies `device
      ensures Holding(multiset{}) && device.live == old(device.live) - {e.data}
    {
      hide BlocksOf, Owned;
      ghost var blocks := BlocksOf(freeList, inUse);
      OwnedLess(blocks, device, e);
      device := device.(live := device.live - {e.data});
      assert blocks + multiset{} == blocks;
    }

    /** Takes block i out of the free list. */
    method TakeFree(i: nat) returns (e: Entry)
      requires Holding(multiset{}) && 1 <= i < |freeList|
      modifies `freeList
      ensures e == old(freeList)[i] && freeList == RemoveAt(old(freeList), i) && Holding(multiset{e})
    {
      hide BlocksOf, Owned, Listed, Paged, RemoveAt;
      assert BlocksOf(freeList, inUse) + multiset{} == BlocksOf(freeList, inUse);
      TakeFreeBlock(freeList, inUse, i);
      e := freeList[i];
      freeList := RemoveAt(freeList, i);
    }

    /** Puts a block in use. */
    method Use(e: Entry)
      requires Holding(multiset{e})
      modifies `inUse
      ensures inUse == old(inUse) + [e] && Holding(multiset{})
    {
      hide BlocksOf, Owned, Listed;
      PutUsedBlock(freeList, inUse, e);
      inUse := inUse + [e];
      assert BlocksOf(freeList, inUse) + multiset{} == BlocksOf(freeList, inUse);
    }

    method TakeUsed(i: nat) returns (e: Entry)
      requires Holding(multiset{}) && 1 <= i < |inUse|
      modifies `inUse
      ensures e == old(inUse)[i] && inUse == RemoveAt(old(inUse), i) && Holding(multiset{e})
    {
      hide BlocksOf, Owned, Listed, Paged, RemoveAt;
      assert BlocksOf(freeList, inUse) + multiset{} == BlocksOf(freeList, inUse);
      TakeUsedBlock(freeList, inUse, i);
      e := inUse[i];
      inUse := RemoveAt(inUse, i);
    }

    method PutFree(k: nat, e: Entry)
      requires Holding(multiset{e}) && 1 <= k <= |freeList|
      requires (forall i | 0 <= i < k :: freeList[i].size <= e.size) && (forall i | k <= i < |freeList| :: freeList[i].size >= e.size)
      modifies `freeList
      ensures freeList == InsertAt(old(freeList), k, e) && Holding(multiset{})
    {
      hide BlocksOf, Owned, Listed, InsertAt;
      PutFreeBlock(freeList, inUse, k, e);
      freeList := InsertAt(freeList, k, e);
      assert BlocksOf(freeList, inUse) + multiset{} == BlocksOf(freeList, inUse);
    }

    /** The first block that is large enough, in a list whose last one is. */
    method SmallestFit(n: nat) returns (i: nat)
      requires Sorted(freeList) && |freeList| >= 2 && freeList[0].size < n <= freeList[|freeList| - 1].size
      ensures 1 <= i < |freeList| && freeList[i].size >= n && forall j | 0 <= j < i :: freeList[j].size < n
    {
      i := |freeList| - 1;
      while freeList[i - 1].size >= n
        invariant 1 <= i < |freeList| && freeList[i].size >= n
        decreases i
      {
        i := i - 1;
      }
    }

    /** A block of at least the rounded size: the smallest free one that fits (at place at), or, when none fits, a new one,
        in place of the largest free one if there is any. */
    method Alloc(size: nat) returns (e: Entry, ghost at: nat)
      requires Valid()
      modifies this
      ensures Valid() && inUse == old(inUse) + [e] && e.size >= PageRounded(size) && e.data != NULL
      ensures old(freeList) != []
      ensures var fits := old(freeList)[|old(freeList)| - 1].size >= PageRounded(size);
        if fits then
          && 1 <= at < |old(freeList)| && e == old(freeList)[at] && freeList == RemoveAt(old(freeList), at)
          && (forall i | 0 <= i < |old(freeList)| && old(freeList)[i].size >= PageRounded(size) :: e.size <= old(freeList)[i].size)
        else
          && e.size == PageRounded(size) && freeList == (if |old(freeList)| == 1 then old(freeList) else RemoveAt(old(freeList), |old(freeList)| - 1))
    {
      hide BlocksOf, Owned, Listed, Holding;
      Guards(multiset{});
      var n := PageRounded(size);
      var last := |freeList| - 1;
      at := last;
      if last == 0 {
        e := AllocDataSpace(n);
      } else if freeList[last].size >= n {
        var i := last;
        if last > 1 {
          i := SmallestFit(n);
        }
        at := i;
        e := TakeFree(i);
      } else {
        e := TakeFree(last);
        FreeDataSpace(e);
        e := AllocDataSpace(n);
      }
      Guards(multiset{e});
      Use(e);
    }

    /** The place of a block that is in use; 0 if there is none with this address. */
    method FindUsed(data: nat) returns (index: nat)
      requires inUse != []
      ensures index < |inUse| && (index > 0 ==> inUse[index].data == data)
      ensures index == 0 ==> forall i | 1 <= i < |inUse| :: inUse[i].data != data
    {
      index := |inUse| - 1;
      while index > 0 && inUse[index].data != data
        invariant index < |inUse|
        invariant forall i | index < i < |inUse| :: inUse[i].data != data
      {
        index := index - 1;
      }
    }

    /** The first place behind all blocks that are not larger. */
    method FindPlace(size: nat) returns (k: nat)
      requires freeList != [] && freeList[0].size <= size && Sorted(freeList)
      ensures 1 <= k <= |freeList| && (forall i | 0 <= i < k :: freeList[i].size <= size) && (forall i | k <= i < |freeList| :: freeList[i].size > size)
    {
      var i := |freeList| - 1;
      while size < freeList[i].size
        invariant 0 <= i < |freeList|
        invariant forall j | i < j < |freeList| :: freeList[j].size > size
        decreases i
      {
        i := i - 1;
      }
      k := i + 1;
    }

    /** Gives a block back to the pool; fails when no block in use has this address. It was at place from in the list of
        blocks in use, and is at place to in the free list. */
    method Free(data: nat) returns (ok: bool, ghost from: nat, ghost to: nat)
      requires Valid() && data != NULL
      modifies `freeList, `inUse
      ensures Valid() && inUse != []
      ensures ok <==> 1 <= from < |old(inUse)| && old(inUse)[from].data == data
      ensures !ok ==> freeList == old(freeList) && inUse == old(inUse) && forall i | 1 <= i < |inUse| :: inUse[i].data != data
      ensures ok ==> 1 <= to <= |old(freeList)| && inUse == RemoveAt(old(inUse), from) && freeList == InsertAt(old(freeList), to, old(inUse)[from])
    {
      hide BlocksOf, Owned, Listed, Holding;
      Guards(multiset{});
      var index := FindUsed(data);
      from, to := index, 0;
      if index == 0 {
        return false, from, to;
      }
      var e := TakeUsed(index);
      var k := |freeList|;
      Guards(multiset{e});
      if freeList[|freeList| - 1].size < e.size {
      } else if |freeList| == 2 {
        k := 1;
      } else {
        k := FindPlace(e.size);
      }
      to := k;
      PutFree(k, e);
      Guards(multiset{});
      return true, from, to;
    }

    /** Returns all blocks to the device; fails while any is in use. The guard of the free list goes too. */
    method Release() returns (ok: bool)
      requires Valid()
      modifies this
      ensures ok <==> |old(inUse)| == 1
      ensures ok ==> device.live == map[] && freeList == []
      ensures !ok ==> Valid() && device == old(device) && freeList == old(freeList) && inUse == old(inUse)
    {
      if |inUse| != 1 {
        return false;
      }
      var list := freeList;
      ReleaseStart(freeList, inUse, device);
      for i := 1 to |list|
        invariant Owned(multiset(list[i..]), device)
      {
        ReleaseStep(list, i, device);
        device := device.(live := device.live - {list[i].data});
      }
      freeList := [];
      return true;
    }
  }

  lemma {:induction false} ReleaseStart(free: seq<Entry>, used: seq<Entry>, d: Device)
    requires Listed(free, used) && |used| == 1 && Owned(BlocksOf(free, used) + multiset{}, d)
    ensures Owned(multiset(free[1..]), d)
  {
    assert BlocksOf(free, used) + multiset{} == multiset(free[1..]);
  }

  lemma {:induction false} ReleaseStep(list: seq<Entry>, i: nat, d: Device)
    requires i < |list| && Owned(multiset(list[i..]), d)
    ensures Owned(multiset(list[i + 1..]), d.(live := d.live - {list[i].data}))
  {
    assert list[i..] == [list[i]] + list[i + 1..];
    assert multiset(list[i..]) == multiset(list[i + 1..]) + multiset{list[i]};
    OwnedLess(multiset(list[i + 1..]), d, list[i]);
  }

  // ----- runs -----

  /** A call of the client: a size to allocate, or the place of a block in use, to free. Nothing is freed at a place without
      a block. */
  datatype Call = AllocCall(size: nat) | FreeCall(index: nat)

  /** The number of blocks in use after a call, when n are in use before it. */
  function UsedAfter(n: nat, c: Call): nat {
    match c
    case AllocCall(_) => n + 1
    case FreeCall(index) => if 1 <= index <= n then n - 1 else n
  }

  /** The numbers of blocks in use: n at first, and then after each call. */
  function Counts(n: nat, calls: seq<Call>): (counts: seq<nat>)
    ensures |counts| == |calls| + 1 && counts[0] == n
    ensures forall i | 0 <= i < |calls| :: counts[i + 1] == UsedAfter(counts[i], calls[i])
  {
    if calls == [] then [n]
    else
      var before := Counts(n, calls[..|calls| - 1]);
      before + [UsedAfter(before[|calls| - 1], calls[|calls| - 1])]
  }

  function Largest(counts: seq<nat>): (m: nat)
    requires counts != []
    ensures m in counts && forall n <- counts :: n <= m
  {
    var last := counts[|counts| - 1];
    if |counts| == 1 then last
    else
      var m := Largest(counts[..|counts| - 1]);
      assert forall n <- counts :: n == last || n in counts[..|counts| - 1];
      if m > last then m else last
  }

  function Max(a: nat, b: nat): nat {
    if a > b then a else b
  }

  lemma {:induction false} OneMoreCall(n: nat, calls: seq<Call>, c: nat)
    requires c < |calls|
    ensures var counts := Counts(n, calls[..c]);
      && Counts(n, calls[..c + 1]) == counts + [UsedAfter(counts[c], calls[c])]
      && Largest(Counts(n, calls[..c + 1])) == Max(Largest(counts), UsedAfter(counts[c], calls[c]))
  {
    var counts, next := Counts(n, calls[..c]), UsedAfter(Counts(n, calls[..c])[c], calls[c]);
    assert calls[..c + 1][..c] == calls[..c];
    assert (counts + [next])[..|counts|] == counts;
  }

  /** Through any sequence of calls the device has as many blocks as were ever in use at once, or as it had before if these
      were more, and no two blocks in use share an address. */
  method Serve(pool: Pool, calls: seq<Call>)
    requires pool.Valid()
    modifies pool
    ensures pool.Valid() && old(pool.inUse) != [] && |pool.inUse| - 1 == Counts(|old(pool.inUse)| - 1, calls)[|calls|]
    ensures |pool.device.live| == Max(|old(pool.device.live)|, Largest(Counts(|old(pool.inUse)| - 1, calls)))
    ensures forall i, j | 1 <= i < j < |pool.inUse| :: pool.inUse[i].data != pool.inUse[j].data
  {
    hide BlocksOf, Owned, Listed, Pool.Holding, Counts, Largest;
    pool.Guards(multiset{});
    pool.NumberOfBlocks();
    ghost var n, blocks := |pool.inUse| - 1, |pool.device.live|;
    NoCalls(n);
    for c := 0 to |calls|
      invariant pool.Valid() && pool.freeList != [] && pool.inUse != [] && |pool.inUse| - 1 == Counts(n, calls[..c])[c]
      invariant |pool.freeList| + |pool.inUse| - 2 == Max(blocks, Largest(Counts(n, calls[..c])))
    {
      OneMoreCall(n, calls, c);
      pool.Guards(multiset{});
      match calls[c] {
        case AllocCall(size) =>
          var e, at := pool.Alloc(size);
        case FreeCall(index) =>
          if 1 <= index < |pool.inUse| {
            UsedAddress(pool, index);
            var ok, from, to := pool.Free(pool.inUse[index].data);
          }
      }
      pool.Guards(multiset{});
    }
    assert calls[..|calls|] == calls;
    pool.NumberOfBlocks();
    UsedDistinct(pool);
  }

  lemma {:induction false} NoCalls(n: nat)
    ensures Counts(n, []) == [n] && Largest([n]) == n
  {
  }

  lemma {:induction false} UsedAddress(pool: Pool, i: nat)
    requires pool.Valid() && 1 <= i < |pool.inUse|
    ensures pool.inUse[i].data != NULL
  {
    var blocks := BlocksOf(pool.freeList, pool.inUse);
    assert blocks + multiset{} == blocks;
    assert pool.inUse[i] == pool.inUse[1..][i - 1];
    assert pool.inUse[i] in blocks;
  }

  lemma {:induction false} UsedDistinct(pool: Pool)
    requires pool.Valid()
    ensures forall i, j | 1 <= i < j < |pool.inUse| :: pool.inUse[i].data != pool.inUse[j].data
  {
    var blocks := BlocksOf(pool.freeList, pool.inUse);
    assert blocks + multiset{} == blocks;
    forall i, j | 1 <= i < j < |pool.inUse| ensures pool.inUse[i].data != pool.inUse[j].data {
      TwoUsed(pool.freeList, pool.inUse, i, j, pool.device);
    }
  }

  lemma {:induction false} TwoUsed(free: seq<Entry>, used: seq<Entry>, i: nat, j: nat, d: Device)
    requires 1 <= i < j < |used| && Owned(BlocksOf(free, used), d)
    ensures used[i].data != used[j].data
  {
    var blocks, rest := BlocksOf(free, used), RemoveAt(used, i);
    RemoveBlocks(used, i);
    assert rest[1..][j - 2] == used[j];
    assert used[j] in multiset(rest[1..]);
    assert blocks == multiset(rest[1..]) + multiset(Behind(free)) + multiset{used[i]};
    OwnedLess(multiset(rest[1..]) + multiset(Behind(free)), d, used[i]);
    assert used[i] != used[j];
  }
}
