/** Growing rings that refine a plain queue: the byte ring (src/common/ring_buffer.h) and the task ring
    (src/runtime/thread_pool.cc, ParallelTaskQueue). */
module Rings {

  /** The count elements from head on, around the end of the ring. */
  function Contents<T>(ring: seq<T>, head: nat, count: nat): (c: seq<T>)
    requires head < |ring| && count <= |ring|
    ensures |c| == count
  {
    seq(count, i requires 0 <= i < count => ring[Place(ring, head, i)])
  }

  /** The place of element i. */
  function Place<T>(ring: seq<T>, head: nat, i: nat): (p: nat)
    requires head < |ring| && i <= |ring|
    ensures p < |ring|
  {
    if head + i < |ring| then head + i else head + i - |ring|
  }

  /** The ring with es written from place p on, which must fit before the end. */
  function Overwrite<T>(ring: seq<T>, p: nat, es: seq<T>): (r: seq<T>)
    requires p + |es| <= |ring|
    ensures |r| == |ring|
    ensures forall i | 0 <= i < |ring| :: r[i] == if p <= i < p + |es| then es[i - p] else ring[i]
  {
    ring[..p] + es + ring[p + |es|..]
  }

  /** A larger ring keeps the contents, once what was around the end is copied behind the old end. */
  lemma {:induction false} Grown<T>(ring: seq<T>, ring1: seq<T>, head: nat, count: nat)
    requires head < |ring| && count <= |ring| && |ring1| >= 2 * |ring|
    requires forall i | 0 <= i < |ring| :: ring1[i] == ring[i]
    requires head + count > |ring| ==> forall i | 0 <= i < head + count - |ring| :: ring1[|ring| + i] == ring[i]
    ensures Contents(ring1, head, count) == Contents(ring, head, count)
  {
    forall i | 0 <= i < count ensures Contents(ring1, head, count)[i] == Contents(ring, head, count)[i] {
      if head + i >= |ring| {
        assert ring1[|ring| + (head + i - |ring|)] == ring[head + i - |ring|];
      }
    }
  }

  /** Writing behind the contents, around the end if need be, appends. */
  lemma {:induction false} Appended<T>(ring: seq<T>, ring1: seq<T>, head: nat, count: nat, es: seq<T>)
    requires head < |ring| && |ring1| == |ring| && count + |es| <= |ring|
    requires forall i | 0 <= i < count :: ring1[Place(ring, head, i)] == ring[Place(ring, head, i)]
    requires forall i | 0 <= i < |es| :: ring1[Place(ring, head, count + i)] == es[i]
    ensures Contents(ring1, head, count + |es|) == Contents(ring, head, count) + es
  {
    forall i | 0 <= i < count + |es| ensures Contents(ring1, head, count + |es|)[i] == (Contents(ring, head, count) + es)[i] {
      if i >= count {
        assert ring1[Place(ring, head, count + (i - count))] == es[i - count];
      }
    }
  }

  /** Data written behind contents that go around the end. */
  lemma {:induction false} AppendedBehind<T>(ring: seq<T>, head: nat, count: nat, es: seq<T>)
    requires head < |ring| && count + |es| <= |ring| && head + count >= |ring|
    ensures Contents(Overwrite(ring, head + count - |ring|, es), head, count + |es|) == Contents(ring, head, count) + es
  {
    Appended(ring, Overwrite(ring, head + count - |ring|, es), head, count, es);
  }

  /** Data written up to the end of the ring, and the rest at its start. */
  lemma {:induction false} AppendedAround<T>(ring: seq<T>, head: nat, count: nat, a: seq<T>, b: seq<T>)
    requires head < |ring| && count + |a| + |b| <= |ring| && head + count + |a| <= |ring|
    requires b == [] || head + count + |a| == |ring|
    ensures var ring1 := Overwrite(Overwrite(ring, head + count, a), 0, b);
      Contents(ring1, head, count + |a| + |b|) == Contents(ring, head, count) + (a + b)
  {
    Appended(ring, Overwrite(Overwrite(ring, head + count, a), 0, b), head, count, a + b);
  }

  lemma {:induction false} NothingWritten<T>(ring: seq<T>)
    requires |ring| > 0
    ensures Overwrite(ring, 0, []) == ring
  {
  }

  /** Moving the head drops elements from the front. */
  lemma {:induction false} Dropped<T>(ring: seq<T>, head: nat, count: nat, n: nat)
    requires head < |ring| && n <= count <= |ring|
    ensures (head + n) % |ring| < |ring|
    ensures Contents(ring, (head + n) % |ring|, count - n) == Contents(ring, head, count)[n..]
  {
    assert (head + n) % |ring| == if head + n < |ring| then head + n else head + n - |ring| by {
      Wrapped(head + n, |ring|);
    }
  }

  lemma {:induction false} Wrapped(x: nat, n: nat)
    requires n > 0 && x < 2 * n
    ensures x % n == if x < n then x else x - n
  {
  }

  /** What is read up to the end of the ring, and from its start. */
  lemma {:induction false} Front<T>(ring: seq<T>, head: nat, count: nat, size: nat)
    requires head < |ring| && size <= count <= |ring|
    ensures var ncopy := if size < |ring| - head then size else |ring| - head;
      && ring[head..head + ncopy] == Contents(ring, head, count)[..ncopy]
      && ring[head..head + ncopy] + ring[..size - ncopy] == Contents(ring, head, count)[..size]
  {
  }

  /** What a reader takes of the two parts is a prefix of the contents. */
  lemma {:induction false} FrontTaken<T>(ring: seq<T>, head: nat, count: nat, size: nat, ncopy: nat, k: nat, m: nat)
    requires head < |ring| && size <= count <= |ring| && ncopy == if size < |ring| - head then size else |ring| - head
    requires k <= ncopy && m <= size - ncopy
    ensures ring[head..head + ncopy][..k] == Contents(ring, head, count)[..k]
    ensures ring[head..head + ncopy] + ring[..size - ncopy][..m] == Contents(ring, head, count)[..ncopy + m]
    ensures Contents(ring, head, count - k) == Contents(ring, head, count)[..count - k]
    ensures Contents(ring, head, count - (ncopy + m)) == Contents(ring, head, count)[..count - (ncopy + m)]
  {
  }

  /** A callback takes no more than it is offered. */
  ghost predicate TakesAtMost(fsend: seq<int> -> nat) {
    forall s: seq<int> :: fsend(s) <= |s|
  }

  /** The number of bytes that the callbacks take of the first size bytes: the second one is asked only if the first took
      all up to the end of the ring. */
  ghost function Taken(ring: seq<int>, head: nat, size: nat, fsend: seq<int> -> nat, fsend2: seq<int> -> nat): (n: nat)
    requires head < |ring| && size <= |ring| && TakesAtMost(fsend) && TakesAtMost(fsend2)
    ensures n <= size
  {
    var ncopy := if size < |ring| - head then size else |ring| - head;
    var n := fsend(ring[head..head + ncopy]);
    if n == ncopy && ncopy < size then n + fsend2(ring[..size - ncopy]) else n
  }

  /** What the callbacks take is a prefix, and without so many bytes a prefix is left. */
  lemma {:induction false} FrontSent(ring: seq<int>, head: nat, count: nat, size: nat, ncopy: nat, fsend: seq<int> -> nat,
                                     fsend2: seq<int> -> nat, sent: seq<int>)
    requires head < |ring| && size <= count <= |ring| && TakesAtMost(fsend) && TakesAtMost(fsend2)
    requires ncopy == if size < |ring| - head then size else |ring| - head
    requires var first, rest := ring[head..head + ncopy], ring[..size - ncopy];
      sent == if fsend(first) == ncopy && ncopy < size then first + rest[..fsend2(rest)] else first[..fsend(first)]
    ensures |sent| == Taken(ring, head, size, fsend, fsend2) && sent <= Contents(ring, head, count)
    ensures Contents(ring, head, count - |sent|) == Contents(ring, head, count)[..count - |sent|]
  {
    hide Contents;
    var k := fsend(ring[head..head + ncopy]);
    var m := if k == ncopy && ncopy < size then fsend2(ring[..size - ncopy]) else 0;
    FrontTaken(ring, head, count, size, ncopy, k, m);
    assert sent == Contents(ring, head, count)[..k + m];
  }

  method Offer(fsend: seq<int> -> nat, s: seq<int>) returns (n: nat)
    requires TakesAtMost(fsend)
    ensures n == fsend(s) <= |s|
  {
    n := fsend(s);
  }

  class RingBuffer {
    var ring: seq<int>
    var headPtr: nat
    var bytesAvailable: nat

    constructor ()
      ensures Valid() && Bytes() == []
    {
      ring, headPtr, bytesAvailable := seq(4096, _ => 0), 0, 0;
    }

    predicate Valid()
      reads this
    {
      headPtr < |ring| && bytesAvailable <= |ring|
    }

    /** The bytes in the buffer, the oldest first. */
    function Bytes(): seq<int>
      requires Valid()
      reads this
    {
      Contents(ring, headPtr, bytesAvailable)
    }

    /** Makes room for n bytes, doubling as often as needed. */
    method Reserve(n: nat)
      requires Valid()
      modifies `ring
      ensures Valid() && Bytes() == old(Bytes()) && |ring| >= n && |ring| >= |old(ring)|
    {
      if |ring| >= n {
        return;
      }
      var oldSize, newSize := |ring|, |ring|;
      while newSize < n
        invariant newSize >= oldSize && (newSize == oldSize || newSize >= 2 * oldSize)
        decreases n - newSize
      {
        newSize := newSize * 2;
      }
      var grown := ring + seq(newSize - oldSize, _ => 0);
      if headPtr + bytesAvailable > oldSize {
        var ncopy := headPtr + bytesAvailable - oldSize;
        grown := Overwrite(grown, oldSize, grown[..ncopy]);
      }
      Grown(ring, grown, headPtr, bytesAvailable);
      ring := grown;
    }

    /** Takes size bytes from the front; fails when there are fewer. */
    method Read(size: nat) returns (ok: bool, data: seq<int>)
      requires Valid()
      modifies `headPtr, `bytesAvailable
      ensures Valid() && (ok <==> size <= |old(Bytes())|)
      ensures ok ==> old(Bytes()) == data + Bytes() && |data| == size
      ensures !ok ==> Bytes() == old(Bytes())
    {
      hide Contents;
      data := [];
      if bytesAvailable < size {
        return false, data;
      }
      var ncopy := if size < |ring| - headPtr then size else |ring| - headPtr;
      data := ring[headPtr..headPtr + ncopy];
      if ncopy < size {
        data := data + ring[..size - ncopy];
      }
      Dropped(ring, headPtr, bytesAvailable, size);
      Front(ring, headPtr, bytesAvailable, size);
      assert Bytes() == Bytes()[..size] + Bytes()[size..];
      headPtr := (headPtr + size) % |ring|;
      bytesAvailable := bytesAvailable - size;
      return true, data;
    }

    /** Appends all of the data. */
    method Write(data: seq<int>)
      requires Valid()
      modifies this
      ensures Valid() && Bytes() == old(Bytes()) + data
    {
      hide Contents, Overwrite;
      Reserve(bytesAvailable + |data|);
      var tail := headPtr + bytesAvailable;
      if tail >= |ring| {
        AppendedBehind(ring, headPtr, bytesAvailable, data);
        ring := Overwrite(ring, tail - |ring|, data);
      } else {
        var ncopy := if |ring| - tail < |data| then |ring| - tail else |data|;
        AppendedAround(ring, headPtr, bytesAvailable, data[..ncopy], data[ncopy..]);
        assert data[..ncopy] + data[ncopy..] == data;
        ring := Overwrite(ring, tail, data[..ncopy]);
        NothingWritten(ring);
        if ncopy < |data| {
          ring := Overwrite(ring, 0, data[ncopy..]);
        }
      }
      bytesAvailable := bytesAvailable + |data|;
    }

    /** Appends what a callback delivers: it is offered the room at the end of the ring first, and, only if it fills that, the
        rest at the start of the ring. The callbacks may deliver fewer bytes than they are offered room for. */
    method WriteWithCallback(frecv: nat -> seq<int>, frecv2: nat -> seq<int>, maxBytes: nat)
      returns (received: seq<int>, ghost room: nat)
      requires Valid() && DeliversAtMost(frecv, frecv2)
      modifies this
      ensures Valid() && Bytes() == old(Bytes()) + received && |received| <= maxBytes
      ensures Received(frecv, frecv2, maxBytes, room, received)
    {
      hide Contents, Overwrite;
      Reserve(bytesAvailable + maxBytes);
      var tail := headPtr + bytesAvailable;
      if tail >= |ring| {
        room := maxBytes;
        received := frecv(maxBytes);
        AppendedBehind(ring, headPtr, bytesAvailable, received);
        ring := Overwrite(ring, tail - |ring|, received);
      } else {
        var ncopy := if |ring| - tail < maxBytes then |ring| - tail else maxBytes;
        room := ncopy;
        received := frecv(ncopy);
        var more := [];
        if |received| == ncopy && ncopy < maxBytes {
          more := frecv2(maxBytes - ncopy);
        }
        AppendedAround(ring, headPtr, bytesAvailable, received, more);
        ring := Overwrite(Overwrite(ring, tail, received), 0, more);
        received := received + more;
      }
      bytesAvailable := bytesAvailable + |received|;
    }

    /** Hands bytes from the front to a callback, which takes sent of them. The head does not move: what is left is the front
        again, not the rest. Fails when there is nothing to send. */
    method ReadWithCallback(fsend: seq<int> -> nat, fsend2: seq<int> -> nat, maxBytes: nat) returns (ok: bool, sent: seq<int>)
      requires Valid() && TakesAtMost(fsend) && TakesAtMost(fsend2)
      modifies `bytesAvailable
      ensures Valid() && (ok <==> maxBytes > 0 && old(bytesAvailable) > 0)
      ensures ok ==> sent <= old(Bytes()) && |sent| <= maxBytes && Bytes() == old(Bytes())[..|old(Bytes())| - |sent|]
      ensures ok ==> |sent| == Taken(ring, headPtr, if maxBytes < old(bytesAvailable) then maxBytes else old(bytesAvailable), fsend, fsend2)
      ensures !ok ==> sent == [] && Bytes() == old(Bytes())
    {
      hide Contents, TakesAtMost, Taken;
      sent := [];
      var size := if maxBytes < bytesAvailable then maxBytes else bytesAvailable;
      if size == 0 {
        return false, sent;
      }
      var ncopy := if size < |ring| - headPtr then size else |ring| - headPtr;
      var first, rest := ring[headPtr..headPtr + ncopy], ring[..size - ncopy];
      var nsend := Offer(fsend, first);
      if ncopy == nsend && ncopy < size {
        var nsend2 := Offer(fsend2, rest);
        sent := first + rest[..nsend2];
        nsend := nsend + nsend2;
      } else {
        sent := first[..nsend];
      }
      FrontSent(ring, headPtr, bytesAvailable, size, ncopy, fsend, fsend2, sent);
      bytesAvailable := bytesAvailable - nsend;
      return true, sent;
    }

    /** One operation: what it delivers goes in at the end, what it reads comes out of the front. */
    method ServeOne(op: Op) returns (ok: bool, read: seq<int>, ghost part: seq<int>)
      requires Valid() && (op.Receive? ==> DeliversAtMost(op.frecv, op.frecv2))
      modifies this
      ensures Valid() && (ok <==> !(op.Read? && op.size > |old(Bytes())|))
      ensures ok ==> Delivers(op, part) && old(Bytes()) + part == read + Bytes() && |read| == ReadSize(op)
      ensures !ok ==> Bytes() == old(Bytes())
    {
      hide Contents;
      ok, read, part := true, [], [];
      match op {
        case Reserve(n) =>
          Reserve(n);
        case Write(data) =>
          Write(data);
          part := data;
        case Receive(frecv, frecv2, maxBytes) =>
          var received, room := WriteWithCallback(frecv, frecv2, maxBytes);
          part := received;
          assert Received(frecv, frecv2, maxBytes, room, part);
        case Read(size) =>
          ok, read := Read(size);
      }
      assert ok ==> Bytes() + [] == Bytes() == [] + Bytes();
    }

    /** Any interleaving of the operations behaves as a queue: what was in the buffer and what was delivered since is what was
        read since, in that order, and what is still in the buffer. It goes on until more is to be read than is there. */
    method Serve(ops: seq<Op>) returns (ok: bool, out: seq<int>, ghost parts: seq<seq<int>>)
      requires Valid() && forall op <- ops | op.Receive? :: DeliversAtMost(op.frecv, op.frecv2)
      modifies this
      ensures Valid() && |parts| <= |ops| && (ok <==> |parts| == |ops|)
      ensures forall i | 0 <= i < |parts| :: Delivers(ops[i], parts[i])
      ensures old(Bytes()) + Flat(parts) == out + Bytes() && |out| == SizeRead(ops[..|parts|])
      ensures !ok ==> ops[|parts|].Read? && ops[|parts|].size > |Bytes()|
    {
      hide Contents, Delivers, DeliversAtMost, Flat, SizeRead, ReadSize;
      ok, out, parts := true, [], [];
      ghost var start := Bytes();
      ServedNothing(ops, start);
      for i := 0 to |ops|
        invariant Valid() && |parts| == i && start + Flat(parts) == out + Bytes() && |out| == SizeRead(ops[..i])
        invariant forall k | 0 <= k < i :: Delivers(ops[k], parts[k])
      {
        ghost var was, part := Bytes(), [];
        var read;
        ok, read, part := ServeOne(ops[i]);
        if !ok {
          return false, out, parts;
        }
        ServedOne(ops, i, parts, part, start, was, out, read, Bytes());
        out, parts := out + read, parts + [part];
      }
      assert ops[..|ops|] == ops;
    }
  }

  datatype Op =
    | Reserve(n: nat)
    | Write(data: seq<int>)
    | Receive(frecv: nat -> seq<int>, frecv2: nat -> seq<int>, maxBytes: nat)
    | Read(size: nat)

  /** Callbacks deliver no more than there is room for. */
  ghost predicate DeliversAtMost(frecv: nat -> seq<int>, frecv2: nat -> seq<int>) {
    forall n: nat :: |frecv(n)| <= n && |frecv2(n)| <= n
  }

  /** A first call is offered some room, and a second one the rest of it, if the first filled all that it was offered. */
  ghost predicate Received(frecv: nat -> seq<int>, frecv2: nat -> seq<int>, maxBytes: nat, room: nat, part: seq<int>) {
    && room <= maxBytes && (room == 0 ==> maxBytes == 0)
    && part == if room < maxBytes && |frecv(room)| == room then frecv(room) + frecv2(maxBytes - room) else frecv(room)
  }

  ghost predicate Delivers(op: Op, part: seq<int>) {
    match op
    case Write(data) => part == data
    case Receive(frecv, frecv2, maxBytes) => |part| <= maxBytes && exists room: nat :: Received(frecv, frecv2, maxBytes, room, part)
    case _ => part == []
  }

  function ReadSize(op: Op): nat {
    if op.Read? then op.size else 0
  }

  function SizeRead(ops: seq<Op>): nat {
    if |ops| == 0 then 0 else SizeRead(ops[..|ops| - 1]) + ReadSize(ops[|ops| - 1])
  }

  function Flat(parts: seq<seq<int>>): seq<int> {
    if parts == [] then [] else Flat(parts[..|parts| - 1]) + parts[|parts| - 1]
  }

  lemma {:induction false} Joined<T>(a: seq<T>, b: seq<T>, c: seq<T>)
    ensures (a + b) + c == a + (b + c)
  {
  }

  lemma {:induction false} ServedNothing(ops: seq<Op>, start: seq<int>)
    ensures start + Flat([]) == [] + start && SizeRead(ops[..0]) == 0
  {
  }

  /** What goes in and comes out of one more operation. */
  lemma {:induction false} ServedOne(ops: seq<Op>, i: nat, parts: seq<seq<int>>, part: seq<int>, start: seq<int>, was: seq<int>,
                                     out: seq<int>, read: seq<int>, now: seq<int>)
    requires i < |ops| && start + Flat(parts) == out + was && was + part == read + now
    ensures start + Flat(parts + [part]) == out + read + now && SizeRead(ops[..i + 1]) == SizeRead(ops[..i]) + ReadSize(ops[i])
  {
    assert ops[..i + 1][..i] == ops[..i] && (parts + [part])[..|parts|] == parts;
    Joined(start, Flat(parts), part);
    Joined(out, was, part);
    Joined(out, read, now);
  }

  /** ReadWithCallback leaves the rest of the queue, whatever the callbacks take. */
  ghost predicate LeavesRest(ring: seq<int>, head: nat, count: nat, maxBytes: nat)
    requires head < |ring| && count <= |ring|
  {
    forall fsend: seq<int> -> nat, fsend2: seq<int> -> nat | TakesAtMost(fsend) && TakesAtMost(fsend2) ::
      var n := Taken(ring, head, if maxBytes < count then maxBytes else count, fsend, fsend2);
      Contents(ring, head, count - n) == Contents(ring, head, count)[n..]
  }

  predicate AllEqual(bytes: seq<int>) {
    forall i | 0 < i < |bytes| :: bytes[i] == bytes[0]
  }

  /** It does so for all callbacks exactly if nothing may be sent or all bytes in the buffer are equal. */
  lemma {:induction false} CallbackLeavesRest(ring: seq<int>, head: nat, count: nat, maxBytes: nat)
    requires head < |ring| && count <= |ring|
    ensures LeavesRest(ring, head, count, maxBytes) <==> maxBytes == 0 || AllEqual(Contents(ring, head, count))
  {
    hide LeavesRest, Contents, AllEqual;
    var all := Contents(ring, head, count);
    if maxBytes == 0 || AllEqual(all) {
      EqualLeavesRest(ring, head, count, maxBytes);
    } else if LeavesRest(ring, head, count, maxBytes) {
      OneLeavesRest(ring, head, count, maxBytes);
    }
  }

  lemma {:induction false} EqualLeavesRest(ring: seq<int>, head: nat, count: nat, maxBytes: nat)
    requires head < |ring| && count <= |ring| && (maxBytes == 0 || AllEqual(Contents(ring, head, count)))
    ensures LeavesRest(ring, head, count, maxBytes)
  {
    hide Contents, AllEqual, Taken;
    var all, size := Contents(ring, head, count), if maxBytes < count then maxBytes else count;
    forall fsend: seq<int> -> nat, fsend2: seq<int> -> nat | TakesAtMost(fsend) && TakesAtMost(fsend2)
      ensures var n := Taken(ring, head, size, fsend, fsend2); Contents(ring, head, count - n) == all[n..]
    {
      var n := Taken(ring, head, size, fsend, fsend2);
      KeepsFront(ring, head, count, n);
      EqualEnds(all, n);
    }
  }

  /** If one byte may be sent and the rest is left, each byte is the one before it. */
  lemma {:induction false} OneLeavesRest(ring: seq<int>, head: nat, count: nat, maxBytes: nat)
    requires head < |ring| && count <= |ring| && maxBytes > 0 && LeavesRest(ring, head, count, maxBytes)
    ensures AllEqual(Contents(ring, head, count))
  {
    hide Contents;
    if count > 0 {
      var all, size := Contents(ring, head, count), if maxBytes < count then maxBytes else count;
      var one: seq<int> -> nat := s => if |s| > 0 then 1 else 0;
      var none: seq<int> -> nat := s => 0;
      assert TakesAtMost(one) && TakesAtMost(none) && Taken(ring, head, size, one, none) == 1;
      KeepsFront(ring, head, count, 1);
      ShiftedEqual(all, count - 1);
    } else {
      assert |Contents(ring, head, count)| == 0;
    }
  }

  lemma {:induction false} KeepsFront<T>(ring: seq<T>, head: nat, count: nat, n: nat)
    requires head < |ring| && n <= count <= |ring|
    ensures Contents(ring, head, count - n) == Contents(ring, head, count)[..count - n]
  {
  }

  /** Of equal bytes, every stretch of one length is the same. */
  lemma {:induction false} EqualEnds(bytes: seq<int>, n: nat)
    requires n <= |bytes| && (n == 0 || AllEqual(bytes))
    ensures bytes[..|bytes| - n] == bytes[n..]
  {
  }

  /** Bytes that are the same one place further are all equal. */
  lemma {:induction false} ShiftedEqual(bytes: seq<int>, i: nat)
    requires i < |bytes| && bytes[..|bytes| - 1] == bytes[1..]
    ensures forall k | 0 <= k <= i :: bytes[k] == bytes[0]
  {
    if i > 0 {
      ShiftedEqual(bytes, i - 1);
      assert bytes[..|bytes| - 1][i - 1] == bytes[1..][i - 1];
    }
  }

  /** Two bytes are written and the first is sent: it is still in the buffer, and the second is lost. */
  method CallbackMayLeaveFront() returns (sent: seq<int>, left: seq<int>)
    ensures sent == [1] && left == [1]
  {
    var buffer := new RingBuffer();
    buffer.Write([1, 2]);
    var one: seq<int> -> nat := s => if |s| > 0 then 1 else 0;
    var ok;
    ok, sent := buffer.ReadWithCallback(one, _ => 0, 1);
    left := Contents(buffer.ring, buffer.headPtr, buffer.bytesAvailable);
  }

  // ----- the task queue -----

  const UINT32_MAX: nat := 0xffff_ffff

  /** What comes of taking a task from a queue. */
  datatype Popped<T> = Waits | Got(task: T, goOn: bool)

  class TaskQueue<T(0)> {
    var ring: seq<T>
    var head: nat
    var numPending: nat
    const blank: T

    constructor (blank: T)
      ensures Valid() && Tasks() == []
    {
      this.blank, ring, head, numPending := blank, [blank, blank], 0, 0;
    }

    predicate Valid()
      reads this
    {
      head < |ring| && numPending <= |ring|
    }

    function Tasks(): seq<T>
      requires Valid()
      reads this
    {
      Contents(ring, head, numPending)
    }

    /** Appends a task, in a ring of twice the size if it is full. */
    method Push(task: T)
      requires Valid()
      modifies this
      ensures Valid() && Tasks() == old(Tasks()) + [task]
    {
      hide Contents;
      if numPending >= |ring| {
        var oldSize := |ring|;
        var grown := ring + seq(oldSize, _ => blank);
        if head + numPending > oldSize {
          var ncopy := head + numPending - oldSize;
          grown := Overwrite(grown, oldSize, grown[..ncopy]);
        }
        Grown(ring, grown, head, numPending);
        ring := grown;
      }
      ghost var before := ring;
      Wrapped(head + numPending, |ring|);
      ring := ring[(head + numPending) % |ring| := task];
      Appended(before, ring, head, numPending, [task]);
      numPending := numPending + 1;
    }

    /** Takes the oldest task. An empty queue is waited for, until a task comes or the signal to exit, on which the old
        task at the head is taken and the count wraps around. goOn says that there was no such signal. */
    method Pop(exitNow: bool) returns (r: Popped<T>)
      requires Valid()
      modifies `head, `numPending
      ensures r.Waits? <==> old(numPending) == 0 && !exitNow
      ensures r.Waits? ==> head == old(head) && numPending == old(numPending)
      ensures r.Got? ==> r.goOn == !exitNow
      ensures old(numPending) != 0 ==> Valid() && old(Tasks()) == [r.task] + Tasks()
      ensures old(numPending) == 0 && exitNow ==> r.task == old(ring[head]) && numPending == UINT32_MAX
    {
      if numPending == 0 && !exitNow {
        return Waits;
      }
      r := Got(ring[head], !exitNow);
      if numPending != 0 {
        Dropped(ring, head, numPending, 1);
        assert Tasks() == [Tasks()[0]] + Tasks()[1..];
      }
      head := (head + 1) % |ring|;
      numPending := if numPending == 0 then UINT32_MAX else numPending - 1;
    }
  }

  datatype TaskOp<T> = PushTask(task: T) | PopTask

  /** The tasks that are pushed. */
  function Pushed<T>(ops: seq<TaskOp<T>>): seq<T> {
    if ops == [] then []
    else
      var op := ops[|ops| - 1];
      Pushed(ops[..|ops| - 1]) + if op.PushTask? then [op.task] else []
  }

  /** The number of tasks in the queue, n at first; a pop of an empty queue waits. */
  function Pending<T>(n: nat, ops: seq<TaskOp<T>>): nat {
    if ops == [] then n
    else
      var before := Pending(n, ops[..|ops| - 1]);
      if ops[|ops| - 1].PushTask? then before + 1 else if before > 0 then before - 1 else 0
  }

  lemma {:induction false} OneTask<T>(n: nat, ops: seq<TaskOp<T>>, i: nat)
    requires i < |ops|
    ensures Pushed(ops[..i + 1]) == Pushed(ops[..i]) + if ops[i].PushTask? then [ops[i].task] else []
    ensures var before := Pending(n, ops[..i]);
      Pending(n, ops[..i + 1]) == if ops[i].PushTask? then before + 1 else if before > 0 then before - 1 else 0
  {
    assert ops[..i + 1][..i] == ops[..i];
  }

  /** Any interleaving of pushes and pops, before the signal to exit, serves the tasks in the order in which they came: what was in
      the queue and was pushed since is what was popped since, and what is still there. */
  method ServeTasks<T(0)>(queue: TaskQueue<T>, ops: seq<TaskOp<T>>) returns (popped: seq<T>)
    requires queue.Valid()
    modifies queue
    ensures queue.Valid() && old(queue.Tasks()) + Pushed(ops) == popped + queue.Tasks()
    ensures |queue.Tasks()| == Pending(|old(queue.Tasks())|, ops)
  {
    hide Contents, Pushed, Pending;
    popped := [];
    ghost var start := queue.Tasks();
    NoTasks(start);
    assert ops[..0] == [];
    for i := 0 to |ops|
      invariant queue.Valid() && start + Pushed(ops[..i]) == popped + queue.Tasks()
      invariant |queue.Tasks()| == Pending(|start|, ops[..i])
    {
      OneTask(|start|, ops, i);
      ghost var was := queue.Tasks();
      match ops[i] {
        case PushTask(task) =>
          queue.Push(task);
          Joined(start, Pushed(ops[..i]), [task]);
          Joined(popped, was, [task]);
        case PopTask =>
          var r := queue.Pop(false);
          assert Pushed(ops[..i]) + [] == Pushed(ops[..i]);
          if r.Got? {
            Joined(popped, [r.task], queue.Tasks());
            popped := popped + [r.task];
          }
      }
    }
    assert ops[..|ops|] == ops;
  }

  lemma {:induction false} NoTasks<T>(start: seq<T>)
    ensures start + Pushed([]) == [] + start && Pending<T>(|start|, []) == |start|
  {
  }
}
