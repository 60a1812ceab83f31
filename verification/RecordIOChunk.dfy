/** Splitting a chunk of records into parts that are read on their own (dmlc-core/src/recordio.cc, RecordIOChunkReader). */
module RecordIOChunk {
  import opened RecordIO
  import Arithmetic

  // ----- where heads are -----

  /** A magic word followed by the length word of a first or only frame. */
  predicate HeadAt(s: seq<Byte>, p: nat) {
    p + 8 <= |s| && MagicAt(s, p) && DecodeFlag(WordAt(s, p + 4)) in {0, 1}
  }

  /** Whole words, and no magic word is the last one. */
  ghost predicate Framed(s: seq<Byte>) {
    |s| % 4 == 0 && forall p: nat | p % 4 == 0 && MagicAt(s, p) :: p + 8 <= |s|
  }

  ghost predicate HeadsAre(s: seq<Byte>, heads: set<nat>) {
    Framed(s) && forall p: nat | p % 4 == 0 :: HeadAt(s, p) <==> p in heads
  }

  lemma {:induction false} HeadAppend(a: seq<Byte>, b: seq<Byte>, p: nat)
    requires Framed(a) && p % 4 == 0
    ensures MagicAt(a + b, p) <==> if p < |a| then MagicAt(a, p) else MagicAt(b, p - |a|)
    ensures HeadAt(a + b, p) <==> if p < |a| then HeadAt(a, p) else HeadAt(b, p - |a|)
  {
    if p < |a| {
      if p + 8 <= |a| {
        WordAtIn([], a, b, p + 4);
        assert [] + a + b == a + b;
      }
    } else if p + 8 <= |a + b| {
      WordAtIn(a, b, [], p + 4 - |a|);
      assert a + b + [] == a + b;
    }
  }

  lemma {:induction false} FramedAppend(a: seq<Byte>, b: seq<Byte>)
    requires Framed(a) && Framed(b)
    ensures Framed(a + b)
  {
    forall p: nat | p % 4 == 0 && MagicAt(a + b, p) ensures p + 8 <= |a + b| {
      HeadAppend(a, b, p);
      if p >= |a| {
        assert (p - |a|) % 4 == 0;
      }
    }
  }

  /** Magic is not a length word, not in the data, and not in the padding: it stands at the start only. */
  lemma {:induction false} FrameMagic(cflag: nat, data: seq<Byte>, p: nat)
    requires cflag < 4 && |data| < LENGTH_LIMIT && NoMagic(data) && p % 4 == 0
    ensures MagicAt(Frame(cflag, data), p) <==> p == 0
  {
    if p >= 8 {
      if p - 4 <= |data| {
        DataWord(cflag, data, p);
      } else {
        PaddingWord(cflag, data, p);
      }
    }
  }

  lemma {:induction false} DataWord(cflag: nat, data: seq<Byte>, p: nat)
    requires cflag < 4 && |data| < LENGTH_LIMIT && NoMagic(data) && p % 4 == 0 && 8 <= p && p - 4 <= |data|
    ensures !MagicAt(Frame(cflag, data), p)
  {
    hide Frame, NoMagic, MagicAt;
    var f := Frame(cflag, data);
    FrameData(cflag, data);
    assert f[8..8 + |data|][p - 8..p - 4] == f[p..p + 4];
    SameWord(f, p, data, p - 8);
    Clean(data, p - 8);
  }

  lemma {:induction false} Clean(s: seq<Byte>, p: nat)
    requires NoMagic(s) && p % 4 == 0
    ensures !MagicAt(s, p)
  {
  }

  lemma {:induction false} FrameData(cflag: nat, data: seq<Byte>)
    requires cflag < 4 && |data| < LENGTH_LIMIT
    ensures |Frame(cflag, data)| >= 8 + |data| && Frame(cflag, data)[8..8 + |data|] == data
  {
  }

  lemma {:induction false} PaddingWord(cflag: nat, data: seq<Byte>, p: nat)
    requires cflag < 4 && |data| < LENGTH_LIMIT && p % 4 == 0 && p - 4 > |data|
    ensures !MagicAt(Frame(cflag, data), p)
  {
    AlignUp(|data|);
    assert p + 4 <= |Frame(cflag, data)| ==> Frame(cflag, data)[p + 3] == 0;
  }

  lemma {:induction false} SameWord(s: seq<Byte>, p: nat, t: seq<Byte>, q: nat)
    requires p + 4 <= |s| && q + 4 <= |t| && s[p..p + 4] == t[q..q + 4]
    ensures MagicAt(s, p) <==> MagicAt(t, q)
  {
    assert forall i {:trigger s[p..p + 4][i]} | 0 <= i < 4 :: s[p..p + 4][i] == t[q..q + 4][i];
    assert s[p..p + 4][0] == s[p] && s[p..p + 4][1] == s[p + 1] && s[p..p + 4][2] == s[p + 2] && s[p..p + 4][3] == s[p + 3];
    assert t[q..q + 4][0] == t[q] && t[q..q + 4][1] == t[q + 1] && t[q..q + 4][2] == t[q + 2] && t[q..q + 4][3] == t[q + 3];
  }

  lemma {:induction false} FrameHeads(cflag: nat, data: seq<Byte>)
    requires cflag < 4 && |data| < LENGTH_LIMIT && NoMagic(data)
    ensures HeadsAre(Frame(cflag, data), if cflag in {0, 1} then {0} else {})
  {
    hide Frame, WordAt, DecodeFlag, DecodeLength, NoMagic, MagicAt;
    var f := Frame(cflag, data);
    AlignUp(|data|);
    ReadFrame([], cflag, data, []);
    assert [] + f + [] == f && [] + f == f;
    forall p: nat | p % 4 == 0 ensures MagicAt(f, p) <==> p == 0 {
      FrameMagic(cflag, data, p);
    }
  }

  lemma {:induction false} HeadsAppend(a: seq<Byte>, heads: set<nat>, b: seq<Byte>)
    requires HeadsAre(a, heads) && HeadsAre(b, {})
    ensures HeadsAre(a + b, heads)
  {
    hide Framed, HeadAt;
    FramedAppend(a, b);
    HeadInside(a);
    forall p: nat | p % 4 == 0 ensures HeadAt(a + b, p) <==> p in heads {
      HeadAppend(a, b, p);
      FramedAligned(a, p);
    }
  }

  lemma {:induction false} HeadInside(a: seq<Byte>)
    ensures forall p: nat | HeadAt(a, p) :: p < |a|
  {
  }

  lemma {:induction false} FramedAligned(a: seq<Byte>, p: nat)
    requires Framed(a) && p % 4 == 0
    ensures p >= |a| ==> (p - |a|) % 4 == 0
  {
  }

  lemma {:induction false} FramesHeads(pieces: seq<seq<Byte>>, first: bool)
    requires Fit(pieces)
    ensures HeadsAre(Frames(pieces, first), if first then {0} else {})
    decreases |pieces|
  {
    hide HeadsAre, Frame, NoMagic;
    if |pieces| == 1 {
      FrameHeads(if first then 0 else 3, pieces[0]);
    } else {
      FrameHeads(if first then 1 else 2, pieces[0]);
      FramesHeads(Rest(pieces), false);
      HeadsAppend(Frame(if first then 1 else 2, pieces[0]), if first then {0} else {}, Frames(Rest(pieces), false));
    }
  }

  lemma {:induction false} EncodeHeads(rec: seq<Byte>)
    requires |rec| < LENGTH_LIMIT
    ensures HeadsAre(Encode(rec), {0}) && |Encode(rec)| > 0
  {
    FramesHeads(Pieces(rec), true);
    assert HeadAt(Encode(rec), 0);
  }

  lemma {:induction false} EncodeFramed(rec: seq<Byte>)
    requires |rec| < LENGTH_LIMIT
    ensures Framed(Encode(rec))
  {
    EncodeHeads(rec);
  }

  // ----- where records are -----

  /** The position of record k. */
  function Offset(recs: seq<seq<Byte>>, k: nat): nat
    requires Writable(recs) && k <= |recs|
  {
    |Stored(recs[..k])|
  }

  lemma {:induction false} OffsetStep(recs: seq<seq<Byte>>, k: nat)
    requires Writable(recs) && k < |recs|
    ensures Offset(recs, k) < Offset(recs, k + 1) == Offset(recs, k) + |Encode(recs[k])|
    ensures Stored(recs) == Stored(recs[..k]) + Encode(recs[k]) + Stored(recs[k + 1..])
  {
    assert recs[..k + 1] == recs[..k] + [recs[k]];
    assert recs == recs[..k + 1] + recs[k + 1..];
    StoredAppend(recs[..k], [recs[k]]);
    StoredAppend(recs[..k + 1], recs[k + 1..]);
    StoredOne(recs[k]);
    EncodeHeads(recs[k]);
  }

  lemma {:induction false} OffsetLess(recs: seq<seq<Byte>>, j: nat, k: nat)
    requires Writable(recs) && j < k <= |recs|
    ensures Offset(recs, j) < Offset(recs, k) <= |Stored(recs)|
    decreases |recs| - j
  {
    OffsetStep(recs, j);
    if j + 1 < k {
      OffsetLess(recs, j + 1, k);
    } else if k < |recs| {
      OffsetLess(recs, k, k + 1);
    } else {
      assert recs[..k] == recs;
    }
  }

  lemma {:induction false} OffsetCons(recs: seq<seq<Byte>>, k: nat)
    requires Writable(recs) && 0 < k <= |recs|
    ensures Writable(recs[1..]) && Offset(recs, k) == |Encode(recs[0])| + Offset(recs[1..], k - 1)
  {
    assert recs[..k][1..] == recs[1..][..k - 1];
  }

  lemma {:induction false} OffsetEnds(recs: seq<seq<Byte>>)
    requires Writable(recs)
    ensures Offset(recs, 0) == 0 && Offset(recs, |recs|) == |Stored(recs)|
  {
    assert recs[..|recs|] == recs;
  }

  ghost predicate AtRecord(recs: seq<seq<Byte>>, p: nat)
    requires Writable(recs)
  {
    exists k :: 0 <= k < |recs| && p == Offset(recs, k)
  }

  lemma {:induction false} AtRecordCons(recs: seq<seq<Byte>>, p: nat)
    requires Writable(recs) && recs != [] && p >= |Encode(recs[0])| > 0
    ensures Writable(recs[1..]) && (AtRecord(recs, p) <==> AtRecord(recs[1..], p - |Encode(recs[0])|))
  {
    hide Encode;
    var rest, n := recs[1..], |Encode(recs[0])|;
    if AtRecord(recs, p) {
      var k :| 0 <= k < |recs| && p == Offset(recs, k);
      OffsetEnds(recs);
      OffsetCons(recs, k);
      assert p - n == Offset(rest, k - 1);
    }
    if AtRecord(rest, p - n) {
      var k :| 0 <= k < |rest| && p - n == Offset(rest, k);
      OffsetCons(recs, k + 1);
      assert p == Offset(recs, k + 1);
    }
  }

  lemma {:induction false} FirstOnly(recs: seq<seq<Byte>>, p: nat)
    requires Writable(recs) && recs != [] && p < |Encode(recs[0])|
    ensures AtRecord(recs, p) <==> p == 0
  {
    hide Encode;
    OffsetEnds(recs);
    if AtRecord(recs, p) {
      var k :| 0 <= k < |recs| && p == Offset(recs, k);
      if k > 0 {
        OffsetCons(recs, k);
      }
    } else {
      assert p != Offset(recs, 0);
    }
  }

  /** The heads among the words of stored records are exactly the starts of the records. */
  lemma {:induction false} StoredHeads(recs: seq<seq<Byte>>)
    requires Writable(recs)
    ensures Framed(Stored(recs)) && forall p: nat | p % 4 == 0 :: HeadAt(Stored(recs), p) <==> AtRecord(recs, p)
  {
    hide Encode, HeadAt, AtRecord, Framed;
    if recs == [] {
      NoRecords(recs);
    } else {
      var a, b := Encode(recs[0]), Stored(recs[1..]);
      EncodeHeads(recs[0]);
      EncodeFramed(recs[0]);
      StoredHeads(recs[1..]);
      FramedAppend(a, b);
      forall p: nat | p % 4 == 0 ensures HeadAt(a + b, p) <==> AtRecord(recs, p) {
        StoredHeadsCons(recs, p);
      }
    }
  }

  lemma {:induction false} NoRecords(recs: seq<seq<Byte>>)
    requires recs == []
    ensures Framed(Stored(recs)) && forall p: nat :: !HeadAt(Stored(recs), p) && !AtRecord(recs, p)
  {
  }

  lemma {:induction false} StoredHeadsCons(recs: seq<seq<Byte>>, p: nat)
    requires Writable(recs) && recs != [] && p % 4 == 0
    requires forall q: nat | q % 4 == 0 :: HeadAt(Stored(recs[1..]), q) <==> AtRecord(recs[1..], q)
    ensures HeadAt(Encode(recs[0]) + Stored(recs[1..]), p) <==> AtRecord(recs, p)
  {
    hide Encode, HeadAt, AtRecord, Stored;
    var a, b := Encode(recs[0]), Stored(recs[1..]);
    EncodeHeads(recs[0]);
    HeadAppend(a, b, p);
    if p < |a| {
      FirstOnly(recs, p);
    } else {
      AtRecordCons(recs, p);
      assert (p - |a|) % 4 == 0;
    }
  }

  /** The number of records that start before b. */
  function Cut(recs: seq<seq<Byte>>, b: nat, k: nat): (c: nat)
    requires Writable(recs) && k <= |recs| && forall j | 0 <= j < k :: Offset(recs, j) < b
    ensures c <= |recs| && (forall j | 0 <= j < c :: Offset(recs, j) < b) && (c < |recs| ==> Offset(recs, c) >= b)
    decreases |recs| - k
  {
    if k == |recs| || Offset(recs, k) >= b then k else Cut(recs, b, k + 1)
  }

  lemma {:induction false} CutEnds(recs: seq<seq<Byte>>)
    requires Writable(recs)
    ensures Cut(recs, 0, 0) == 0 && Cut(recs, |Stored(recs)|, 0) == |recs|
  {
    var c := Cut(recs, |Stored(recs)|, 0);
    if c < |recs| {
      OffsetLess(recs, c, |recs|);
    }
  }

  // ----- the chunk reader -----

  ghost predicate NoHeadBetween(s: seq<Byte>, b: nat, p: nat) {
    forall q: nat | b <= q < p && q % 4 == 0 :: !HeadAt(s, q)
  }

  /** p is the first head at or after b, or the end. */
  ghost predicate Found(s: seq<Byte>, b: nat, p: nat) {
    b <= p <= |s| && p % 4 == 0 && NoHeadBetween(s, b, p) && (p == |s| || HeadAt(s, p))
  }

  /** The first head at or after begin, or end; fails when begin or end is not aligned. */
  method FindNextRecordIOHead(s: seq<Byte>, begin: nat, end: nat) returns (ok: bool, p: nat)
    requires begin <= end == |s|
    ensures ok <==> begin % 4 == 0 && end % 4 == 0
    ensures ok ==> Found(s, begin, p)
    ensures p <= end
  {
    if begin % 4 != 0 || end % 4 != 0 {
      return false, end;
    }
    p := begin;
    while p + 4 < end
      invariant begin <= p <= end && p % 4 == 0 && NoHeadBetween(s, begin, p)
    {
      if WordAt(s, p) == MAGIC {
        var cflag := DecodeFlag(WordAt(s, p + 4));
        if cflag == 0 || cflag == 1 {
          return true, p;
        }
      }
      p := p + 4;
    }
    return true, end;
  }

  /** What is found is the first record that starts at or after the place where the search starts. */
  lemma {:induction false} FoundRecord(recs: seq<seq<Byte>>, b: nat, p: nat)
    requires Writable(recs) && Found(Stored(recs), b, p)
    ensures p == Offset(recs, Cut(recs, b, 0))
  {
    hide HeadAt, Stored;
    var c := Cut(recs, b, 0);
    StoredHeads(recs);
    OffsetEnds(recs);
    if c < |recs| {
      OffsetLess(recs, c, |recs|);
      var q := Offset(recs, c);
      assert AtRecord(recs, q);
      OffsetAligned(recs, c);
      assert p <= q;
    }
    if p < |Stored(recs)| {
      var k :| 0 <= k < |recs| && p == Offset(recs, k);
      if c < k {
        OffsetLess(recs, c, k);
      }
    }
  }

  lemma {:induction false} OffsetAligned(recs: seq<seq<Byte>>, k: nat)
    requires Writable(recs) && k <= |recs|
    ensures Offset(recs, k) % 4 == 0
  {
    StoredHeads(recs[..k]);
  }

  /** What the reader finds at p on the path of several frames: magic words between them until the last one. */
  function ChunkFrom(s: seq<Byte>, p: nat, end: nat, acc: seq<Byte>): (ReadResult, nat)
    requires end <= |s|
    decreases end - p
  {
    if p + 8 > end || WordAt(s, p) != MAGIC then (Invalid, p)
    else
      var cflag, len := DecodeFlag(WordAt(s, p + 4)), DecodeLength(WordAt(s, p + 4));
      if p + 8 + len > |s| then (Invalid, p)
      else
        var acc1, next := acc + s[p + 8..p + 8 + len], p + 8 + UpperAlign(len);
        if cflag == 3 then (Record(acc1), next) else ChunkFrom(s, next, end, acc1 + MAGIC_BYTES)
  }

  lemma {:induction false} ChunkMore(pre: seq<Byte>, cflag: nat, data: seq<Byte>, post: seq<Byte>, end: nat, acc: seq<Byte>)
    requires cflag < 4 && |data| < LENGTH_LIMIT && |pre + Frame(cflag, data)| <= end <= |pre + Frame(cflag, data) + post|
    ensures var s, next := pre + Frame(cflag, data) + post, |pre + Frame(cflag, data)|;
      ChunkFrom(s, |pre|, end, acc) == if cflag == 3 then (Record(acc + data), next) else ChunkFrom(s, next, end, acc + data + MAGIC_BYTES)
  {
    hide Frame, WordAt, DecodeFlag, DecodeLength;
    AlignUp(|data|);
    ReadFrame(pre, cflag, data, post);
  }

  lemma {:induction false} ChunkFrames(pre: seq<Byte>, pieces: seq<seq<Byte>>, first: bool, post: seq<Byte>, end: nat, acc: seq<Byte>)
    requires Fit(pieces) && (first ==> |pieces| > 1)
    requires |pre + Frames(pieces, first)| <= end <= |pre + Frames(pieces, first) + post|
    ensures ChunkFrom(pre + Frames(pieces, first) + post, |pre|, end, acc) == (Record(acc + Join(pieces)), |pre + Frames(pieces, first)|)
    decreases |pieces|
  {
    hide Frame, NoMagic, ChunkFrom;
    if |pieces| == 1 {
      ChunkMore(pre, 3, pieces[0], post, end, acc);
    } else {
      var cflag := if first then 1 else 2;
      var f, rest := Frame(cflag, pieces[0]), Rest(pieces);
      var acc1 := acc + pieces[0] + MAGIC_BYTES;
      assert pre + Frames(pieces, first) + post == pre + f + (Frames(rest, false) + post) == (pre + f) + Frames(rest, false) + post;
      assert (pre + f) + Frames(rest, false) == pre + Frames(pieces, first);
      ChunkMore(pre, cflag, pieces[0], Frames(rest, false) + post, end, acc);
      ChunkFrames(pre + f, rest, false, post, end, acc1);
      assert acc1 + Join(rest) == acc + Join(pieces);
    }
  }

  /** What the reader finds at p. */
  function ChunkRead(s: seq<Byte>, p: nat, end: nat): (ReadResult, nat)
    requires end <= |s|
  {
    if p >= end then (EndOfStream, p)
    else if p + 8 > |s| || WordAt(s, p) != MAGIC then (Invalid, p)
    else
      var cflag, len := DecodeFlag(WordAt(s, p + 4)), DecodeLength(WordAt(s, p + 4));
      var next := p + 8 + UpperAlign(len);
      if cflag == 0 then if next > end then (Invalid, p) else AlignUp(len); (Record(s[p + 8..p + 8 + len]), next)
      else if cflag == 1 then ChunkFrom(s, p, end, [])
      else (Invalid, p)
  }

  /** Reading at the start of a record gives that record. */
  lemma {:induction false} ChunkRecord(recs: seq<seq<Byte>>, k: nat, end: nat)
    requires Writable(recs) && k < |recs| && Offset(recs, k + 1) <= end <= |Stored(recs)|
    ensures ChunkRead(Stored(recs), Offset(recs, k), end) == (Record(recs[k]), Offset(recs, k + 1))
  {
    hide Stored, ChunkRead, Encode;
    OffsetStep(recs, k);
    ChunkEncoded(Stored(recs[..k]), recs[k], Stored(recs[k + 1..]), end);
  }

  lemma {:induction false} ChunkEncoded(pre: seq<Byte>, rec: seq<Byte>, post: seq<Byte>, end: nat)
    requires |rec| < LENGTH_LIMIT && |pre + Encode(rec)| <= end <= |pre + Encode(rec) + post|
    ensures ChunkRead(pre + Encode(rec) + post, |pre|, end) == (Record(rec), |pre + Encode(rec)|)
  {
    hide Frame, WordAt, DecodeFlag, DecodeLength, UpperAlign, NoMagic, ChunkFrom;
    var ps := Pieces(rec);
    if |ps| == 1 {
      ReadFrame(pre, 0, ps[0], post);
    } else {
      ReadFrame(pre, 1, ps[0], Frames(Rest(ps), false) + post);
      assert pre + Frames(ps, true) + post == pre + Frame(1, ps[0]) + (Frames(Rest(ps), false) + post);
      ChunkFrames(pre, ps, true, post, end, []);
      assert [] + Join(ps) == rec;
    }
  }

  /** The bytes at which part i of n starts, at most; parts start at whole words. */
  function Bound(size: nat, i: nat, n: nat): nat
    requires n > 0
  {
    var begin := UpperAlign((size + n - 1) / n) * i;
    if begin < size then begin else size
  }

  lemma {:induction false} BoundEnds(size: nat, n: nat)
    requires n > 0
    ensures Bound(size, 0, n) == 0 && Bound(size, n, n) == size
  {
    var m := (size + n - 1) / n;
    AlignUp(m);
    assert m * n >= size by {
      assert size + n - 1 == m * n + (size + n - 1) % n;
    }
    Arithmetic.MulMonotone(m, UpperAlign(m), n);
  }

  lemma {:induction false} BoundRight(size: nat, i: nat, n: nat)
    requires n > 0
    ensures Bound(size, i, n) <= Bound(size, i + 1, n) <= size
    ensures size % 4 == 0 ==> Bound(size, i, n) % 4 == 0
  {
    hide UpperAlign;
    var m := (size + n - 1) / n;
    AlignUp(m);
    Multiple(UpperAlign(m), i);
  }

  lemma {:induction false} Multiple(step: nat, i: nat)
    requires step % 4 == 0
    ensures step * i % 4 == 0 && step * i <= step * (i + 1)
  {
    Arithmetic.MulAssoc(4, step / 4, i);
    Arithmetic.Distribute(step, i, 1);
  }

  /** No part is longer than its share, rounded up to a whole word. */
  lemma {:induction false} BoundsEven(size: nat, i: nat, n: nat)
    requires n > 0
    ensures Bound(size, i + 1, n) - Bound(size, i, n) <= size / n + 4
  {
    hide Bound, UpperAlign;
    var share := (size + n - 1) / n;
    var step := UpperAlign(share);
    AlignUp(share);
    ShareUp(size, n);
    StepsApart(size, i, n, step);
  }

  lemma {:induction false} StepsApart(size: nat, i: nat, n: nat, step: nat)
    requires n > 0 && step == UpperAlign((size + n - 1) / n)
    ensures Bound(size, i + 1, n) - Bound(size, i, n) <= step
  {
    hide UpperAlign;
    assert step * (i + 1) == step * i + step;
  }

  lemma {:induction false} ShareUp(size: nat, n: nat)
    requires n > 0
    ensures (size + n - 1) / n <= size / n + 1
  {
    Arithmetic.DivTimes(size, n);
    Arithmetic.DivTimes(size + n - 1, n);
    assert (size / n + 2) * n == size / n * n + 2 * n;
    if (size + n - 1) / n >= size / n + 2 {
      Arithmetic.MulMonotone(size / n + 2, (size + n - 1) / n, n);
    }
  }

  lemma {:induction false} PartBounds(size: nat, i: nat, n: nat)
    requires n > 0
    ensures Bound(size, i, n) <= size && Bound(size, i + 1, n) <= size
    ensures size % 4 == 0 ==> Bound(size, i, n) % 4 == 0 && Bound(size, i + 1, n) % 4 == 0
  {
    BoundRight(size, i, n);
    BoundRight(size, i + 1, n);
  }

  lemma {:induction false} FoundPart(recs: seq<seq<Byte>>, begin: nat, first: nat, end: nat, last: nat)
    requires Writable(recs) && begin <= |Stored(recs)| && end <= |Stored(recs)|
    ensures |Stored(recs)| % 4 == 0
    ensures Found(Stored(recs), begin, first) ==> first == Offset(recs, Cut(recs, begin, 0))
    ensures Found(Stored(recs), end, last) ==> last == Offset(recs, Cut(recs, end, 0))
  {
    OffsetEnds(recs);
    OffsetAligned(recs, |recs|);
    if Found(Stored(recs), begin, first) {
      FoundRecord(recs, begin, first);
    }
    if Found(Stored(recs), end, last) {
      FoundRecord(recs, end, last);
    }
  }

  class RecordIOChunkReader {
    const chunk: seq<Byte>
    var pbegin: nat
    var pend: nat
    var failed: bool

    /** Part i of n: from the first head at or after its start to the first head at or after its end. */
    constructor (chunk: seq<Byte>, i: nat, n: nat, ghost recs: seq<seq<Byte>>)
      requires n > 0
      ensures this.chunk == chunk && pend <= |chunk|
      ensures !failed <==> |chunk| % 4 == 0
      ensures Writable(recs) && chunk == Stored(recs) ==>
        !failed && pbegin == Offset(recs, Cut(recs, Bound(|chunk|, i, n), 0)) && pend == Offset(recs, Cut(recs, Bound(|chunk|, i + 1, n), 0))
    {
      var nstep := UpperAlign((|chunk| + n - 1) / n);
      var begin := if nstep * i < |chunk| then nstep * i else |chunk|;
      var end := if nstep * (i + 1) < |chunk| then nstep * (i + 1) else |chunk|;
      PartBounds(|chunk|, i, n);
      var ok1, ok2, first, last;
      ok1, first := FindNextRecordIOHead(chunk, begin, |chunk|);
      ok2, last := FindNextRecordIOHead(chunk, end, |chunk|);
      if Writable(recs) && chunk == Stored(recs) {
        FoundPart(recs, begin, first, end, last);
      }
      this.chunk, pbegin, pend, failed := chunk, first, if ok2 then last else 0, !(ok1 && ok2);
    }

    /** The next record of the part. */
    method NextRecord() returns (r: ReadResult)
      requires pend <= |chunk|
      modifies `pbegin
      ensures r == ChunkRead(chunk, old(pbegin), pend).0
      ensures r.Record? ==> pbegin == ChunkRead(chunk, old(pbegin), pend).1
      ensures r == EndOfStream ==> pbegin == old(pbegin)
    {
      hide WordAt, DecodeFlag, DecodeLength;
      if pbegin >= pend {
        return EndOfStream;
      }
      if pbegin + 8 > |chunk| || WordAt(chunk, pbegin) != MAGIC {
        return Invalid;
      }
      var cflag, clen := DecodeFlag(WordAt(chunk, pbegin + 4)), DecodeLength(WordAt(chunk, pbegin + 4));
      if cflag == 0 {
        var data := pbegin + 8;
        pbegin := pbegin + 8 + UpperAlign(clen);
        if pbegin > pend {
          return Invalid;
        }
        AlignUp(clen);
        return Record(chunk[data..data + clen]);
      }
      if cflag != 1 {
        return Invalid;
      }
      r := NextOfSeveral();
    }

    method NextOfSeveral() returns (r: ReadResult)
      requires pend <= |chunk|
      modifies `pbegin
      ensures r == ChunkFrom(chunk, old(pbegin), pend, []).0 && r != EndOfStream
      ensures r.Record? ==> pbegin == ChunkFrom(chunk, old(pbegin), pend, []).1
    {
      hide WordAt, DecodeFlag, DecodeLength, UpperAlign;
      var temp: seq<Byte> := [];
      while true
        invariant ChunkFrom(chunk, pbegin, pend, temp) == ChunkFrom(chunk, old(pbegin), pend, [])
        decreases pend - pbegin
      {
        if pbegin + 8 > pend || WordAt(chunk, pbegin) != MAGIC {
          return Invalid;
        }
        var cflag, clen := DecodeFlag(WordAt(chunk, pbegin + 4)), DecodeLength(WordAt(chunk, pbegin + 4));
        if pbegin + 8 + clen > |chunk| {
          return Invalid;
        }
        temp := temp + chunk[pbegin + 8..pbegin + 8 + clen];
        pbegin := pbegin + 8 + UpperAlign(clen);
        if cflag == 3 {
          return Record(temp);
        }
        temp := temp + MAGIC_BYTES;
      }
    }
  }

  /** Reads part i of n: the records that start between the bounds of the part. */
  method ReadPart(chunk: seq<Byte>, i: nat, n: nat, ghost recs: seq<seq<Byte>>) returns (part: seq<seq<Byte>>)
    requires n > 0 && Writable(recs) && chunk == Stored(recs)
    ensures var from, to := Cut(recs, Bound(|chunk|, i, n), 0), Cut(recs, Bound(|chunk|, i + 1, n), 0);
      from <= to && part == recs[from..to]
  {
    hide Stored, ChunkRead, Bound, UpperAlign;
    BoundRight(|chunk|, i, n);
    ghost var from, to := Cut(recs, Bound(|chunk|, i, n), 0), Cut(recs, Bound(|chunk|, i + 1, n), 0);
    var reader := new RecordIOChunkReader(chunk, i, n, recs);
    part := [];
    ghost var k := from;
    while true
      invariant from <= k <= to && part == recs[from..k]
      invariant reader.chunk == chunk && reader.pbegin == Offset(recs, k) && reader.pend == Offset(recs, to) && reader.pend <= |chunk|
      decreases |recs| - k
    {
      PartStep(recs, k, to);
      var r := reader.NextRecord();
      if !r.Record? {
        return;
      }
      assert k < to;
      part := part + [r.bytes];
      k := k + 1;
    }
  }

  lemma {:induction false} PartStep(recs: seq<seq<Byte>>, k: nat, to: nat)
    requires Writable(recs) && k <= to <= |recs| && Offset(recs, to) <= |Stored(recs)|
    ensures k == to ==> ChunkRead(Stored(recs), Offset(recs, k), Offset(recs, to)).0 == EndOfStream
    ensures k < to ==> ChunkRead(Stored(recs), Offset(recs, k), Offset(recs, to)) == (Record(recs[k]), Offset(recs, k + 1))
  {
    hide Stored;
    if k < to {
      if k + 1 < to {
        OffsetLess(recs, k + 1, to);
      }
      ChunkRecord(recs, k, Offset(recs, to));
    }
  }

  /** The parts of a chunk, one after the other, are all of its records: none is lost, read twice or cut. */
  method ReadParts(chunk: seq<Byte>, n: nat, ghost recs: seq<seq<Byte>>) returns (all: seq<seq<Byte>>)
    requires n > 0 && Writable(recs) && chunk == Stored(recs)
    ensures all == recs
  {
    hide Stored, Bound;
    all := [];
    BoundEnds(|chunk|, n);
    CutEnds(recs);
    for i := 0 to n
      invariant all == recs[..Cut(recs, Bound(|chunk|, i, n), 0)]
    {
      var part := ReadPart(chunk, i, n, recs);
      all := all + part;
    }
  }
}
