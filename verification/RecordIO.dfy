/** The RecordIO format: the writer that escapes magic words and the streaming reader
    (dmlc-core/src/recordio.cc, dmlc-core/include/dmlc/recordio.h). */
module RecordIO {
  type Byte = b: int | 0 <= b < 256

  const MAGIC: nat := 0xced7230a
  const MAGIC_BYTES: seq<Byte> := [0x0a, 0x23, 0xd7, 0xce]
  const LENGTH_LIMIT: nat := 0x2000_0000

  // ----- words -----

  /** The little-endian word at p. */
  function WordAt(s: seq<Byte>, p: nat): nat
    requires p + 4 <= |s|
  {
    s[p] as nat + 0x100 * s[p + 1] as nat + 0x1_0000 * s[p + 2] as nat + 0x100_0000 * s[p + 3] as nat
  }

  function WordBytes(w: nat): seq<Byte>
    requires w < 0x1_0000_0000
  {
    [w % 0x100, w / 0x100 % 0x100, w / 0x1_0000 % 0x100, w / 0x100_0000]
  }

  lemma {:induction false} WordBytesWord(w: nat)
    requires w < 0x1_0000_0000
    ensures WordAt(WordBytes(w), 0) == w
  {
    var b := WordBytes(w);
    assert w == b[0] as nat + 0x100 * (w / 0x100);
    assert w / 0x100 == b[1] as nat + 0x100 * (w / 0x1_0000);
    assert w / 0x1_0000 == b[2] as nat + 0x100 * b[3] as nat;
  }

  lemma {:induction false} WordAtIn(a: seq<Byte>, s: seq<Byte>, c: seq<Byte>, p: nat)
    requires p + 4 <= |s|
    ensures WordAt(a + s + c, |a| + p) == WordAt(s, p)
  {
    assert forall i | 0 <= i < |s| :: (a + s + c)[|a| + i] == s[i];
  }

  lemma {:induction false} WordAtSlice(s: seq<Byte>, a: nat, b: nat, p: nat)
    requires a <= b <= |s| && p + 4 <= b - a
    ensures WordAt(s[a..b], p) == WordAt(s, a + p)
  {
  }

  /** The record length word: a flag in the top three bits, a length in the others. */
  function EncodeLRec(cflag: nat, length: nat): nat
    requires cflag < 8 && length < LENGTH_LIMIT
  {
    cflag * LENGTH_LIMIT + length
  }

  function DecodeFlag(rec: nat): nat {
    rec / LENGTH_LIMIT % 8
  }

  function DecodeLength(rec: nat): nat {
    rec % LENGTH_LIMIT
  }

  lemma {:induction false} LRecRoundTrip(cflag: nat, length: nat)
    requires cflag < 8 && length < LENGTH_LIMIT
    ensures DecodeFlag(EncodeLRec(cflag, length)) == cflag && DecodeLength(EncodeLRec(cflag, length)) == length
    ensures EncodeLRec(cflag, length) < 0x1_0000_0000
  {
  }

  function UpperAlign(n: nat): nat {
    (n + 3) / 4 * 4
  }

  function LowerAlign(n: nat): nat {
    n / 4 * 4
  }

  lemma {:induction false} AlignDown(n: nat, i: nat)
    requires i % 4 == 0
    ensures if i < LowerAlign(n) then i + 4 <= LowerAlign(n) <= n else n < i + 4
  {
  }

  lemma {:induction false} AlignUp(n: nat)
    ensures n <= UpperAlign(n) < n + 4 && UpperAlign(n) % 4 == 0
  {
  }

  // ----- the format -----

  function Zeros(n: nat): seq<Byte> {
    seq(n, _ => 0)
  }

  /** Magic word, length word, data, and zeros up to the next word. */
  function Frame(cflag: nat, data: seq<Byte>): seq<Byte>
    requires cflag < 4 && |data| < LENGTH_LIMIT
  {
    MAGIC_BYTES + WordBytes(EncodeLRec(cflag, |data|)) + data + Zeros(UpperAlign(|data|) - |data|)
  }

  predicate MagicAt(s: seq<Byte>, p: nat) {
    p + 4 <= |s| && s[p] == MAGIC_BYTES[0] && s[p + 1] == MAGIC_BYTES[1] && s[p + 2] == MAGIC_BYTES[2] && s[p + 3] == MAGIC_BYTES[3]
  }

  /** No word at a multiple of four is the magic word. */
  predicate NoMagic(s: seq<Byte>) {
    forall p: nat | p % 4 == 0 && p < |s| :: !MagicAt(s, p)
  }

  /** The number of magic words at multiples of four, from i on. */
  function CountMagic(s: seq<Byte>, i: nat): nat
    decreases |s| - i
  {
    if i + 4 > |s| then 0 else (if MagicAt(s, i) then 1 else 0) + CountMagic(s, i + 4)
  }

  /** The pieces of a record from dptr on, cut at the magic words from i on. */
  function PiecesFrom(rec: seq<Byte>, dptr: nat, i: nat): seq<seq<Byte>>
    requires dptr <= i && dptr <= |rec|
    decreases |rec| - i
  {
    if i + 4 > |rec| then [rec[dptr..]]
    else if MagicAt(rec, i) then [rec[dptr..i]] + PiecesFrom(rec, i + 4, i + 4)
    else PiecesFrom(rec, dptr, i + 4)
  }

  function Join(pieces: seq<seq<Byte>>): seq<Byte>
    requires pieces != []
  {
    if |pieces| == 1 then pieces[0] else pieces[0] + MAGIC_BYTES + Join(pieces[1..])
  }

  /** The pieces fit in frames: none is too long or has a magic word, and all but the last consist of words. */
  predicate Fit(pieces: seq<seq<Byte>>) {
    && pieces != []
    && (forall k | 0 <= k < |pieces| :: |pieces[k]| < LENGTH_LIMIT && NoMagic(pieces[k]))
    && (forall k | 0 <= k < |pieces| - 1 :: |pieces[k]| % 4 == 0)
  }

  /** Flags 0 for a record in one frame; 1, 2 and 3 for the first, the middle and the last frame of several. */
  function Frames(pieces: seq<seq<Byte>>, first: bool): seq<Byte>
    requires Fit(pieces)
  {
    if |pieces| == 1 then Frame(if first then 0 else 3, pieces[0])
    else Frame(if first then 1 else 2, pieces[0]) + Frames(Rest(pieces), false)
  }

  function Rest(pieces: seq<seq<Byte>>): (r: seq<seq<Byte>>)
    requires Fit(pieces) && |pieces| > 1
    ensures Fit(r) && |r| == |pieces| - 1
  {
    assert forall k | 0 <= k < |pieces| - 1 :: pieces[1..][k] == pieces[k + 1];
    pieces[1..]
  }

  lemma {:induction false} MagicShift(s: seq<Byte>, a: nat, b: nat, p: nat)
    requires a <= b <= |s|
    ensures MagicAt(s[a..b], p) <==> MagicAt(s, a + p) && a + p + 4 <= b
  {
  }

  lemma {:induction false} FitCons(piece: seq<Byte>, ps: seq<seq<Byte>>)
    requires Fit(ps) && |piece| < LENGTH_LIMIT && |piece| % 4 == 0 && NoMagic(piece)
    ensures Fit([piece] + ps) && ([piece] + ps)[1..] == ps
  {
    hide NoMagic;
    assert forall k | 0 < k < |[piece] + ps| :: ([piece] + ps)[k] == ps[k - 1];
  }

  lemma {:induction false} FitOne(piece: seq<Byte>)
    requires |piece| < LENGTH_LIMIT && NoMagic(piece)
    ensures Fit([piece]) && Join([piece]) == piece
  {
  }

  /** Cutting at the magic words loses nothing, leaves no magic word, and cuts as often as there are magic words. */
  lemma {:induction false} PiecesRight(rec: seq<Byte>, dptr: nat, i: nat)
    requires dptr <= i && dptr <= |rec| && |rec| < LENGTH_LIMIT && dptr % 4 == 0 && i % 4 == 0
    requires NoneBetween(rec, dptr, i)
    ensures var ps := PiecesFrom(rec, dptr, i); Fit(ps) && Join(ps) == rec[dptr..] && |ps| == 1 + CountMagic(rec, i)
    decreases |rec| - i
  {
    hide Fit, NoMagic, MagicAt;
    if i + 4 > |rec| {
      NoMagicSlice(rec, dptr, |rec|, i);
      assert rec[dptr..|rec|] == rec[dptr..];
      FitOne(rec[dptr..]);
    } else if MagicAt(rec, i) {
      PiecesRight(rec, i + 4, i + 4);
      NoMagicSlice(rec, dptr, i, i);
      FitCons(rec[dptr..i], PiecesFrom(rec, i + 4, i + 4));
      CutJoin(rec, dptr, i);
    } else {
      PiecesRight(rec, dptr, i + 4);
    }
  }

  lemma {:induction false} CutJoin(rec: seq<Byte>, dptr: nat, i: nat)
    requires dptr <= i && MagicAt(rec, i)
    ensures rec[dptr..] == rec[dptr..i] + MAGIC_BYTES + rec[i + 4..]
  {
    assert rec[i..i + 4] == MAGIC_BYTES;
  }

  /** No magic word at multiples of four from a up to b. */
  predicate NoneBetween(rec: seq<Byte>, a: nat, b: nat) {
    forall p: nat | a <= p < b && p % 4 == 0 :: !MagicAt(rec, p)
  }

  lemma {:induction false} NoMagicSlice(s: seq<Byte>, a: nat, b: nat, i: nat)
    requires a <= b <= |s| && b < i + 4 && a % 4 == 0 && i % 4 == 0 && NoneBetween(s, a, i)
    ensures NoMagic(s[a..b])
  {
    forall p: nat | p % 4 == 0 && p < |s[a..b]| ensures !MagicAt(s[a..b], p) {
      MagicShift(s, a, b, p);
    }
  }

  function Pieces(rec: seq<Byte>): (ps: seq<seq<Byte>>)
    requires |rec| < LENGTH_LIMIT
    ensures Fit(ps) && Join(ps) == rec && |ps| == 1 + CountMagic(rec, 0)
  {
    PiecesRight(rec, 0, 0);
    PiecesFrom(rec, 0, 0)
  }

  function Encode(rec: seq<Byte>): seq<Byte>
    requires |rec| < LENGTH_LIMIT
  {
    Frames(Pieces(rec), true)
  }

  /** A record of one byte, as it is stored: the magic word 0xced7230a with its lowest byte first, a length word with flag 0 and length 1,
      the byte, and zeros up to the next word. */
  lemma {:induction false} OneByteStored(b: Byte)
    ensures Encode([b]) == [0x0a, 0x23, 0xd7, 0xce, 1, 0, 0, 0, b, 0, 0, 0]
  {
    assert Pieces([b]) == [[b]] by {
      assert [b][0..] == [b];
    }
    FrameBytes(0, [b], 3);
  }

  /** A record that is a magic word is stored as two empty frames, with the flags 1 and 3 in the top three bits of their length words. */
  lemma {:induction false} MagicStored()
    ensures Encode([0x0a, 0x23, 0xd7, 0xce]) == [0x0a, 0x23, 0xd7, 0xce, 0, 0, 0, 0x20, 0x0a, 0x23, 0xd7, 0xce, 0, 0, 0, 0x60]
  {
    var rec: seq<Byte> := [0x0a, 0x23, 0xd7, 0xce];
    assert MagicAt(rec, 0);
    assert PiecesFrom(rec, 4, 4) == [rec[4..]] && rec[4..] == [] && rec[0..0] == [];
    assert Pieces(rec) == [[], []];
    assert Rest(Pieces(rec)) == [[]];
    FrameBytes(1, [], 0);
    FrameBytes(3, [], 0);
    assert Frames([[]], false) == Frame(3, []);
  }

  lemma {:induction false} FrameBytes(cflag: nat, data: seq<Byte>, padding: nat)
    requires cflag < 4 && |data| < 0x100 && padding == UpperAlign(|data|) - |data|
    ensures Frame(cflag, data) == [0x0a, 0x23, 0xd7, 0xce, |data|, 0, 0, 0x20 * cflag] + data + Zeros(padding)
  {
    var w := EncodeLRec(cflag, |data|);
    assert w == cflag * 0x2000_0000 + |data|;
    assert w / 0x100_0000 == 0x20 * cflag && w / 0x1_0000 == 0x2000 * cflag && w / 0x100 == 0x20_0000 * cflag;
    assert WordBytes(w) == [|data|, 0, 0, 0x20 * cflag];
  }

  predicate Writable(recs: seq<seq<Byte>>) {
    forall rec <- recs :: |rec| < LENGTH_LIMIT
  }

  /** Records written back to back. */
  function Stored(recs: seq<seq<Byte>>): seq<Byte>
    requires Writable(recs)
  {
    if recs == [] then [] else Encode(recs[0]) + Stored(recs[1..])
  }

  lemma {:induction false} StoredAppend(recs: seq<seq<Byte>>, more: seq<seq<Byte>>)
    requires Writable(recs) && Writable(more)
    ensures Stored(recs + more) == Stored(recs) + Stored(more)
  {
    if recs == [] {
      assert recs + more == more;
    } else {
      assert (recs + more)[1..] == recs[1..] + more;
      StoredAppend(recs[1..], more);
    }
  }

  lemma {:induction false} StoredOne(rec: seq<Byte>)
    requires |rec| < LENGTH_LIMIT
    ensures Stored([rec]) == Encode(rec)
  {
    var none: seq<seq<Byte>> := [rec][1..];
    assert none == [] && Stored(none) == [];
  }

  // ----- the writer -----

  class RecordIOWriter {
    var stream: seq<Byte>
    var exceptCounter: nat

    constructor ()
      ensures stream == [] && exceptCounter == 0
    {
      stream, exceptCounter := [], 0;
    }

    method Write(bytes: seq<Byte>)
      modifies `stream
      ensures stream == old(stream) + bytes
    {
      stream := stream + bytes;
    }

    method WriteFrame(cflag: nat, data: seq<Byte>)
      requires cflag < 4 && |data| < LENGTH_LIMIT
      modifies `stream
      ensures stream + Zeros(UpperAlign(|data|) - |data|) == old(stream) + Frame(cflag, data)
    {
      LRecRoundTrip(cflag, |data|);
      Write(MAGIC_BYTES);
      Write(WordBytes(EncodeLRec(cflag, |data|)));
      if |data| != 0 {
        Write(data);
      }
    }

    method WriteCut(rec: seq<Byte>, dptr: nat, i: nat, ghost whole: seq<Byte>)
      requires Progress(rec, dptr, i, stream, whole) && MagicAt(rec, i)
      modifies `stream
      ensures Progress(rec, i + 4, i + 4, stream, whole) && CountMagic(rec, i) == 1 + CountMagic(rec, i + 4)
    {
      hide *;
      ProgressBounds(rec, dptr, i, stream, whole);
      MagicInside(rec, i);
      ghost var stream0 := stream;
      WriteFrame(if dptr == 0 then 1 else 2, rec[dptr..i]);
      CutStep(rec, dptr, i, stream0, stream, whole);
    }

    /** Writes a record; fails when it is too long. The counter grows by the number of magic words that are cut out. */
    method WriteRecord(rec: seq<Byte>) returns (ok: bool)
      modifies this
      ensures ok <==> |rec| < LENGTH_LIMIT
      ensures ok ==> stream == old(stream) + Encode(rec) && exceptCounter == old(exceptCounter) + CountMagic(rec, 0)
      ensures !ok ==> stream == old(stream) && exceptCounter == old(exceptCounter)
    {
      hide *;
      if |rec| >= LENGTH_LIMIT {
        return false;
      }
      var lowerAlign, upperAlign := LowerAlign(|rec|), UpperAlign(|rec|);
      var dptr: nat, i: nat := 0, 0;
      ghost var whole := stream + Encode(rec);
      StartProgress(rec, stream);
      while i < lowerAlign
        invariant i <= lowerAlign && Progress(rec, dptr, i, stream, whole)
        invariant exceptCounter + CountMagic(rec, i) == old(exceptCounter) + CountMagic(rec, 0)
      {
        ProgressBounds(rec, dptr, i, stream, whole);
        AlignDown(|rec|, i);
        if MagicAt(rec, i) {
          WriteCut(rec, dptr, i, whole);
          dptr := i + 4;
          exceptCounter := exceptCounter + 1;
        } else {
          SkipStep(rec, dptr, i, stream, whole);
        }
        i := i + 4;
      }
      ghost var stream0 := stream;
      ProgressBounds(rec, dptr, i, stream, whole);
      AlignDown(|rec|, i);
      AlignUp(|rec|);
      WriteFrame(if dptr != 0 then 3 else 0, rec[dptr..]);
      LastStep(rec, dptr, i, stream0, stream, whole);
      if upperAlign != |rec| {
        Write(Zeros(upperAlign - |rec|));
      }
      return true;
    }
  }

  /** The stream and the frames of the pieces from dptr on make up the whole. */
  ghost predicate Progress(rec: seq<Byte>, dptr: nat, i: nat, stream: seq<Byte>, whole: seq<Byte>) {
    && dptr <= i && dptr <= |rec| < LENGTH_LIMIT && dptr % 4 == 0 && i % 4 == 0 && NoneBetween(rec, dptr, i)
    && Fit(PiecesFrom(rec, dptr, i)) && stream + Frames(PiecesFrom(rec, dptr, i), dptr == 0) == whole
  }

  lemma {:induction false} StartProgress(rec: seq<Byte>, stream: seq<Byte>)
    requires |rec| < LENGTH_LIMIT
    ensures Progress(rec, 0, 0, stream, stream + Encode(rec))
  {
    hide Frames;
  }

  lemma {:induction false} ProgressBounds(rec: seq<Byte>, dptr: nat, i: nat, stream: seq<Byte>, whole: seq<Byte>)
    requires Progress(rec, dptr, i, stream, whole)
    ensures dptr <= i && dptr <= |rec| < LENGTH_LIMIT && dptr % 4 == 0 && i % 4 == 0
  {
  }

  lemma {:induction false} SkipStep(rec: seq<Byte>, dptr: nat, i: nat, stream: seq<Byte>, whole: seq<Byte>)
    requires Progress(rec, dptr, i, stream, whole) && i + 4 <= |rec| && !MagicAt(rec, i)
    ensures Progress(rec, dptr, i + 4, stream, whole) && CountMagic(rec, i) == CountMagic(rec, i + 4)
  {
    hide MagicAt, Fit, Frames;
  }

  /** Cutting at a magic word writes one frame, without padding. */
  lemma {:induction false} CutStep(rec: seq<Byte>, dptr: nat, i: nat, stream: seq<Byte>, stream1: seq<Byte>, whole: seq<Byte>)
    requires Progress(rec, dptr, i, stream, whole) && MagicAt(rec, i)
    requires stream1 + Zeros(UpperAlign(|rec[dptr..i]|) - |rec[dptr..i]|) == stream + Frame(if dptr == 0 then 1 else 2, rec[dptr..i])
    ensures Progress(rec, i + 4, i + 4, stream1, whole) && CountMagic(rec, i) == 1 + CountMagic(rec, i + 4)
  {
    hide Frame, Frames, MagicAt, Join, UpperAlign;
    FramesCut(rec, dptr, i);
    NoPadding(stream1, |rec[dptr..i]|);
  }

  lemma {:induction false} FramesCut(rec: seq<Byte>, dptr: nat, i: nat)
    requires dptr <= i && |rec| < LENGTH_LIMIT && dptr % 4 == 0 && i % 4 == 0 && MagicAt(rec, i) && Fit(PiecesFrom(rec, dptr, i))
    ensures var rest := PiecesFrom(rec, i + 4, i + 4);
      && Fit(rest) && CountMagic(rec, i) == 1 + CountMagic(rec, i + 4) && NoneBetween(rec, i + 4, i + 4)
      && Frames(PiecesFrom(rec, dptr, i), dptr == 0) == Frame(if dptr == 0 then 1 else 2, rec[dptr..i]) + Frames(rest, false)
  {
    hide Fit, Frame;
    MagicInside(rec, i);
    PiecesRight(rec, i + 4, i + 4);
    var ps, rest := PiecesFrom(rec, dptr, i), PiecesFrom(rec, i + 4, i + 4);
    assert ps == [rec[dptr..i]] + rest;
    assert Rest(ps) == rest;
  }

  lemma {:induction false} MagicInside(rec: seq<Byte>, i: nat)
    requires MagicAt(rec, i)
    ensures i + 4 <= |rec|
  {
  }

  /** The padding of the last frame is that of the record. */
  lemma {:induction false} LastStep(rec: seq<Byte>, dptr: nat, i: nat, stream: seq<Byte>, stream1: seq<Byte>, whole: seq<Byte>)
    requires Progress(rec, dptr, i, stream, whole) && i + 4 > |rec|
    requires stream1 + Zeros(UpperAlign(|rec[dptr..]|) - |rec[dptr..]|) == stream + Frame(if dptr != 0 then 3 else 0, rec[dptr..])
    ensures stream1 + Zeros(UpperAlign(|rec|) - |rec|) == whole && CountMagic(rec, i) == 0
    ensures UpperAlign(|rec|) == |rec| ==> stream1 == whole
  {
    hide Frame;
  }

  lemma {:induction false} NoPadding(stream: seq<Byte>, n: nat)
    requires n % 4 == 0
    ensures UpperAlign(n) == n && stream + Zeros(UpperAlign(n) - n) == stream
  {
  }

  // ----- reading -----

  datatype ReadResult =
    | Record(bytes: seq<Byte>)
    | EndOfStream
    | Invalid

  /** What a reader finds at position p: the record that starts with acc, and the position after it. */
  function ReadFrom(s: seq<Byte>, p: nat, acc: seq<Byte>): (ReadResult, nat)
    requires p <= |s|
    decreases |s| - p
  {
    if p == |s| then (EndOfStream, p)
    else if p + 8 > |s| || WordAt(s, p) != MAGIC then (Invalid, p)
    else
      var cflag, len := DecodeFlag(WordAt(s, p + 4)), DecodeLength(WordAt(s, p + 4));
      if p + 8 + UpperAlign(len) > |s| then (Invalid, p)
      else
        var data, next := s[p + 8..p + 8 + len], p + 8 + UpperAlign(len);
        if cflag == 0 || cflag == 3 then (Record(acc + data), next)
        else ReadFrom(s, next, acc + data + MAGIC_BYTES)
  }

  /** A frame is read back. */
  lemma {:induction false} ReadFrame(pre: seq<Byte>, cflag: nat, data: seq<Byte>, post: seq<Byte>)
    requires cflag < 4 && |data| < LENGTH_LIMIT
    ensures var s, p := pre + Frame(cflag, data) + post, |pre|;
      && p + 8 + UpperAlign(|data|) <= |s| && WordAt(s, p) == MAGIC
      && DecodeFlag(WordAt(s, p + 4)) == cflag && DecodeLength(WordAt(s, p + 4)) == |data|
      && s[p + 8..p + 8 + |data|] == data && p + 8 + UpperAlign(|data|) == |pre + Frame(cflag, data)|
  {
    var f := Frame(cflag, data);
    var w := EncodeLRec(cflag, |data|);
    LRecRoundTrip(cflag, |data|);
    WordBytesWord(w);
    WordAtIn(pre, f, post, 0);
    WordAtIn(pre, f, post, 4);
    assert f == MAGIC_BYTES + WordBytes(w) + (data + Zeros(UpperAlign(|data|) - |data|));
    WordAtIn(MAGIC_BYTES, WordBytes(w), data + Zeros(UpperAlign(|data|) - |data|), 0);
    assert (pre + f + post)[|pre| + 8..|pre| + 8 + |data|] == data;
  }

  /** One frame of several: reading goes on after it. */
  lemma {:induction false} ReadMore(pre: seq<Byte>, cflag: nat, data: seq<Byte>, post: seq<Byte>, acc: seq<Byte>)
    requires cflag < 4 && |data| < LENGTH_LIMIT
    ensures var s, next := pre + Frame(cflag, data) + post, |pre + Frame(cflag, data)|;
      ReadFrom(s, |pre|, acc) == if cflag == 0 || cflag == 3 then (Record(acc + data), next) else ReadFrom(s, next, acc + data + MAGIC_BYTES)
  {
    ReadFrame(pre, cflag, data, post);
    hide Frame, WordAt, DecodeFlag, DecodeLength;
  }

  lemma {:induction false} ReadFrames(pre: seq<Byte>, pieces: seq<seq<Byte>>, first: bool, post: seq<Byte>, acc: seq<Byte>)
    requires Fit(pieces)
    ensures ReadFrom(pre + Frames(pieces, first) + post, |pre|, acc) == (Record(acc + Join(pieces)), |pre + Frames(pieces, first)|)
    decreases |pieces|
  {
    hide ReadFrom, Frame, NoMagic;
    if |pieces| == 1 {
      ReadMore(pre, if first then 0 else 3, pieces[0], post, acc);
    } else {
      var f, rest := Frame(if first then 1 else 2, pieces[0]), Rest(pieces);
      var acc1 := acc + pieces[0] + MAGIC_BYTES;
      ReadMore(pre, if first then 1 else 2, pieces[0], Frames(rest, false) + post, acc);
      ReadFrames(pre + f, rest, false, post, acc1);
      assert pre + Frames(pieces, first) + post == pre + f + (Frames(rest, false) + post) == (pre + f) + Frames(rest, false) + post;
      assert acc1 + Join(rest) == acc + Join(pieces);
      assert (pre + f) + Frames(rest, false) == pre + Frames(pieces, first);
    }
  }

  /** Reading where a record was written gives it back, whatever is around it. */
  lemma {:induction false} ReadEncoded(pre: seq<Byte>, rec: seq<Byte>, post: seq<Byte>)
    requires |rec| < LENGTH_LIMIT
    ensures ReadFrom(pre + Encode(rec) + post, |pre|, []) == (Record(rec), |pre + Encode(rec)|)
  {
    ReadFrames(pre, Pieces(rec), true, post, []);
    assert [] + Join(Pieces(rec)) == rec;
  }

  /** Where records were written back to back from p on, r is the first of them, and the others start at q. */
  ghost predicate ReadsFirst(s: seq<Byte>, p: nat, r: ReadResult, q: nat)
    requires p <= |s|
  {
    forall recs | Writable(recs) && s[p..] == Stored(recs) :: FirstOf(s, recs, r, q)
  }

  ghost predicate FirstOf(s: seq<Byte>, recs: seq<seq<Byte>>, r: ReadResult, q: nat)
    requires Writable(recs)
  {
    if recs == [] then r == EndOfStream
    else r == Record(recs[0]) && q <= |s| && Writable(recs[1..]) && s[q..] == Stored(recs[1..])
  }

  lemma {:induction false} ReadStored(s: seq<Byte>, p: nat)
    requires p <= |s|
    ensures var (r, q) := ReadFrom(s, p, []); ReadsFirst(s, p, r, q) && forall q1: nat | !r.Record? :: ReadsFirst(s, p, r, q1)
  {
    hide Encode, ReadFrom;
    forall recs | Writable(recs) && s[p..] == Stored(recs) ensures FirstOf(s, recs, ReadFrom(s, p, []).0, ReadFrom(s, p, []).1) {
      if recs != [] {
        var post := Stored(recs[1..]);
        assert s == s[..p] + s[p..] == s[..p] + Encode(recs[0]) + post;
        ReadEncoded(s[..p], recs[0], post);
      } else {
        ReadEnd(s);
      }
    }
  }

  lemma {:induction false} ReadEnd(s: seq<Byte>)
    ensures ReadFrom(s, |s|, []) == (EndOfStream, |s|)
  {
  }

  class RecordIOReader {
    const stream: seq<Byte>
    var pos: nat
    var endOfStream: bool

    constructor (stream: seq<Byte>)
      ensures this.stream == stream && pos == 0 && !endOfStream
    {
      this.stream, pos, endOfStream := stream, 0, false;
    }

    /** Reads up to n bytes. */
    method Read(n: nat) returns (bytes: seq<Byte>)
      requires pos <= |stream|
      modifies `pos
      ensures pos == (if old(pos) + n <= |stream| then old(pos) + n else |stream|) && bytes == stream[old(pos)..pos]
    {
      var end := if pos + n <= |stream| then pos + n else |stream|;
      bytes, pos := stream[pos..end], end;
    }

    /** The next record. Where records were written back to back, it is the first of them, and the others are left. */
    method NextRecord() returns (r: ReadResult)
      requires pos <= |stream|
      modifies this
      ensures pos <= |stream|
      ensures old(endOfStream) ==> r == EndOfStream && endOfStream
      ensures !old(endOfStream) ==> r == ReadFrom(stream, old(pos), []).0 && (r.Record? ==> pos == ReadFrom(stream, old(pos), []).1 && !endOfStream)
      ensures !old(endOfStream) ==> ReadsFirst(stream, old(pos), r, pos)
    {
      hide WordAt, DecodeFlag, DecodeLength, UpperAlign, ReadsFirst;
      if endOfStream {
        return EndOfStream;
      }
      ReadStored(stream, pos);
      var outRec: seq<Byte> := [];
      while true
        invariant pos <= |stream| && !endOfStream
        invariant ReadFrom(stream, pos, outRec) == ReadFrom(stream, old(pos), [])
        decreases |stream| - pos
      {
        ghost var p := pos;
        var header := Read(8);
        if |header| == 0 {
          endOfStream := true;
          return EndOfStream;
        }
        if |header| != 8 {
          return Invalid;
        }
        WordAtSlice(stream, p, p + 8, 0);
        if WordAt(header, 0) != MAGIC {
          return Invalid;
        }
        WordAtSlice(stream, p, p + 8, 4);
        var cflag, len := DecodeFlag(WordAt(header, 4)), DecodeLength(WordAt(header, 4));
        var data := Read(UpperAlign(len));
        if |data| != UpperAlign(len) {
          return Invalid;
        }
        AlignUp(len);
        assert data[..len] == stream[p + 8..p + 8 + len];
        outRec := outRec + data[..len];
        if cflag == 0 || cflag == 3 {
          return Record(outRec);
        }
        outRec := outRec + MAGIC_BYTES;
      }
    }
  }

  function CountAll(recs: seq<seq<Byte>>): nat {
    if recs == [] then 0 else CountMagic(recs[0], 0) + CountAll(recs[1..])
  }

  lemma {:induction false} CountAllSnoc(recs: seq<seq<Byte>>, rec: seq<Byte>)
    ensures CountAll(recs + [rec]) == CountAll(recs) + CountMagic(rec, 0)
  {
    if recs != [] {
      assert (recs + [rec])[1..] == recs[1..] + [rec];
      CountAllSnoc(recs[1..], rec);
    } else {
      assert recs + [rec] == [rec] && [rec][1..] == [];
    }
  }

  /** Writes the records to a new stream. */
  method WriteAll(recs: seq<seq<Byte>>) returns (stream: seq<Byte>, exceptCounter: nat)
    requires Writable(recs)
    ensures stream == Stored(recs) && exceptCounter == CountAll(recs)
  {
    var writer := new RecordIOWriter();
    for i := 0 to |recs|
      invariant writer.stream == Stored(recs[..i]) && writer.exceptCounter == CountAll(recs[..i])
    {
      var ok := writer.WriteRecord(recs[i]);
      assert recs[..i + 1] == recs[..i] + [recs[i]];
      StoredOne(recs[i]);
      StoredAppend(recs[..i], [recs[i]]);
      CountAllSnoc(recs[..i], recs[i]);
    }
    assert recs[..|recs|] == recs;
    return writer.stream, writer.exceptCounter;
  }

  /** Where all records were written back to back, recs are the first of them, and the others start at p. */
  ghost predicate ReadSoFar(s: seq<Byte>, recs: seq<seq<Byte>>, p: nat)
    requires p <= |s|
  {
    forall all | Writable(all) && s == Stored(all) :: SplitAt(s, all, recs, p)
  }

  ghost predicate SplitAt(s: seq<Byte>, all: seq<seq<Byte>>, recs: seq<seq<Byte>>, p: nat)
    requires p <= |s|
  {
    |recs| <= |all| && recs == all[..|recs|] && Writable(all[|recs|..]) && s[p..] == Stored(all[|recs|..])
  }

  lemma {:induction false} ReadStep(s: seq<Byte>, recs: seq<seq<Byte>>, p: nat, r: ReadResult, q: nat)
    requires p <= |s| && q <= |s| && ReadSoFar(s, recs, p) && ReadsFirst(s, p, r, q)
    ensures r.Record? ==> ReadSoFar(s, recs + [r.bytes], q)
    ensures !r.Record? ==> forall all | Writable(all) && s == Stored(all) :: recs == all && r == EndOfStream
  {
    hide Stored;
    forall all | Writable(all) && s == Stored(all)
      ensures if r.Record? then SplitAt(s, all, recs + [r.bytes], q) else recs == all && r == EndOfStream
    {
      assert SplitAt(s, all, recs, p);
      var rest := all[|recs|..];
      assert FirstOf(s, rest, r, q);
      if rest != [] {
        assert rest[1..] == all[|recs| + 1..];
        assert all[..|recs| + 1] == recs + [all[|recs|]];
      }
    }
  }

  /** Reads a stream to its end. */
  method ReadAll(stream: seq<Byte>) returns (recs: seq<seq<Byte>>, last: ReadResult)
    ensures last in {EndOfStream, Invalid}
    ensures forall all | Writable(all) && stream == Stored(all) :: recs == all && last == EndOfStream
  {
    hide Stored, ReadSoFar, ReadsFirst, ReadFrom;
    var reader := new RecordIOReader(stream);
    recs := [];
    StartReading(stream);
    while true
      invariant reader.pos <= |stream| && !reader.endOfStream && reader.stream == stream
      invariant ReadSoFar(stream, recs, reader.pos)
      decreases |stream| - reader.pos
    {
      ghost var p := reader.pos;
      last := reader.NextRecord();
      ReadStep(stream, recs, p, last, reader.pos);
      if !last.Record? {
        return;
      }
      ReadForward(stream, p, []);
      recs := recs + [last.bytes];
    }
  }

  lemma {:induction false} StartReading(s: seq<Byte>)
    ensures ReadSoFar(s, [], 0)
  {
    assert s[0..] == s;
    forall all | Writable(all) && s == Stored(all) ensures SplitAt(s, all, [], 0) {
      assert all[0..] == all;
    }
  }

  lemma {:induction false} ReadForward(s: seq<Byte>, p: nat, acc: seq<Byte>)
    requires p <= |s| && ReadFrom(s, p, acc).0.Record?
    ensures p < ReadFrom(s, p, acc).1 <= |s|
    decreases |s| - p
  {
    var cflag, len := DecodeFlag(WordAt(s, p + 4)), DecodeLength(WordAt(s, p + 4));
    if cflag != 0 && cflag != 3 {
      ReadForward(s, p + 8 + UpperAlign(len), acc + s[p + 8..p + 8 + len] + MAGIC_BYTES);
    }
  }

  /** The streaming round trip. */
  method RoundTrip(recs: seq<seq<Byte>>) returns (back: seq<seq<Byte>>, last: ReadResult, exceptCounter: nat)
    requires Writable(recs)
    ensures back == recs && last == EndOfStream && exceptCounter == CountAll(recs)
  {
    var stream;
    stream, exceptCounter := WriteAll(recs);
    back, last := ReadAll(stream);
  }
}
