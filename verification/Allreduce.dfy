/** The tree reduction that threads of a block do together over shared memory (src/pass/lower_thread_allreduce.cc). */
module Allreduce {
  import opened Wrappers
  import Arithmetic

  // ----- folding with an associative and commutative combiner -----

  ghost predicate Combiner<T(!new)>(op: (T, T) -> T) {
    && (forall a, b :: op(a, b) == op(b, a))
    && (forall a, b, c :: op(op(a, b), c) == op(a, op(b, c)))
  }

  function Fold<T>(op: (T, T) -> T, s: seq<T>): T
    requires s != []
  {
    var n := |s| - 1;
    if n == 0 then s[0] else op(Fold(op, s[..n]), s[n])
  }

  /** A value may be combined into any element. */
  lemma {:induction false} FoldAbsorb<T(!new)>(op: (T, T) -> T, s: seq<T>, i: nat, x: T)
    requires Combiner(op) && i < |s|
    ensures op(Fold(op, s), x) == Fold(op, s[i := op(s[i], x)])
  {
    hide Combiner;
    var n := |s| - 1;
    var s1 := s[i := op(s[i], x)];
    if n > 0 {
      var f := Fold(op, s[..n]);
      Regroup(op, f, s[n], x);
      if i == n {
        assert s1[..n] == s[..n];
      } else {
        FoldAbsorb(op, s[..n], i, x);
        assert s1[..n] == s[..n][i := op(s[i], x)];
      }
    }
  }

  lemma {:induction false} Regroup<T(!new)>(op: (T, T) -> T, a: T, b: T, x: T)
    requires Combiner(op)
    ensures op(op(a, b), x) == op(a, op(b, x)) && op(op(a, b), x) == op(op(a, x), b)
  {
    assert op(op(a, b), x) == op(a, op(b, x)) == op(a, op(x, b)) == op(op(a, x), b);
  }

  /** The first off elements, the first bound of them combined with the element off places further. */
  function Halved<T>(op: (T, T) -> T, s: seq<T>, bound: nat, off: nat): seq<T>
    requires bound <= off && off + bound <= |s|
  {
    seq(off, i requires 0 <= i < off => if i < bound then op(s[i], s[i + off]) else s[i])
  }

  /** Halving keeps the fold. */
  lemma {:induction false} FoldHalved<T(!new)>(op: (T, T) -> T, s: seq<T>, bound: nat, off: nat)
    requires Combiner(op) && bound <= off && 0 < off && off + bound <= |s|
    ensures Fold(op, s[..off + bound]) == Fold(op, Halved(op, s, bound, off))
  {
    hide Fold, Combiner;
    if bound == 0 {
      assert Halved(op, s, 0, off) == s[..off];
    } else {
      var h, x := Halved(op, s, bound - 1, off), s[off + bound - 1];
      FoldHalved(op, s, bound - 1, off);
      FoldSnoc(op, s[..off + bound - 1], x);
      assert s[..off + bound] == s[..off + bound - 1] + [x];
      FoldAbsorb(op, h, bound - 1, x);
      HalvedMore(op, s, bound, off);
    }
  }

  lemma {:induction false} FoldSnoc<T>(op: (T, T) -> T, s: seq<T>, x: T)
    requires s != []
    ensures Fold(op, s + [x]) == op(Fold(op, s), x)
  {
    assert (s + [x])[..|s|] == s;
  }

  lemma {:induction false} HalvedMore<T>(op: (T, T) -> T, s: seq<T>, bound: nat, off: nat)
    requires 0 < bound <= off && off + bound <= |s|
    ensures var h := Halved(op, s, bound - 1, off);
      h[bound - 1 := op(h[bound - 1], s[off + bound - 1])] == Halved(op, s, bound, off)
  {
  }

  // ----- slots -----

  /** The slot of a thread: its index in the reduction within the slots of its group. */
  function BufIndex(reduceIndex: nat, groupIndex: nat, reduceExtent: nat): nat {
    if groupIndex != 0 then groupIndex * reduceExtent + reduceIndex else reduceIndex
  }

  lemma {:induction false} SlotDivMod(g: nat, i: nat, r: nat)
    requires i < r
    ensures BufIndex(i, g, r) == g * r + i && (g * r + i) / r == g && (g * r + i) % r == i
  {
    Arithmetic.DivModUnique(g * r + i, r, g, i);
  }

  /** Threads of the groups and slots correspond one to one: a thread is found from its slot, ... */
  lemma {:induction false} SlotOfThread(g: nat, i: nat, groups: nat, r: nat)
    requires g < groups && i < r
    ensures var t := BufIndex(i, g, r); t == g * r + i < groups * r && t / r == g && t % r == i
  {
    Arithmetic.MulMore(g, groups, r);
    SlotDivMod(g, i, r);
  }

  /** ... and every slot is that of a thread. */
  lemma {:induction false} ThreadOfSlot(t: nat, groups: nat, r: nat)
    requires t < groups * r
    ensures r > 0 && t / r < groups && t % r < r && BufIndex(t % r, t / r, r) == t
  {
    DivBound(t, r, groups);
    Arithmetic.DivTimes(t, r);
  }

  // ----- flattening thread indices -----

  datatype ThreadEntry = ThreadEntry(dimIndex: nat, extent: nat)

  /** The flat index as an expression over the thread indices. */
  datatype FlatIndex = Zero | Axis(axis: nat) | Plus(rest: FlatIndex, axis: nat, stride: nat)

  function Eval(f: FlatIndex, idx: seq<nat>): nat {
    match f
    case Zero => 0
    case Axis(i) => if i < |idx| then idx[i] else 0
    case Plus(rest, i, stride) => Eval(rest, idx) + (if i < |idx| then idx[i] * stride else 0)
  }

  function Total(tvec: seq<ThreadEntry>): nat {
    if tvec == [] then 1 else Total(tvec[..|tvec| - 1]) * tvec[|tvec| - 1].extent
  }

  ghost predicate InRange(idx: seq<nat>, tvec: seq<ThreadEntry>) {
    |idx| == |tvec| && forall i | 0 <= i < |idx| :: idx[i] < tvec[i].extent
  }

  /** The thread indices with a given flat index. */
  function Unflatten(v: nat, tvec: seq<ThreadEntry>): (idx: seq<nat>)
    ensures |idx| == |tvec|
  {
    if tvec == [] then []
    else
      var rest := tvec[..|tvec| - 1];
      var t := Total(rest);
      if t == 0 then seq(|tvec|, _ => 0) else Unflatten(v % t, rest) + [v / t]
  }

  /** f numbers the index vectors of tvec from 0 to the total extent, each once. */
  ghost predicate Numbers(f: FlatIndex, tvec: seq<ThreadEntry>) {
    && (forall idx | InRange(idx, tvec) :: Eval(f, idx) < Total(tvec) && Unflatten(Eval(f, idx), tvec) == idx)
    && (forall v: nat | v < Total(tvec) :: InRange(Unflatten(v, tvec), tvec) && Eval(f, Unflatten(v, tvec)) == v)
  }

  /** Only the axes below n occur. */
  predicate AxesBelow(f: FlatIndex, n: nat) {
    match f
    case Zero => true
    case Axis(i) => i < n
    case Plus(rest, i, _) => i < n && AxesBelow(rest, n)
  }

  lemma {:induction false} EvalPrefix(f: FlatIndex, idx: seq<nat>, n: nat)
    requires AxesBelow(f, n) && n <= |idx|
    ensures Eval(f, idx[..n]) == Eval(f, idx)
  {
    if f.Plus? {
      EvalPrefix(f.rest, idx, n);
    }
  }

  /** One more thread axis, with the total extent so far as its stride. */
  lemma {:induction false} NumbersMore(f: FlatIndex, tvec: seq<ThreadEntry>, e: ThreadEntry)
    requires Numbers(f, tvec) && AxesBelow(f, |tvec|)
    ensures Numbers(Plus(f, |tvec|, Total(tvec)), tvec + [e])
  {
    var f1, tvec1 := Plus(f, |tvec|, Total(tvec)), tvec + [e];
    forall idx | InRange(idx, tvec1) ensures Eval(f1, idx) < Total(tvec1) && Unflatten(Eval(f1, idx), tvec1) == idx {
      FlattenMore(f, tvec, e, idx);
    }
    forall v: nat | v < Total(tvec1) ensures InRange(Unflatten(v, tvec1), tvec1) && Eval(f1, Unflatten(v, tvec1)) == v {
      UnflattenMore(f, tvec, e, v);
    }
  }

  lemma {:induction false} TotalMore(tvec: seq<ThreadEntry>, e: ThreadEntry, v: nat)
    ensures Total(tvec + [e]) == e.extent * Total(tvec)
    ensures Total(tvec) > 0 ==> Unflatten(v, tvec + [e]) == Unflatten(v % Total(tvec), tvec) + [v / Total(tvec)]
  {
    assert (tvec + [e])[..|tvec|] == tvec;
  }

  lemma {:induction false} FlattenMore(f: FlatIndex, tvec: seq<ThreadEntry>, e: ThreadEntry, idx: seq<nat>)
    requires Numbers(f, tvec) && AxesBelow(f, |tvec|) && InRange(idx, tvec + [e])
    ensures var v := Eval(Plus(f, |tvec|, Total(tvec)), idx); v < Total(tvec + [e]) && Unflatten(v, tvec + [e]) == idx
  {
    var n, t := |tvec|, Total(tvec);
    var low, v := idx[..n], Eval(Plus(f, n, t), idx);
    assert InRange(low, tvec) by {
      assert forall i | 0 <= i < n :: (tvec + [e])[i] == tvec[i];
    }
    EvalPrefix(f, idx, n);
    Arithmetic.MulMore(idx[n], e.extent, t);
    Arithmetic.DivModUnique(v, t, idx[n], Eval(f, low));
    TotalMore(tvec, e, v);
    assert idx == low + [idx[n]];
  }

  lemma {:induction false} UnflattenMore(f: FlatIndex, tvec: seq<ThreadEntry>, e: ThreadEntry, v: nat)
    requires Numbers(f, tvec) && AxesBelow(f, |tvec|) && v < Total(tvec + [e])
    ensures var idx := Unflatten(v, tvec + [e]); InRange(idx, tvec + [e]) && Eval(Plus(f, |tvec|, Total(tvec)), idx) == v
  {
    var n, t := |tvec|, Total(tvec);
    TotalMore(tvec, e, v);
    DivBound(v, t, e.extent);
    Arithmetic.DivTimes(v, t);
    var idx, low := Unflatten(v, tvec + [e]), Unflatten(v % t, tvec);
    assert InRange(low, tvec) && Eval(f, low) == v % t;
    assert idx == low + [v / t] && idx[..n] == low;
    EvalPrefix(f, idx, n);
  }

  lemma {:induction false} DivBound(v: nat, t: nat, b: nat)
    requires v < b * t
    ensures t > 0 && v / t < b
  {
    assert t != 0;
    Arithmetic.DivTimes(v, t);
  }

  lemma {:induction false} NumbersNone()
    ensures Numbers(Zero, []) && Total([]) == 1
  {
    assert forall idx | InRange(idx, []) :: idx == [];
  }

  /** The first axis numbers its own values. */
  lemma {:induction false} NumbersFirst(e: ThreadEntry)
    ensures Numbers(Axis(0), [e])
  {
    TotalMore([], e, 0);
    assert [] + [e] == [e];
    forall idx | InRange(idx, [e]) ensures Eval(Axis(0), idx) < Total([e]) && Unflatten(Eval(Axis(0), idx), [e]) == idx {
      TotalMore([], e, idx[0]);
      assert idx == [] + [idx[0]];
    }
    forall v: nat | v < Total([e]) ensures InRange(Unflatten(v, [e]), [e]) && Eval(Axis(0), Unflatten(v, [e])) == v {
      TotalMore([], e, v);
      assert Unflatten(v, [e]) == [v];
    }
  }

  /** Flattens the thread axes: the first as it is, each other one times the total extent before it. */
  method FlattenThread(tvec: seq<ThreadEntry>) returns (ret: FlatIndex, totalExtent: nat)
    ensures totalExtent == Total(tvec) && Numbers(ret, tvec)
  {
    hide Numbers, Total, Eval, Unflatten, InRange;
    totalExtent, ret := 1, Zero;
    NumbersNone();
    if tvec == [] {
      return;
    }
    for i := 0 to |tvec|
      invariant totalExtent == Total(tvec[..i]) && AxesBelow(ret, i) && (ret == Zero <==> i == 0)
      invariant i > 0 ==> Numbers(ret, tvec[..i])
    {
      assert tvec[..i + 1] == tvec[..i] + [tvec[i]];
      AxesMore(ret, i);
      TotalMore(tvec[..i], tvec[i], 0);
      if ret != Zero {
        NumbersMore(ret, tvec[..i], tvec[i]);
        ret := Plus(ret, i, totalExtent);
      } else {
        NumbersFirst(tvec[0]);
        assert tvec[..1] == [tvec[0]];
        ret := Axis(i);
      }
      totalExtent := totalExtent * tvec[i].extent;
    }
    assert tvec[..|tvec|] == tvec;
  }

  lemma {:induction false} AxesMore(f: FlatIndex, n: nat)
    requires AxesBelow(f, n)
    ensures AxesBelow(f, n + 1)
  {
    if f.Plus? {
      AxesMore(f.rest, n);
    }
  }

  // ----- the emitted program -----

  /** Reduce: threads with an index below bound combine their slot with the one offset further.
      InWarp: threads below bound do so for each offset in turn, in lockstep, without a barrier. */
  datatype Stmt =
    | Reduce(bound: nat, offset: nat)
    | Barrier
    | WarpBarrier
    | InWarp(bound: nat, offsets: seq<nat>)

  /** The number of slots of a group that still hold the whole fold, and whether a barrier stands after the last shared step. */
  datatype Progress = Bad | At(live: nat, synced: bool)

  predicate Halves(offsets: seq<nat>, live: nat) {
    if offsets == [] then live == 1 else live == 2 * offsets[0] && Halves(offsets[1..], offsets[0])
  }

  function Advance(p: Progress, s: Stmt): Progress {
    if p.Bad? then Bad
    else match s
      case Barrier => At(p.live, true)
      case WarpBarrier => p
      case Reduce(bound, offset) =>
        if p.synced && bound <= offset && 0 < offset && offset + bound == p.live then At(offset, false) else Bad
      case InWarp(bound, offsets) =>
        if p.synced && p.live == 2 * bound && Halves(offsets, p.live) then At(1, false) else Bad
  }

  function ProgressOf(prog: seq<Stmt>, reduceExtent: nat): Progress {
    if prog == [] then At(reduceExtent, true)
    else Advance(ProgressOf(prog[..|prog| - 1], reduceExtent), prog[|prog| - 1])
  }

  /** A program that narrows every group to its first slot, with a barrier between any two steps on shared memory. */
  predicate Reduces(prog: seq<Stmt>, reduceExtent: nat) {
    var p := ProgressOf(prog, reduceExtent);
    p.At? && p.live == 1
  }

  /** Lockstep steps only involve threads of one warp: at most warpSize of them, all with the same other indices. */
  predicate WarpsFit(prog: seq<Stmt>, threadxExtent: nat, warpSize: nat) {
    forall s <- prog | s.InWarp? :: 2 * s.bound <= threadxExtent && 2 * s.bound <= warpSize
  }

  predicate PowerOfTwo(n: nat) {
    n == 1 || (n > 1 && n % 2 == 0 && PowerOfTwo(n / 2))
  }

  lemma {:induction false} Emit(prog: seq<Stmt>, s: Stmt, reduceExtent: nat)
    ensures ProgressOf(prog + [s], reduceExtent) == Advance(ProgressOf(prog, reduceExtent), s)
  {
    assert (prog + [s])[..|prog|] == prog;
  }

  lemma {:induction false} PowerDoubled(n: nat)
    requires n >= 1 && PowerOfTwo(n)
    ensures PowerOfTwo(n * 2)
  {
    assert n * 2 / 2 == n;
  }

  lemma {:induction false} PowerHalved(n: nat)
    requires n > 1 && PowerOfTwo(n)
    ensures n / 2 * 2 == n && n / 2 >= 1 && PowerOfTwo(n / 2)
  {
  }

  /** The first of align, 2 * align, 4 * align, ... that is not less than n. */
  function AlignedFrom(n: nat, align: nat): (a: nat)
    requires align >= 1
    ensures align <= a && n <= a && (a == align || a < 2 * n)
    decreases n - align
  {
    if n > align then AlignedFrom(n, align * 2) else align
  }

  lemma {:induction false} AlignedPower(n: nat, align: nat)
    requires align >= 1 && PowerOfTwo(align)
    ensures PowerOfTwo(AlignedFrom(n, align))
    decreases n - align
  {
    if n > align {
      PowerDoubled(align);
      AlignedPower(n, align * 2);
    }
  }

  method NextPowerOfTwo(n: nat) returns (align: nat)
    requires n >= 1
    ensures align == AlignedFrom(n, 1) && PowerOfTwo(align)
  {
    align := 1;
    AlignedPower(n, 1);
    while n > align
      invariant 1 <= align && AlignedFrom(n, align) == AlignedFrom(n, 1)
      decreases 2 * n - align
    {
      align := align * 2;
    }
  }

  // ----- the program that is emitted -----

  /** The first step, for an extent that is no power of two. */
  function FirstStep(reduceExtent: nat): seq<Stmt> {
    var align := AlignedFrom(reduceExtent, 1);
    if align > reduceExtent then [Reduce(reduceExtent - align / 2, align / 2), Barrier] else []
  }

  function FirstAlign(reduceExtent: nat): nat {
    var align := AlignedFrom(reduceExtent, 1);
    if align > reduceExtent then align / 2 else align
  }

  /** Steps with barriers, until the threads of one row and of one warp are enough. */
  function SharedSteps(align: nat, threadxExtent: nat, warpSize: nat): seq<Stmt>
    requires threadxExtent >= 1 && warpSize >= 1
  {
    if align > threadxExtent || align > warpSize then [Reduce(align / 2, align / 2), Barrier] + SharedSteps(align / 2, threadxExtent, warpSize)
    else []
  }

  function WarpAlign(align: nat, threadxExtent: nat, warpSize: nat): (a: nat)
    requires threadxExtent >= 1 && warpSize >= 1
    ensures a <= align && a <= threadxExtent && a <= warpSize
  {
    if align > threadxExtent || align > warpSize then WarpAlign(align / 2, threadxExtent, warpSize) else align
  }

  function HalvesOf(align: nat): seq<nat> {
    if align <= 1 then [] else [align / 2] + HalvesOf(align / 2)
  }

  function WarpBarriers(n: nat): seq<Stmt> {
    seq(n, _ => WarpBarrier)
  }

  /** The steps of the first threads in lockstep. */
  function WarpSteps(align: nat): seq<Stmt> {
    var offsets := HalvesOf(align);
    WarpBarriers(|offsets|) + if offsets == [] then [] else [InWarp(align / 2, offsets)]
  }

  function Emitted(reduceExtent: nat, threadxExtent: nat, warpSize: nat): seq<Stmt>
    requires threadxExtent >= 1 && warpSize >= 1
  {
    var align := FirstAlign(reduceExtent);
    FirstStep(reduceExtent) + SharedSteps(align, threadxExtent, warpSize) + WarpSteps(WarpAlign(align, threadxExtent, warpSize))
  }

  lemma {:induction false} HalvesOfRight(align: nat)
    requires align >= 1 && PowerOfTwo(align)
    ensures Halves(HalvesOf(align), align)
  {
    if align > 1 {
      PowerHalved(align);
      HalvesOfRight(align / 2);
    }
  }

  /** A program that goes on from a number of live slots. */
  function ProgressFrom(p: Progress, prog: seq<Stmt>): Progress
    decreases |prog|
  {
    if prog == [] then p else Advance(ProgressFrom(p, prog[..|prog| - 1]), prog[|prog| - 1])
  }

  lemma {:induction false} ProgressAppend(prog: seq<Stmt>, more: seq<Stmt>, reduceExtent: nat)
    ensures ProgressOf(prog + more, reduceExtent) == ProgressFrom(ProgressOf(prog, reduceExtent), more)
    decreases |more|
  {
    if more == [] {
      assert prog + more == prog;
    } else {
      var n := |more| - 1;
      assert (prog + more)[..|prog| + n] == prog + more[..n];
      ProgressAppend(prog, more[..n], reduceExtent);
    }
  }

  lemma {:induction false} FromAppend(p: Progress, prog: seq<Stmt>, more: seq<Stmt>)
    ensures ProgressFrom(p, prog + more) == ProgressFrom(ProgressFrom(p, prog), more)
    decreases |more|
  {
    if more == [] {
      assert prog + more == prog;
    } else {
      var n := |more| - 1;
      assert (prog + more)[..|prog| + n] == prog + more[..n];
      FromAppend(p, prog, more[..n]);
    }
  }

  lemma {:induction false} TwoSteps(live: nat, bound: nat, offset: nat)
    requires bound <= offset && 0 < offset && offset + bound == live
    ensures ProgressFrom(At(live, true), [Reduce(bound, offset), Barrier]) == At(offset, true)
  {
    var two := [Reduce(bound, offset), Barrier];
    assert two[..1] == [Reduce(bound, offset)] && two[..1][..0] == [];
    assert ProgressFrom(At(live, true), two[..1]) == At(offset, false);
  }

  lemma {:induction false} SharedProgress(align: nat, threadxExtent: nat, warpSize: nat)
    requires threadxExtent >= 1 && warpSize >= 1 && align >= 1 && PowerOfTwo(align)
    ensures var a := WarpAlign(align, threadxExtent, warpSize);
      && ProgressFrom(At(align, true), SharedSteps(align, threadxExtent, warpSize)) == At(a, true) && a >= 1 && PowerOfTwo(a)
      && (a == 1 <==> align == 1 || threadxExtent == 1 || warpSize == 1)
    ensures forall s <- SharedSteps(align, threadxExtent, warpSize) :: !s.InWarp?
  {
    hide PowerOfTwo, Advance;
    if align > threadxExtent || align > warpSize {
      PowerHalved(align);
      TwoSteps(align, align / 2, align / 2);
      SharedProgress(align / 2, threadxExtent, warpSize);
      FromAppend(At(align, true), [Reduce(align / 2, align / 2), Barrier], SharedSteps(align / 2, threadxExtent, warpSize));
    }
  }

  lemma {:induction false} BarriersProgress(p: Progress, n: nat)
    requires p.At?
    ensures ProgressFrom(p, WarpBarriers(n)) == p
  {
    if n > 0 {
      assert WarpBarriers(n)[..n - 1] == WarpBarriers(n - 1);
      BarriersProgress(p, n - 1);
    }
  }

  lemma {:induction false} WarpProgress(align: nat)
    requires align >= 1 && PowerOfTwo(align)
    ensures ProgressFrom(At(align, true), WarpSteps(align)) == At(1, align == 1)
  {
    hide ProgressFrom, PowerOfTwo, Halves;
    var offsets := HalvesOf(align);
    BarriersProgress(At(align, true), |offsets|);
    if align > 1 {
      HalvesOfRight(align);
      PowerHalved(align);
      var last := [InWarp(align / 2, offsets)];
      FromAppend(At(align, true), WarpBarriers(|offsets|), last);
      OneStep(At(align, true), last[0]);
    } else {
      assert WarpBarriers(0) + [] == WarpBarriers(0);
    }
  }

  lemma {:induction false} OneStep(p: Progress, s: Stmt)
    ensures ProgressFrom(p, [s]) == Advance(p, s)
  {
    assert [s][..0] == [];
  }

  lemma {:induction false} FirstProgress(reduceExtent: nat)
    requires reduceExtent > 1
    ensures ProgressFrom(At(reduceExtent, true), FirstStep(reduceExtent)) == At(FirstAlign(reduceExtent), true)
    ensures FirstAlign(reduceExtent) >= 2 && PowerOfTwo(FirstAlign(reduceExtent)) && forall s <- FirstStep(reduceExtent) :: !s.InWarp?
  {
    hide PowerOfTwo, ProgressFrom;
    var align := AlignedFrom(reduceExtent, 1);
    PowerOne();
    AlignedPower(reduceExtent, 1);
    if align > reduceExtent {
      PowerHalved(align);
      TwoSteps(reduceExtent, reduceExtent - align / 2, align / 2);
    } else {
      NoSteps(At(reduceExtent, true));
    }
  }

  lemma {:induction false} PowerOne()
    ensures PowerOfTwo(1)
  {
  }

  lemma {:induction false} NoSteps(p: Progress)
    ensures ProgressFrom(p, []) == p
  {
  }

  /** The emitted program reduces. Steps in lockstep are at its end, and there are none exactly if a row or a warp has one thread. */
  lemma {:induction false} EmittedReduces(reduceExtent: nat, threadxExtent: nat, warpSize: nat)
    requires reduceExtent > 1 && threadxExtent >= 1 && warpSize >= 1
    ensures var prog := Emitted(reduceExtent, threadxExtent, warpSize);
      && prog != [] && ProgressOf(prog, reduceExtent) == At(1, threadxExtent == 1 || warpSize == 1)
      && (threadxExtent > 1 && warpSize > 1 ==>
           prog[|prog| - 1].InWarp? && prog[|prog| - 1].offsets != [] &&
           2 * prog[|prog| - 1].bound <= threadxExtent && 2 * prog[|prog| - 1].bound <= warpSize)
      && (forall i | 0 <= i < |prog| - 1 :: !prog[i].InWarp?) && (threadxExtent == 1 || warpSize == 1 ==> !prog[|prog| - 1].InWarp?)
  {
    hide PowerOfTwo, ProgressFrom, ProgressOf, AlignedFrom, FirstAlign, FirstStep, SharedSteps;
    var align := FirstAlign(reduceExtent);
    var first, shared := FirstStep(reduceExtent), SharedSteps(align, threadxExtent, warpSize);
    var a := WarpAlign(align, threadxExtent, warpSize);
    Started(reduceExtent);
    FirstProgress(reduceExtent);
    SharedProgress(align, threadxExtent, warpSize);
    WarpProgress(a);
    assert [] + first == first;
    ProgressAppend([], first, reduceExtent);
    ProgressAppend(first, shared, reduceExtent);
    ProgressAppend(first + shared, WarpSteps(a), reduceExtent);
    if a == 1 {
      assert WarpSteps(a) == [] && first + shared + [] == first + shared;
    } else {
      HalvesOfStart(a);
    }
  }

  lemma {:induction false} HalvesOfStart(align: nat)
    requires align > 1
    ensures HalvesOf(align) != [] && WarpSteps(align)[|WarpSteps(align)| - 1] == InWarp(align / 2, HalvesOf(align))
    ensures forall i | 0 <= i < |WarpSteps(align)| - 1 :: WarpSteps(align)[i] == WarpBarrier
  {
  }

  lemma {:induction false} Started(reduceExtent: nat)
    ensures ProgressOf([], reduceExtent) == At(reduceExtent, true)
  {
  }

  lemma {:induction false} WarpsFitEmitted(reduceExtent: nat, threadxExtent: nat, warpSize: nat)
    requires reduceExtent > 1 && threadxExtent >= 1 && warpSize >= 1
    ensures WarpsFit(Emitted(reduceExtent, threadxExtent, warpSize), threadxExtent, warpSize)
  {
    hide Emitted;
    EmittedReduces(reduceExtent, threadxExtent, warpSize);
    var prog := Emitted(reduceExtent, threadxExtent, warpSize);
    forall s <- prog | s.InWarp? ensures 2 * s.bound <= threadxExtent && 2 * s.bound <= warpSize {
      var i :| 0 <= i < |prog| && prog[i] == s;
    }
  }

  method MakeBufAllreduce(reduceExtent: nat, threadxExtent: nat, warpSize: nat) returns (prog: seq<Stmt>)
    requires reduceExtent > 1 && threadxExtent >= 1 && warpSize >= 1
    ensures prog == Emitted(reduceExtent, threadxExtent, warpSize)
    ensures Reduces(prog, reduceExtent) && WarpsFit(prog, threadxExtent, warpSize)
    ensures ProgressOf(prog, reduceExtent).synced <==> threadxExtent == 1 || warpSize == 1
    ensures prog != [] && (prog[|prog| - 1].InWarp? <==> threadxExtent > 1 && warpSize > 1)
    ensures forall i | 0 <= i < |prog| - 1 :: !prog[i].InWarp?
    ensures prog[|prog| - 1].InWarp? ==> prog[|prog| - 1].offsets != []
  {
    hide PowerOfTwo, ProgressOf, WarpsFit, SharedSteps, WarpAlign, HalvesOf, WarpBarriers, Emitted, AlignedFrom;
    var align: nat := NextPowerOfTwo(reduceExtent);
    AlignedHalf(reduceExtent);
    prog := [];
    if align > reduceExtent {
      align := align / 2;
      prog := prog + [Reduce(reduceExtent - align, align)];
      prog := prog + [Barrier];
    }
    assert prog == FirstStep(reduceExtent) && align == FirstAlign(reduceExtent);
    ghost var start, first := prog, align;
    while align > threadxExtent || align > warpSize
      invariant WarpAlign(align, threadxExtent, warpSize) == WarpAlign(first, threadxExtent, warpSize)
      invariant prog + SharedSteps(align, threadxExtent, warpSize) == start + SharedSteps(first, threadxExtent, warpSize)
      decreases align
    {
      NextShared(prog, align, threadxExtent, warpSize);
      align := align / 2;
      prog := prog + [Reduce(align, align)];
      prog := prog + [Barrier];
    }
    LastShared(prog, align, threadxExtent, warpSize);
    var inWarpBound := align / 2;
    var offsets: seq<nat> := [];
    ghost var shared, live := prog, align;
    NoHalves(shared, align);
    while align > 1
      invariant offsets + HalvesOf(align) == HalvesOf(live) && prog == shared + WarpBarriers(|offsets|)
    {
      NextHalf(shared, offsets, align);
      align := align / 2;
      offsets := offsets + [align];
      prog := prog + [WarpBarrier];
    }
    NoHalves(offsets, align);
    if offsets != [] {
      prog := prog + [InWarp(inWarpBound, offsets)];
    }
    EmittedIs(reduceExtent, threadxExtent, warpSize, shared, live, offsets, prog);
    EmittedReduces(reduceExtent, threadxExtent, warpSize);
    WarpsFitEmitted(reduceExtent, threadxExtent, warpSize);
  }

  lemma {:induction false} AlignedHalf(n: nat)
    ensures AlignedFrom(n, 1) > n ==> AlignedFrom(n, 1) / 2 <= n
  {
  }

  /** Every step between all threads that halves the slots has more of them than a row or a warp has threads: the others are done in
      lockstep. */
  lemma {:induction false} LockstepAsSoon(reduceExtent: nat, threadxExtent: nat, warpSize: nat)
    requires reduceExtent > 1 && threadxExtent >= 1 && warpSize >= 1
    ensures forall s <- Emitted(reduceExtent, threadxExtent, warpSize) | s.Reduce? && s.bound == s.offset ::
      2 * s.bound > threadxExtent || 2 * s.bound > warpSize
  {
    hide PowerOfTwo;
    AlignedPower(reduceExtent, 1);
    PowerOne();
    var align := AlignedFrom(reduceExtent, 1);
    if align > reduceExtent {
      PowerHalved(align);
    }
    SharedAbove(FirstAlign(reduceExtent), threadxExtent, warpSize);
  }

  lemma {:induction false} SharedAbove(align: nat, threadxExtent: nat, warpSize: nat)
    requires threadxExtent >= 1 && warpSize >= 1 && (align >= 1 ==> PowerOfTwo(align))
    ensures forall s <- SharedSteps(align, threadxExtent, warpSize) | s.Reduce? :: 2 * s.bound > threadxExtent || 2 * s.bound > warpSize
  {
    if align > threadxExtent || align > warpSize {
      PowerHalved(align);
      SharedAbove(align / 2, threadxExtent, warpSize);
    }
  }

  lemma {:induction false} NextShared(prog: seq<Stmt>, align: nat, threadxExtent: nat, warpSize: nat)
    requires threadxExtent >= 1 && warpSize >= 1 && (align > threadxExtent || align > warpSize)
    ensures WarpAlign(align, threadxExtent, warpSize) == WarpAlign(align / 2, threadxExtent, warpSize)
    ensures prog + SharedSteps(align, threadxExtent, warpSize) ==
      prog + [Reduce(align / 2, align / 2)] + [Barrier] + SharedSteps(align / 2, threadxExtent, warpSize)
  {
    var more := SharedSteps(align / 2, threadxExtent, warpSize);
    assert prog + ([Reduce(align / 2, align / 2), Barrier] + more) == prog + [Reduce(align / 2, align / 2)] + [Barrier] + more;
  }

  lemma {:induction false} LastShared(prog: seq<Stmt>, align: nat, threadxExtent: nat, warpSize: nat)
    requires threadxExtent >= 1 && warpSize >= 1 && align <= threadxExtent && align <= warpSize
    ensures WarpAlign(align, threadxExtent, warpSize) == align && prog + SharedSteps(align, threadxExtent, warpSize) == prog
  {
    assert prog + [] == prog;
  }

  lemma {:induction false} NoHalves<T>(prog: seq<T>, align: nat)
    ensures [] + HalvesOf(align) == HalvesOf(align) && prog + [] == prog && WarpBarriers(0) == []
    ensures align <= 1 ==> HalvesOf(align) == []
  {
  }

  lemma {:induction false} NextHalf(shared: seq<Stmt>, offsets: seq<nat>, align: nat)
    requires align > 1
    ensures offsets + HalvesOf(align) == offsets + [align / 2] + HalvesOf(align / 2)
    ensures shared + WarpBarriers(|offsets| + 1) == shared + WarpBarriers(|offsets|) + [WarpBarrier]
  {
    assert offsets + ([align / 2] + HalvesOf(align / 2)) == offsets + [align / 2] + HalvesOf(align / 2);
    assert WarpBarriers(|offsets| + 1) == WarpBarriers(|offsets|) + [WarpBarrier];
    assert shared + (WarpBarriers(|offsets|) + [WarpBarrier]) == shared + WarpBarriers(|offsets|) + [WarpBarrier];
  }

  lemma {:induction false} EmittedIs(reduceExtent: nat, threadxExtent: nat, warpSize: nat, shared: seq<Stmt>, live: nat, offsets: seq<nat>, prog: seq<Stmt>)
    requires threadxExtent >= 1 && warpSize >= 1
    requires var align := FirstAlign(reduceExtent);
      shared == FirstStep(reduceExtent) + SharedSteps(align, threadxExtent, warpSize) && live == WarpAlign(align, threadxExtent, warpSize)
    requires offsets == HalvesOf(live)
    requires prog == shared + WarpBarriers(|offsets|) + if offsets == [] then [] else [InWarp(live / 2, offsets)]
    ensures prog == Emitted(reduceExtent, threadxExtent, warpSize)
  {
    assert prog == shared + WarpSteps(live);
  }

  // ----- phases between barriers: any interleaving of the threads -----

  /** What a thread has loaded in this phase, and whether it has stored. Thread t owns slot t. */
  datatype Local<T> = Local(a: Option<T>, b: Option<T>, done: bool)

  datatype State<T> = State(buf: seq<T>, threads: seq<Local<T>>)

  datatype Event = LoadOwn(t: nat) | LoadOther(t: nat) | StoreOwn(t: nat)

  predicate Active(t: nat, reduceExtent: nat, bound: nat)
    requires reduceExtent > 0
  {
    t % reduceExtent < bound
  }

  function StartPhase<T>(buf: seq<T>): State<T> {
    State(buf, seq(|buf|, _ => Local(None, None, false)))
  }

  /** One event of a thread in a reduction step; events that are not enabled do nothing. */
  function Happen<T>(op: (T, T) -> T, s: State<T>, e: Event, r: nat, bound: nat, off: nat): (s1: State<T>)
    requires r > 0 && |s.threads| == |s.buf|
    ensures |s1.threads| == |s1.buf| == |s.buf|
  {
    var t := e.t;
    if t >= |s.buf| || t + off >= |s.buf| || !Active(t, r, bound) then s
    else
      var l := s.threads[t];
      match e
      case LoadOwn(_) => if l.a.None? then s.(threads := s.threads[t := l.(a := Some(s.buf[t]))]) else s
      case LoadOther(_) => if l.b.None? then s.(threads := s.threads[t := l.(b := Some(s.buf[t + off]))]) else s
      case StoreOwn(_) =>
        if l.a.Some? && l.b.Some? && !l.done then
          State(s.buf[t := op(l.a.value, l.b.value)], s.threads[t := l.(done := true)])
        else s
  }

  function RunPhase<T>(op: (T, T) -> T, s: State<T>, events: seq<Event>, r: nat, bound: nat, off: nat): (s1: State<T>)
    requires r > 0 && |s.threads| == |s.buf|
    ensures |s1.threads| == |s1.buf| == |s.buf|
    decreases |events|
  {
    if events == [] then s else RunPhase(op, Happen(op, s, events[0], r, bound, off), events[1..], r, bound, off)
  }

  predicate AllDone<T(==)>(s: State<T>, r: nat, bound: nat)
    requires r > 0
  {
    forall t | 0 <= t < |s.threads| && Active(t, r, bound) :: s.threads[t].done
  }

  function Combined<T>(op: (T, T) -> T, buf: seq<T>, t: nat, off: nat): T
    requires t < |buf|
  {
    if t + off < |buf| then op(buf[t], buf[t + off]) else buf[t]
  }

  /** Threads see the values from before the phase, and change their own slot only. */
  ghost predicate ThreadRight<T>(op: (T, T) -> T, buf: seq<T>, s: State<T>, t: nat, r: nat, bound: nat, off: nat)
    requires r > 0 && |s.threads| == |s.buf| == |buf| && t < |buf|
  {
    var l := s.threads[t];
    if !Active(t, r, bound) || t + off >= |buf| then s.buf[t] == buf[t]
    else
      && (l.a.Some? ==> l.a.value == buf[t])
      && (l.b.Some? ==> l.b.value == buf[t + off])
      && (l.done ==> l.a.Some?)
      && s.buf[t] == (if l.done then Combined(op, buf, t, off) else buf[t])
  }

  ghost predicate PhaseInv<T>(op: (T, T) -> T, buf: seq<T>, s: State<T>, r: nat, bound: nat, off: nat)
    requires r > 0
  {
    |s.threads| == |s.buf| == |buf| && forall t | 0 <= t < |buf| :: ThreadRight(op, buf, s, t, r, bound, off)
  }

  /** The slot read beside the own one belongs to a thread that is not active. */
  lemma {:induction false} OtherInactive(t: nat, r: nat, bound: nat, off: nat)
    requires r > 0 && bound <= off && off + bound <= r && Active(t, r, bound)
    ensures !Active(t + off, r, bound)
  {
    Arithmetic.DivTimes(t, r);
    Arithmetic.DivModUnique(t + off, r, t / r, t % r + off);
  }

  lemma {:induction false} HappenRight<T>(op: (T, T) -> T, buf: seq<T>, s: State<T>, e: Event, r: nat, bound: nat, off: nat)
    requires r > 0 && bound <= off && off + bound <= r && PhaseInv(op, buf, s, r, bound, off)
    ensures PhaseInv(op, buf, Happen(op, s, e, r, bound, off), r, bound, off)
  {
    var s1 := Happen(op, s, e, r, bound, off);
    if e.t + off < |buf| && Active(e.t, r, bound) {
      OtherInactive(e.t, r, bound, off);
      assert ThreadRight(op, buf, s, e.t, r, bound, off) && ThreadRight(op, buf, s, e.t + off, r, bound, off);
    }
    forall t | 0 <= t < |buf| ensures ThreadRight(op, buf, s1, t, r, bound, off) {
      assert ThreadRight(op, buf, s, t, r, bound, off);
    }
  }

  lemma {:induction false} RunPhaseRight<T>(op: (T, T) -> T, buf: seq<T>, s: State<T>, events: seq<Event>, r: nat, bound: nat, off: nat)
    requires r > 0 && bound <= off && off + bound <= r && PhaseInv(op, buf, s, r, bound, off)
    ensures PhaseInv(op, buf, RunPhase(op, s, events, r, bound, off), r, bound, off)
    decreases |events|
  {
    hide Happen, PhaseInv;
    if events != [] {
      PhaseSizes(op, buf, s, r, bound, off);
      HappenRight(op, buf, s, events[0], r, bound, off);
      RunPhaseRight(op, buf, Happen(op, s, events[0], r, bound, off), events[1..], r, bound, off);
    } else {
      PhaseSizes(op, buf, s, r, bound, off);
    }
  }

  lemma {:induction false} PhaseSizes<T>(op: (T, T) -> T, buf: seq<T>, s: State<T>, r: nat, bound: nat, off: nat)
    requires r > 0 && PhaseInv(op, buf, s, r, bound, off)
    ensures |s.threads| == |s.buf| == |buf|
  {
  }

  /** An interleaving of the threads that runs a reduction step to its end. */
  ghost predicate ReduceRun<T>(op: (T, T) -> T, buf: seq<T>, buf1: seq<T>, r: nat, bound: nat, off: nat)
    requires r > 0
  {
    exists events: seq<Event> :: Completes(op, buf, buf1, r, bound, off, events)
  }

  ghost predicate Completes<T>(op: (T, T) -> T, buf: seq<T>, buf1: seq<T>, r: nat, bound: nat, off: nat, events: seq<Event>)
    requires r > 0
  {
    var s := RunPhase(op, StartPhase(buf), events, r, bound, off);
    AllDone(s, r, bound) && buf1 == s.buf
  }

  /** Whatever the interleaving, the step combines each active slot with the one off places further. */
  lemma {:induction false} ReduceRunRight<T>(op: (T, T) -> T, buf: seq<T>, buf1: seq<T>, r: nat, bound: nat, off: nat)
    requires r > 0 && bound <= off && off + bound <= r && ReduceRun(op, buf, buf1, r, bound, off)
    ensures |buf1| == |buf|
    ensures forall t | 0 <= t < |buf| :: buf1[t] == if Active(t, r, bound) then Combined(op, buf, t, off) else buf[t]
  {
    var events: seq<Event> :| Completes(op, buf, buf1, r, bound, off, events);
    var s0 := StartPhase(buf);
    assert forall t | 0 <= t < |buf| :: ThreadRight(op, buf, s0, t, r, bound, off);
    RunPhaseRight(op, buf, s0, events, r, bound, off);
    var s := RunPhase(op, s0, events, r, bound, off);
    forall t | 0 <= t < |buf| ensures buf1[t] == if Active(t, r, bound) then Combined(op, buf, t, off) else buf[t] {
      assert ThreadRight(op, buf, s, t, r, bound, off);
    }
  }

  /** A phase that is not at its end can go on. */
  lemma {:induction false} PhaseProgress<T>(op: (T, T) -> T, s: State<T>, t: nat, r: nat, bound: nat, off: nat) returns (e: Event)
    requires r > 0 && |s.threads| == |s.buf| && t + off < |s.buf| && Active(t, r, bound) && !s.threads[t].done
    ensures var s1 := Happen(op, s, e, r, bound, off);
      s1.threads[t] != s.threads[t] && (s1.threads[t].done || s1.threads[t].a.Some? != s.threads[t].a.Some? || s1.threads[t].b.Some? != s.threads[t].b.Some?)
  {
    var l := s.threads[t];
    e := if l.a.None? then LoadOwn(t) else if l.b.None? then LoadOther(t) else StoreOwn(t);
  }

  // ----- the warp phase: lockstep within a group, any order of the groups -----

  /** One step of the warp of group g: all its threads load, then all store. */
  function LockStep<T>(op: (T, T) -> T, buf: seq<T>, g: nat, r: nat, bound: nat, off: nat): (buf1: seq<T>)
    requires r > 0
    ensures |buf1| == |buf|
  {
    seq(|buf|, t requires 0 <= t < |buf| => if t / r == g && Active(t, r, bound) then Combined(op, buf, t, off) else buf[t])
  }

  datatype WarpState<T> = WarpState(buf: seq<T>, pcs: seq<nat>)

  function WarpStep<T>(op: (T, T) -> T, s: WarpState<T>, g: nat, r: nat, bound: nat, offsets: seq<nat>): (s1: WarpState<T>)
    requires r > 0
    ensures |s1.buf| == |s.buf| && |s1.pcs| == |s.pcs|
  {
    if g < |s.pcs| && s.pcs[g] < |offsets| then
      WarpState(LockStep(op, s.buf, g, r, bound, offsets[s.pcs[g]]), s.pcs[g := s.pcs[g] + 1])
    else s
  }

  function RunWarps<T>(op: (T, T) -> T, s: WarpState<T>, order: seq<nat>, r: nat, bound: nat, offsets: seq<nat>): (s1: WarpState<T>)
    requires r > 0
    ensures |s1.buf| == |s.buf| && |s1.pcs| == |s.pcs|
    decreases |order|
  {
    if order == [] then s else RunWarps(op, WarpStep(op, s, order[0], r, bound, offsets), order[1..], r, bound, offsets)
  }

  ghost predicate WarpRun<T>(op: (T, T) -> T, buf: seq<T>, buf1: seq<T>, groups: nat, r: nat, bound: nat, offsets: seq<nat>)
    requires r > 0
  {
    exists order: seq<nat> :: WarpCompletes(op, buf, buf1, groups, r, bound, offsets, order)
  }

  ghost predicate WarpCompletes<T>(op: (T, T) -> T, buf: seq<T>, buf1: seq<T>, groups: nat, r: nat, bound: nat, offsets: seq<nat>, order: seq<nat>)
    requires r > 0
  {
    var s := RunWarps(op, WarpState(buf, seq(groups, _ => 0)), order, r, bound, offsets);
    buf1 == s.buf && forall g | 0 <= g < groups :: s.pcs[g] == |offsets|
  }

  // ----- what the phases keep -----

  /** The first live slots of group g. */
  function Slots<T>(buf: seq<T>, g: nat, r: nat, live: nat): (s: seq<T>)
    requires live <= r && (g + 1) * r <= |buf|
    ensures |s| == live
  {
    assert g * r + live <= (g + 1) * r;
    buf[g * r..g * r + live]
  }

  /** The fold over the live slots of group g is the fold over all its values. */
  ghost predicate Carries<T>(op: (T, T) -> T, values: seq<T>, buf: seq<T>, g: nat, r: nat, live: nat) {
    && |values| == |buf| && 0 < live <= r && (g + 1) * r <= |buf|
    && Fold(op, Slots(buf, g, r, live)) == Fold(op, Slots(values, g, r, r))
  }

  lemma {:induction false} SlotAt<T>(buf: seq<T>, g: nat, r: nat, live: nat, i: nat)
    requires i < live <= r && (g + 1) * r <= |buf|
    ensures g * r + i < |buf| && Slots(buf, g, r, live)[i] == buf[g * r + i] && (g * r + i) / r == g && (g * r + i) % r == i
  {
    SlotDivMod(g, i, r);
  }

  /** A step that combines the first bound of the live slots with those off places further keeps the fold in the first off. */
  lemma {:induction false} CarriesHalved<T(!new)>(op: (T, T) -> T, values: seq<T>, buf: seq<T>, buf1: seq<T>, g: nat, r: nat, bound: nat, off: nat)
    requires Combiner(op) && bound <= off && 0 < off && off + bound <= r && Carries(op, values, buf, g, r, off + bound)
    requires |buf1| == |buf|
    requires forall i | 0 <= i < off :: SlotCombined(op, buf, buf1, g, i, r, bound, off)
    ensures Carries(op, values, buf1, g, r, off)
  {
    hide Combiner, Fold;
    var s := Slots(buf, g, r, off + bound);
    FoldHalved(op, s, bound, off);
    forall i | 0 <= i < off ensures Slots(buf1, g, r, off)[i] == Halved(op, s, bound, off)[i] {
      assert SlotCombined(op, buf, buf1, g, i, r, bound, off);
      SlotAt(buf1, g, r, off, i);
      SlotAt(buf, g, r, off + bound, i);
      if i < bound {
        SlotAt(buf, g, r, off + bound, i + off);
      }
    }
    assert Slots(buf1, g, r, off) == Halved(op, s, bound, off);
    assert s[..off + bound] == s;
  }

  /** Slot i of group g is combined if it is below bound, and left as it is otherwise. */
  ghost predicate SlotCombined<T>(op: (T, T) -> T, buf: seq<T>, buf1: seq<T>, g: nat, i: nat, r: nat, bound: nat, off: nat) {
    var t := g * r + i;
    t < |buf| == |buf1| && buf1[t] == if i < bound then Combined(op, buf, t, off) else buf[t]
  }

  lemma {:induction false} ReduceCarries<T(!new)>(op: (T, T) -> T, values: seq<T>, buf: seq<T>, buf1: seq<T>, g: nat, r: nat, bound: nat, off: nat)
    requires r > 0 && Combiner(op) && bound <= off && 0 < off && off + bound <= r
    requires Carries(op, values, buf, g, r, off + bound) && ReduceRun(op, buf, buf1, r, bound, off)
    ensures Carries(op, values, buf1, g, r, off)
  {
    hide Combiner, Fold, ReduceRun;
    ReduceRunRight(op, buf, buf1, r, bound, off);
    forall i | 0 <= i < off ensures SlotCombined(op, buf, buf1, g, i, r, bound, off) {
      SlotAt(buf, g, r, r, i);
    }
    CarriesHalved(op, values, buf, buf1, g, r, bound, off);
  }

  /** The live slots of a group after pc lockstep steps. */
  function LiveAfter(live: nat, offsets: seq<nat>, pc: nat): nat
    requires pc <= |offsets|
  {
    if pc == 0 then live else offsets[pc - 1]
  }

  ghost predicate WarpInv<T>(op: (T, T) -> T, values: seq<T>, s: WarpState<T>, r: nat, live: nat, offsets: seq<nat>) {
    forall g | 0 <= g < |s.pcs| :: s.pcs[g] <= |offsets| && Carries(op, values, s.buf, g, r, LiveAfter(live, offsets, s.pcs[g]))
  }

  lemma {:induction false} HalvesAt(offsets: seq<nat>, live: nat, k: nat)
    requires Halves(offsets, live) && k < |offsets|
    ensures LiveAfter(live, offsets, k) == 2 * offsets[k] && 0 < offsets[k] && 2 * offsets[k] <= live
    ensures LiveAfter(live, offsets, |offsets|) == 1
  {
    HalvesPositive(offsets, live);
    if k > 0 {
      HalvesAt(offsets[1..], offsets[0], k - 1);
    } else if |offsets| > 1 {
      HalvesAt(offsets[1..], offsets[0], 0);
    }
  }

  lemma {:induction false} HalvesPositive(offsets: seq<nat>, live: nat)
    requires Halves(offsets, live)
    ensures live > 0
  {
    if offsets != [] {
      HalvesPositive(offsets[1..], offsets[0]);
    }
  }

  /** A lockstep step of one group does not touch the slots of another one. */
  lemma {:induction false} OtherGroup<T>(op: (T, T) -> T, buf: seq<T>, g: nat, h: nat, r: nat, bound: nat, off: nat, live: nat)
    requires r > 0 && g != h && live <= r && (h + 1) * r <= |buf|
    ensures Slots(LockStep(op, buf, g, r, bound, off), h, r, live) == Slots(buf, h, r, live)
  {
    var buf1 := LockStep(op, buf, g, r, bound, off);
    forall i | 0 <= i < live ensures Slots(buf1, h, r, live)[i] == Slots(buf, h, r, live)[i] {
      SlotAt(buf, h, r, live, i);
      SlotAt(buf1, h, r, live, i);
    }
  }

  lemma {:induction false} LockStepCarries<T(!new)>(op: (T, T) -> T, values: seq<T>, buf: seq<T>, g: nat, r: nat, bound: nat, off: nat)
    requires r > 0 && Combiner(op) && 0 < off <= bound && 2 * off <= r && Carries(op, values, buf, g, r, 2 * off)
    ensures Carries(op, values, LockStep(op, buf, g, r, bound, off), g, r, off)
  {
    hide Combiner, Fold;
    var buf1 := LockStep(op, buf, g, r, bound, off);
    forall i | 0 <= i < off ensures SlotCombined(op, buf, buf1, g, i, r, off, off) {
      SlotAt(buf, g, r, r, i);
    }
    CarriesHalved(op, values, buf, buf1, g, r, off, off);
  }

  lemma {:induction false} WarpStepKeeps<T(!new)>(op: (T, T) -> T, values: seq<T>, s: WarpState<T>, g: nat, r: nat, bound: nat, live: nat, offsets: seq<nat>)
    requires r > 0 && Combiner(op) && live == 2 * bound && live <= r && Halves(offsets, live) && WarpInv(op, values, s, r, live, offsets)
    ensures WarpInv(op, values, WarpStep(op, s, g, r, bound, offsets), r, live, offsets)
  {
    hide Combiner, Fold, Halves, LockStep;
    var s1 := WarpStep(op, s, g, r, bound, offsets);
    if g < |s.pcs| && s.pcs[g] < |offsets| {
      var off := offsets[s.pcs[g]];
      HalvesAt(offsets, live, s.pcs[g]);
      LockStepCarries(op, values, s.buf, g, r, bound, off);
      forall h | 0 <= h < |s.pcs| && h != g ensures Carries(op, values, s1.buf, h, r, LiveAfter(live, offsets, s.pcs[h])) {
        OtherGroup(op, s.buf, g, h, r, bound, off, LiveAfter(live, offsets, s.pcs[h]));
      }
    }
  }

  lemma {:induction false} RunWarpsKeeps<T(!new)>(op: (T, T) -> T, values: seq<T>, s: WarpState<T>, order: seq<nat>, r: nat, bound: nat, live: nat, offsets: seq<nat>)
    requires r > 0 && Combiner(op) && live == 2 * bound && live <= r && Halves(offsets, live) && WarpInv(op, values, s, r, live, offsets)
    ensures WarpInv(op, values, RunWarps(op, s, order, r, bound, offsets), r, live, offsets)
    decreases |order|
  {
    hide Combiner, Halves, WarpInv, WarpStep;
    if order != [] {
      WarpStepKeeps(op, values, s, order[0], r, bound, live, offsets);
      RunWarpsKeeps(op, values, WarpStep(op, s, order[0], r, bound, offsets), order[1..], r, bound, live, offsets);
    }
  }

  lemma {:induction false} WarpRunCarries<T(!new)>(op: (T, T) -> T, values: seq<T>, buf: seq<T>, buf1: seq<T>, groups: nat, r: nat, bound: nat, offsets: seq<nat>)
    requires r > 0 && Combiner(op) && 2 * bound <= r && offsets != [] && Halves(offsets, 2 * bound)
    requires AllCarry(op, values, buf, groups, r, 2 * bound) && WarpRun(op, buf, buf1, groups, r, bound, offsets)
    ensures AllCarry(op, values, buf1, groups, r, 1)
  {
    hide Combiner, Halves, Carries, RunWarps;
    var order: seq<nat> :| WarpCompletes(op, buf, buf1, groups, r, bound, offsets, order);
    var s0 := WarpState(buf, seq(groups, _ => 0));
    RunWarpsKeeps(op, values, s0, order, r, bound, 2 * bound, offsets);
    HalvesAt(offsets, 2 * bound, 0);
    var s := RunWarps(op, s0, order, r, bound, offsets);
    forall g | 0 <= g < groups ensures Carries(op, values, buf1, g, r, 1) {
      assert s.pcs[g] == |offsets|;
    }
  }

  ghost predicate AllCarry<T>(op: (T, T) -> T, values: seq<T>, buf: seq<T>, groups: nat, r: nat, live: nat) {
    forall g | 0 <= g < groups :: Carries(op, values, buf, g, r, live)
  }

  // ----- the whole reduction -----

  /** buf1 is a memory that the statement may leave. */
  ghost predicate Runs<T>(op: (T, T) -> T, s: Stmt, groups: nat, r: nat, buf: seq<T>, buf1: seq<T>)
    requires r > 0
  {
    match s
    case Reduce(bound, off) => ReduceRun(op, buf, buf1, r, bound, off)
    case InWarp(bound, offsets) => WarpRun(op, buf, buf1, groups, r, bound, offsets)
    case _ => buf1 == buf
  }

  /** The memories before, between and after the statements of a program, whose shared steps stand between barriers. */
  ghost predicate Trace<T>(op: (T, T) -> T, prog: seq<Stmt>, groups: nat, r: nat, bufs: seq<seq<T>>)
    requires r > 0
  {
    |bufs| == |prog| + 1 && forall i | 0 <= i < |prog| :: Runs(op, prog[i], groups, r, bufs[i], bufs[i + 1])
  }

  lemma {:induction false} StepCarries<T(!new)>(op: (T, T) -> T, s: Stmt, values: seq<T>, buf: seq<T>, buf1: seq<T>, groups: nat, r: nat, p: Progress)
    requires r > 0 && Combiner(op) && p.At? && p.live <= r && Advance(p, s).At?
    requires AllCarry(op, values, buf, groups, r, p.live) && Runs(op, s, groups, r, buf, buf1)
    ensures Advance(p, s).live <= r && AllCarry(op, values, buf1, groups, r, Advance(p, s).live)
  {
    hide Combiner, Carries, ReduceRun, WarpRun;
    match s
    case Reduce(bound, off) =>
      forall g | 0 <= g < groups ensures Carries(op, values, buf1, g, r, off) {
        ReduceCarries(op, values, buf, buf1, g, r, bound, off);
      }
    case InWarp(bound, offsets) =>
      if offsets != [] {
        HalvesAt(offsets, p.live, 0);
        WarpRunCarries(op, values, buf, buf1, groups, r, bound, offsets);
      }
    case _ =>
  }

  lemma {:induction false} TraceCarries<T(!new)>(op: (T, T) -> T, prog: seq<Stmt>, values: seq<T>, groups: nat, r: nat, bufs: seq<seq<T>>)
    requires r > 0 && Combiner(op) && Trace(op, prog, groups, r, bufs) && bufs[0] == values && |values| == groups * r
    requires ProgressOf(prog, r).At?
    ensures ProgressOf(prog, r).live <= r && AllCarry(op, values, bufs[|prog|], groups, r, ProgressOf(prog, r).live)
    decreases |prog|
  {
    hide Combiner, AllCarry, Runs, Advance;
    if prog == [] {
      StartCarries(op, values, groups, r);
    } else {
      var n := |prog| - 1;
      AdvanceAt(ProgressOf(prog[..n], r), prog[n]);
      TraceCarries(op, prog[..n], values, groups, r, bufs[..n + 1]);
      StepCarries(op, prog[n], values, bufs[n], bufs[n + 1], groups, r, ProgressOf(prog[..n], r));
    }
  }

  lemma {:induction false} AdvanceAt(p: Progress, s: Stmt)
    requires Advance(p, s).At?
    ensures p.At?
  {
  }

  lemma {:induction false} StartCarries<T>(op: (T, T) -> T, values: seq<T>, groups: nat, r: nat)
    requires r > 0 && |values| == groups * r
    ensures AllCarry(op, values, values, groups, r, r)
  {
    forall g | 0 <= g < groups ensures Carries(op, values, values, g, r, r) {
      Arithmetic.MulMore(g, groups, r);
    }
  }

  /** For every interleaving within the phases, the first slot of each group ends up with the fold of the values of its threads. */
  lemma {:induction false} ReductionRight<T(!new)>(op: (T, T) -> T, prog: seq<Stmt>, values: seq<T>, groups: nat, r: nat, bufs: seq<seq<T>>, g: nat)
    requires r > 0 && Combiner(op) && Reduces(prog, r) && g < groups && |values| == groups * r
    requires Trace(op, prog, groups, r, bufs) && |bufs| == |prog| + 1 && bufs[0] == values
    ensures g * r < (g + 1) * r <= |values| == |bufs[|prog|]|
    ensures bufs[|prog|][BufIndex(0, g, r)] == Fold(op, values[g * r..(g + 1) * r])
  {
    hide Combiner, Trace, Runs;
    TraceCarries(op, prog, values, groups, r, bufs);
    var last := bufs[|prog|];
    assert Carries(op, values, last, g, r, 1);
    SlotDivMod(g, 0, r);
    SlotAt(last, g, r, 1, 0);
    assert Slots(values, g, r, r) == values[g * r..(g + 1) * r];
  }

  // ----- the load of the result -----

  /** The memory at some moment of the steps in lockstep. */
  ghost predicate Moment<T>(op: (T, T) -> T, start: seq<T>, groups: nat, r: nat, bound: nat, offsets: seq<nat>, order: seq<nat>, buf: seq<T>)
    requires r > 0
  {
    buf == RunWarps(op, WarpState(start, seq(groups, _ => 0)), order, r, bound, offsets).buf
  }

  /** The first slot of the group of thread t. */
  function Leader(t: nat, r: nat): nat
    requires r > 0
  {
    BufIndex(0, t / r, r)
  }

  /** The memory that thread t may see when it loads the result. A thread of the warp that does the steps in lockstep of its
      group loads after them; no barrier orders the load of a thread of another warp. */
  ghost predicate MaySee<T>(op: (T, T) -> T, prog: seq<Stmt>, groups: nat, r: nat, bufs: seq<seq<T>>, warp: nat -> nat, t: nat, buf: seq<T>)
    requires r > 0 && |bufs| == |prog| + 1 > 1
  {
    var n := |prog| - 1;
    if prog[n].InWarp? && warp(t) != warp(Leader(t, r)) then
      exists order: seq<nat> :: Moment(op, bufs[n], groups, r, prog[n].bound, prog[n].offsets, order, buf)
    else buf == bufs[n + 1]
  }

  /** Thread t loads the fold of the values of its group. */
  ghost predicate LoadsFold<T>(op: (T, T) -> T, values: seq<T>, groups: nat, r: nat, t: nat, buf: seq<T>)
    requires r > 0 && t < groups * r && |values| == groups * r
  {
    var g := t / r;
    && g * r < (g + 1) * r <= |values| == |buf|
    && buf[Leader(t, r)] == Fold(op, values[g * r..(g + 1) * r])
  }

  lemma {:induction false} LeaderSlot(t: nat, groups: nat, r: nat)
    requires r > 0 && t < groups * r
    ensures t / r < groups && (t / r) * r < (t / r + 1) * r <= groups * r && Leader(t, r) == t / r * r < groups * r
  {
    DivBound(t, r, groups);
    Arithmetic.MulMore(t / r, groups, r);
    Arithmetic.Distribute(t / r, 1, r);
    SlotDivMod(t / r, 0, r);
  }

  /** Where a barrier stands after the last step on shared memory, and in the warp of the steps in lockstep, a thread loads the
      fold of its group. */
  lemma {:induction false} LoadOrdered<T(!new)>(op: (T, T) -> T, prog: seq<Stmt>, values: seq<T>, groups: nat, r: nat, bufs: seq<seq<T>>,
                                                warp: nat -> nat, t: nat, buf: seq<T>)
    requires r > 0 && Combiner(op) && Reduces(prog, r) && t < groups * r && |values| == groups * r && prog != []
    requires Trace(op, prog, groups, r, bufs) && |bufs| == |prog| + 1 && bufs[0] == values
    requires ProgressOf(prog, r).synced || warp(t) == warp(Leader(t, r))
    requires MaySee(op, prog, groups, r, bufs, warp, t, buf)
    ensures LoadsFold(op, values, groups, r, t, buf)
  {
    if ProgressOf(prog, r).synced {
      assert !prog[|prog| - 1].InWarp?;
    }
    hide Combiner, Trace, Runs, Reduces, ProgressOf;
    LeaderSlot(t, groups, r);
    ReductionRight(op, prog, values, groups, r, bufs, t / r);
  }

  /** With steps in lockstep at the end, a thread of another warp may not. When ones are added up, a load before those steps gets
      less than the number of ones, in every run. */
  lemma {:induction false} LoadUnordered(prog: seq<Stmt>, groups: nat, r: nat, bufs: seq<seq<int>>, warp: nat -> nat, t: nat)
    requires r > 0 && Reduces(prog, r) && t < groups * r && EndsInWarp(prog) && warp(t) != warp(Leader(t, r))
    requires Trace(PLUS, prog, groups, r, bufs) && |bufs| == |prog| + 1 && bufs[0] == Ones(groups * r)
    ensures MaySee(PLUS, prog, groups, r, bufs, warp, t, bufs[|prog| - 1])
    ensures !LoadsFold(PLUS, Ones(groups * r), groups, r, t, bufs[|prog| - 1])
  {
    hide Trace, Runs, Carries, ProgressOf, Reduces, Halves, Combiner, Fold;
    var n := |prog| - 1;
    var last := bufs[n];
    LeaderSlot(t, groups, r);
    var live := BeforeLockstep(prog, groups, r, bufs);
    assert Carries(PLUS, Ones(groups * r), last, t / r, r, live);
    FirstSlotLess(last, groups, r, t / r, live);
    var none: seq<nat> := [];
    assert Moment(PLUS, last, groups, r, prog[n].bound, prog[n].offsets, none, last);
  }

  predicate AllPositive(buf: seq<int>) {
    forall i | 0 <= i < |buf| :: buf[i] > 0
  }

  /** Before the steps in lockstep, more than one slot of each group is live. */
  lemma {:induction false} BeforeLockstep(prog: seq<Stmt>, groups: nat, r: nat, bufs: seq<seq<int>>) returns (live: nat)
    requires r > 0 && Reduces(prog, r) && EndsInWarp(prog)
    requires Trace(PLUS, prog, groups, r, bufs) && |bufs| == |prog| + 1 && bufs[0] == Ones(groups * r)
    ensures live > 1 && AllCarry(PLUS, Ones(groups * r), bufs[|prog| - 1], groups, r, live)
    ensures AllPositive(bufs[|prog| - 1])
  {
    var n := |prog| - 1;
    var p := ProgressOf(prog[..n], r);
    AdvanceAt(p, prog[n]);
    HalvesAt(prog[n].offsets, p.live, 0);
    live := p.live;
    TracePrefix(PLUS, prog, groups, r, bufs);
    hide Trace, Runs, Carries, ProgressOf, Reduces, Halves, Combiner;
    PlusCombines();
    TraceCarries(PLUS, prog[..n], Ones(groups * r), groups, r, bufs[..n + 1]);
    PositiveKept(prog[..n], groups, r, bufs[..n + 1]);
  }

  predicate EndsInWarp(prog: seq<Stmt>) {
    prog != [] && prog[|prog| - 1].InWarp? && prog[|prog| - 1].offsets != [] && forall i | 0 <= i < |prog| - 1 :: !prog[i].InWarp?
  }

  /** In every run, for every combiner and all values, every thread loads the fold of its group. */
  ghost predicate LoadsRight(prog: seq<Stmt>, groups: nat, r: nat, warp: nat -> nat)
    requires r > 0 && prog != []
  {
    forall op: (int, int) -> int, values: seq<int>, bufs: seq<seq<int>>, t: nat, buf: seq<int> |
      Combiner(op) && |values| == groups * r && t < groups * r && RunsFrom(op, prog, groups, r, values, bufs) &&
      MaySee(op, prog, groups, r, bufs, warp, t, buf) :: LoadsFold(op, values, groups, r, t, buf)
  }

  ghost predicate RunsFrom<T>(op: (T, T) -> T, prog: seq<Stmt>, groups: nat, r: nat, values: seq<T>, bufs: seq<seq<T>>)
    requires r > 0
  {
    |bufs| == |prog| + 1 && bufs[0] == values && Trace(op, prog, groups, r, bufs)
  }

  /** Every group is in one warp. */
  predicate GroupsInWarp(groups: nat, r: nat, warp: nat -> nat)
    requires r > 0
  {
    forall t: nat | t < groups * r :: warp(t) == warp(Leader(t, r))
  }

  /** That is so for the emitted program exactly if a row or a warp has one thread, so that there are no steps in lockstep, or if
      every group is in one warp. */
  lemma {:induction false} LoadsRightIff(groups: nat, r: nat, threadxExtent: nat, warpSize: nat, warp: nat -> nat)
    requires r > 1 && threadxExtent >= 1 && warpSize >= 1
    ensures Emitted(r, threadxExtent, warpSize) != []
    ensures LoadsRight(Emitted(r, threadxExtent, warpSize), groups, r, warp) <==>
      threadxExtent == 1 || warpSize == 1 || GroupsInWarp(groups, r, warp)
  {
    hide Emitted, ProgressOf, Combiner, Trace, MaySee, LoadsFold;
    var prog := Emitted(r, threadxExtent, warpSize);
    EmittedReduces(r, threadxExtent, warpSize);
    if threadxExtent == 1 || warpSize == 1 || GroupsInWarp(groups, r, warp) {
      forall op: (int, int) -> int, values: seq<int>, bufs: seq<seq<int>>, t: nat, buf: seq<int> |
        Combiner(op) && |values| == groups * r && t < groups * r && RunsFrom(op, prog, groups, r, values, bufs) &&
        MaySee(op, prog, groups, r, bufs, warp, t, buf) ensures LoadsFold(op, values, groups, r, t, buf)
      {
        LoadOrdered(op, prog, values, groups, r, bufs, warp, t, buf);
      }
    } else {
      var t: nat :| t < groups * r && warp(t) != warp(Leader(t, r));
      var bufs := SomeRun(PLUS, prog, groups, r, Ones(groups * r));
      LoadUnordered(prog, groups, r, bufs, warp, t);
      PlusCombines();
    }
  }

  // ----- runs exist -----

  /** The threads from k on finish a step one after the other. */
  lemma {:induction false} FinishThreads<T>(op: (T, T) -> T, s: State<T>, k: nat, r: nat, bound: nat, off: nat) returns (events: seq<Event>)
    requires r > 0 && |s.threads| == |s.buf| && k <= |s.buf|
    requires forall t | 0 <= t < k && Active(t, r, bound) :: s.threads[t].done
    requires forall t | 0 <= t < |s.buf| && Active(t, r, bound) :: t + off < |s.buf|
    ensures AllDone(RunPhase(op, s, events, r, bound, off), r, bound)
    decreases |s.buf| - k
  {
    hide Active;
    if k == |s.buf| {
      events := [];
    } else if !Active(k, r, bound) || s.threads[k].done {
      events := FinishThreads(op, s, k + 1, r, bound, off);
    } else {
      var s1 := Happen(op, s, LoadOwn(k), r, bound, off);
      var s2 := Happen(op, s1, LoadOther(k), r, bound, off);
      var s3 := Happen(op, s2, StoreOwn(k), r, bound, off);
      var rest := FinishThreads(op, s3, k + 1, r, bound, off);
      events := [LoadOwn(k), LoadOther(k), StoreOwn(k)] + rest;
      ThreeEvents(op, s, LoadOwn(k), LoadOther(k), StoreOwn(k), rest, r, bound, off);
    }
  }

  lemma {:induction false} ThreeEvents<T>(op: (T, T) -> T, s: State<T>, e1: Event, e2: Event, e3: Event, rest: seq<Event>, r: nat, bound: nat, off: nat)
    requires r > 0 && |s.threads| == |s.buf|
    ensures RunPhase(op, s, [e1, e2, e3] + rest, r, bound, off) ==
      RunPhase(op, Happen(op, Happen(op, Happen(op, s, e1, r, bound, off), e2, r, bound, off), e3, r, bound, off), rest, r, bound, off)
  {
    hide Happen;
    var all := [e1, e2, e3] + rest;
    assert all[1..] == [e2, e3] + rest && ([e2, e3] + rest)[1..] == [e3] + rest && ([e3] + rest)[1..] == rest;
    var s1 := Happen(op, s, e1, r, bound, off);
    var s2 := Happen(op, s1, e2, r, bound, off);
    assert RunPhase(op, s2, [e3] + rest, r, bound, off) == RunPhase(op, Happen(op, s2, e3, r, bound, off), rest, r, bound, off);
    assert RunPhase(op, s1, [e2, e3] + rest, r, bound, off) == RunPhase(op, s2, [e3] + rest, r, bound, off);
  }

  /** The groups from g on take their steps in lockstep one after the other. */
  lemma {:induction false} FinishWarps<T>(op: (T, T) -> T, s: WarpState<T>, g: nat, r: nat, bound: nat, offsets: seq<nat>) returns (order: seq<nat>)
    requires r > 0 && g <= |s.pcs| && (forall h | 0 <= h < |s.pcs| :: s.pcs[h] <= |offsets|) && forall h | 0 <= h < g :: s.pcs[h] == |offsets|
    ensures forall h | 0 <= h < |s.pcs| :: RunWarps(op, s, order, r, bound, offsets).pcs[h] == |offsets|
    decreases |s.pcs| - g, if g < |s.pcs| then |offsets| - s.pcs[g] else 0
  {
    if g == |s.pcs| {
      order := [];
    } else if s.pcs[g] == |offsets| {
      order := FinishWarps(op, s, g + 1, r, bound, offsets);
    } else {
      var rest := FinishWarps(op, WarpStep(op, s, g, r, bound, offsets), g, r, bound, offsets);
      order := [g] + rest;
      assert order[1..] == rest;
    }
  }

  lemma {:induction false} SomeStep<T>(op: (T, T) -> T, s: Stmt, groups: nat, r: nat, p: Progress, buf: seq<T>) returns (buf1: seq<T>)
    requires r > 0 && |buf| == groups * r && p.At? && p.live <= r && Advance(p, s).At?
    ensures |buf1| == |buf| && Runs(op, s, groups, r, buf, buf1)
  {
    hide RunPhase, AllDone;
    match s
    case Reduce(bound, off) =>
      forall t | 0 <= t < |buf| && Active(t, r, bound) ensures t + off < |buf| {
        ActiveOther(t, groups, r, bound, off);
      }
      var events := FinishThreads(op, StartPhase(buf), 0, r, bound, off);
      buf1 := RunPhase(op, StartPhase(buf), events, r, bound, off).buf;
      assert Completes(op, buf, buf1, r, bound, off, events);
    case InWarp(bound, offsets) =>
      var s0 := WarpState(buf, seq(groups, _ => 0));
      var order := FinishWarps(op, s0, 0, r, bound, offsets);
      buf1 := RunWarps(op, s0, order, r, bound, offsets).buf;
      assert WarpCompletes(op, buf, buf1, groups, r, bound, offsets, order);
    case _ => buf1 := buf;
  }

  lemma {:induction false} ActiveOther(t: nat, groups: nat, r: nat, bound: nat, off: nat)
    requires r > 0 && t < groups * r && Active(t, r, bound) && off + bound <= r
    ensures t + off < groups * r
  {
    DivBound(t, r, groups);
    Arithmetic.DivTimes(t, r);
    Arithmetic.MulMore(t / r, groups, r);
  }

  /** A reducing program has a run from any values. */
  lemma {:induction false} SomeRun<T>(op: (T, T) -> T, prog: seq<Stmt>, groups: nat, r: nat, values: seq<T>) returns (bufs: seq<seq<T>>)
    requires r > 0 && ProgressOf(prog, r).At? && |values| == groups * r
    ensures RunsFrom(op, prog, groups, r, values, bufs) && forall b <- bufs :: |b| == |values|
    decreases |prog|
  {
    hide Runs, Advance;
    if prog == [] {
      bufs := [values];
    } else {
      var n := |prog| - 1;
      var p := ProgressOf(prog[..n], r);
      AdvanceAt(p, prog[n]);
      LiveBound(prog[..n], r);
      var before := SomeRun(op, prog[..n], groups, r, values);
      assert before[n] in before;
      var last := SomeStep(op, prog[n], groups, r, p, before[n]);
      bufs := before + [last];
      forall i | 0 <= i < |prog| ensures Runs(op, prog[i], groups, r, bufs[i], bufs[i + 1]) {
        if i < n {
          assert Runs(op, prog[..n][i], groups, r, before[i], before[i + 1]);
        }
      }
    }
  }

  lemma {:induction false} FirstSlotLess(buf: seq<int>, groups: nat, r: nat, g: nat, live: nat)
    requires r > 0 && g < groups && live > 1 && Carries(PLUS, Ones(groups * r), buf, g, r, live)
    requires forall i | 0 <= i < |buf| :: buf[i] > 0
    ensures g * r < (g + 1) * r <= groups * r == |buf|
    ensures buf[BufIndex(0, g, r)] < Fold(PLUS, Ones(groups * r)[g * r..(g + 1) * r])
  {
    SlotDivMod(g, 0, r);
    SlotAt(buf, g, r, live, 0);
    FirstOfMany(Slots(buf, g, r, live));
    assert Slots(Ones(groups * r), g, r, r) == Ones(groups * r)[g * r..(g + 1) * r];
  }

  const PLUS: (int, int) -> int := (x, y) => x + y

  function Ones(n: nat): seq<int> {
    seq(n, _ => 1)
  }

  lemma {:induction false} PlusCombines()
    ensures Combiner(PLUS)
  {
  }

  lemma {:induction false} TracePrefix<T>(op: (T, T) -> T, prog: seq<Stmt>, groups: nat, r: nat, bufs: seq<seq<T>>)
    requires r > 0 && prog != [] && Trace(op, prog, groups, r, bufs)
    ensures Trace(op, prog[..|prog| - 1], groups, r, bufs[..|prog|])
  {
  }

  /** The first of several positive numbers is less than their sum. */
  lemma {:induction false} FirstOfMany(s: seq<int>)
    requires |s| > 1 && forall i | 0 <= i < |s| :: s[i] > 0
    ensures s[0] < Fold(PLUS, s)
  {
    var init := s[..|s| - 1];
    if |s| > 2 {
      FirstOfMany(init);
    } else {
      assert init == [s[0]] && Fold(PLUS, init) == s[0];
    }
    FoldSnoc(PLUS, init, s[|s| - 1]);
    assert init + [s[|s| - 1]] == s;
  }

  /** Without lockstep, positive numbers stay positive. */
  lemma {:induction false} PositiveKept(prog: seq<Stmt>, groups: nat, r: nat, bufs: seq<seq<int>>)
    requires r > 0 && Trace(PLUS, prog, groups, r, bufs) && ProgressOf(prog, r).At? && ProgressOf(prog, r).live <= r
    requires (forall s <- prog :: !s.InWarp?) && forall i | 0 <= i < |bufs[0]| :: bufs[0][i] > 0
    ensures forall i | 0 <= i < |bufs[|prog|]| :: bufs[|prog|][i] > 0
    decreases |prog|
  {
    hide ReduceRun;
    if prog != [] {
      var n := |prog| - 1;
      AdvanceAt(ProgressOf(prog[..n], r), prog[n]);
      LiveBound(prog[..n], r);
      PositiveKept(prog[..n], groups, r, bufs[..n + 1]);
      assert prog[n] in prog && Runs(PLUS, prog[n], groups, r, bufs[n], bufs[n + 1]);
      if prog[n].Reduce? {
        ReduceRunRight(PLUS, bufs[n], bufs[n + 1], r, prog[n].bound, prog[n].offset);
      }
    }
  }

  lemma {:induction false} LiveBound(prog: seq<Stmt>, r: nat)
    requires ProgressOf(prog, r).At?
    ensures ProgressOf(prog, r).live <= r
    decreases |prog|
  {
    if prog != [] {
      AdvanceAt(ProgressOf(prog[..|prog| - 1], r), prog[|prog| - 1]);
      LiveBound(prog[..|prog| - 1], r);
      if prog[|prog| - 1].InWarp? {
        HalvesPositive(prog[|prog| - 1].offsets, ProgressOf(prog[..|prog| - 1], r).live);
      }
    }
  }

  // ----- the start of the reduction and its threads -----

  /** The threads store their values in any order. */
  function StoreValues<T>(buf: seq<T>, values: seq<T>, order: seq<nat>): (buf1: seq<T>)
    requires |buf| == |values|
    ensures |buf1| == |values|
    decreases |order|
  {
    if order == [] then buf
    else StoreValues(if order[0] < |buf| then buf[order[0] := values[order[0]]] else buf, values, order[1..])
  }

  lemma {:induction false} StoreValuesAt<T>(buf: seq<T>, values: seq<T>, order: seq<nat>, t: nat)
    requires |buf| == |values| && t < |buf|
    ensures StoreValues(buf, values, order)[t] == if t in order then values[t] else buf[t]
    decreases |order|
  {
    if order != [] {
      StoreValuesAt(if order[0] < |buf| then buf[order[0] := values[order[0]]] else buf, values, order[1..], t);
      assert order == [order[0]] + order[1..];
      if order[0] == t && t !in order[1..] {
        assert StoreValues(buf, values, order)[t] == buf[t := values[t]][t];
      }
    }
  }

  /** Once every thread has stored, the buffer holds the values. */
  lemma {:induction false} StoreValuesRight<T>(buf: seq<T>, values: seq<T>, order: seq<nat>)
    requires |buf| == |values| && forall t: nat | t < |buf| :: t in order
    ensures StoreValues(buf, values, order) == values
  {
    forall t | 0 <= t < |buf| ensures StoreValues(buf, values, order)[t] == values[t] {
      StoreValuesAt(buf, values, order, t);
    }
  }

  lemma {:induction false} UnflattenLow(v: nat, tvec: seq<ThreadEntry>)
    requires tvec != [] && v < tvec[0].extent && Total(tvec) > 0
    ensures Unflatten(v, tvec)[0] == v && forall i | 0 < i < |tvec| :: Unflatten(v, tvec)[i] == 0
    decreases |tvec|
  {
    var n := |tvec| - 1;
    var rest := tvec[..n];
    if n == 0 {
      assert rest == [];
    } else {
      TotalFirst(rest);
      UnflattenLow(v, rest);
      SmallDivMod(v, Total(rest));
    }
  }

  lemma {:induction false} SmallDivMod(v: nat, t: nat)
    requires v < t
    ensures v / t == 0 && v % t == v
  {
  }

  lemma {:induction false} TotalFirst(tvec: seq<ThreadEntry>)
    requires tvec != [] && Total(tvec) > 0
    ensures Total(tvec) >= tvec[0].extent
    decreases |tvec|
  {
    var n := |tvec| - 1;
    if n == 0 {
      assert tvec[..0] == [];
    } else {
      TotalFirst(tvec[..n]);
    }
  }

  /** The threads that take part in lockstep differ in their first index only, and are numbered by it. */
  lemma {:induction false} WarpThreads(f: FlatIndex, tvec: seq<ThreadEntry>, idx: seq<nat>)
    requires Numbers(f, tvec) && InRange(idx, tvec) && tvec != [] && Eval(f, idx) < tvec[0].extent
    ensures idx[0] == Eval(f, idx) && forall i | 0 < i < |idx| :: idx[i] == 0
  {
    UnflattenLow(Eval(f, idx), tvec);
  }

  // ----- which threads share a warp -----

  /** The device numbers the threads of a block row by row, and takes warpSize of them at a time. A row are the threads that
      only differ in the first index, of extent x; row(k) is the place of the k-th row of slots in the block. */
  function WarpOf(t: nat, x: nat, warpSize: nat, row: nat -> nat): nat
    requires x > 0 && warpSize > 0
  {
    Arithmetic.MulMonotone(0, row(t / x), x);
    var thread: nat := row(t / x) * x + t % x;
    thread / warpSize
  }

  lemma {:induction false} DivModMultiple(v: nat, q: nat, m: nat, k: nat, x: nat)
    requires x > 0 && v == q * (k * x) + m && m < k * x
    ensures v % x == m % x && v / x == q * k + m / x && m / x < k
  {
    Arithmetic.DivTimes(m, x);
    Arithmetic.MulAssoc(q, k, x);
    Arithmetic.Distribute(q * k, m / x, x);
    Arithmetic.DivModUnique(v, x, q * k + m / x, m % x);
    DivBound(m, x, k);
  }

  /** The total extent is that of the other axes times the first one. */
  lemma {:induction false} TotalTail(tvec: seq<ThreadEntry>)
    requires tvec != []
    ensures Total(tvec) == Total(tvec[1..]) * tvec[0].extent
    decreases |tvec|
  {
    var n := |tvec| - 1;
    if n == 0 {
      assert tvec[..0] == [];
    } else {
      TotalTail(tvec[..n]);
      assert tvec[..n][1..] == tvec[1..][..n - 1];
      Swapped(Total(tvec[..n][1..]), tvec[0].extent, tvec[n].extent);
    }
  }

  lemma {:induction false} Swapped(a: nat, b: nat, c: nat)
    ensures a * b * c == a * c * b
  {
  }

  /** The first index is the remainder by its extent, and the others are those of the quotient. */
  lemma {:induction false} UnflattenRow(v: nat, tvec: seq<ThreadEntry>)
    requires tvec != [] && v < Total(tvec) && tvec[0].extent > 0
    ensures Unflatten(v, tvec) == [v % tvec[0].extent] + Unflatten(v / tvec[0].extent, tvec[1..])
    decreases |tvec|
  {
    hide Total, Unflatten;
    var n := |tvec| - 1;
    if n == 0 {
      assert tvec == [tvec[0]] && tvec[1..] == [];
      UnflattenOne(v, tvec[0]);
    } else {
      var rest, e, x := tvec[..n], tvec[n], tvec[0].extent;
      assert tvec == rest + [e] && tvec[1..] == rest[1..] + [e];
      TotalMore(rest, e, v);
      TotalMore(rest[1..], e, v / x);
      TotalTail(rest);
      var total, k := Total(rest), Total(rest[1..]);
      DivBound(v, total, e.extent);
      RowDigits(v, total, k, x);
      UnflattenRow(v % total, rest);
      UnflattenJoin(v, rest, e, total, k, x);
    }
  }

  lemma {:induction false} RowDigits(v: nat, total: nat, k: nat, x: nat)
    requires total > 0 && x > 0 && total == k * x
    ensures k > 0 && v % total < total && v % x == v % total % x && v / x % k == v % total / x && v / x / k == v / total
  {
    Arithmetic.DivTimes(v, total);
    DivModMultiple(v, v / total, v % total, k, x);
    Arithmetic.DivModUnique(v / x, k, v / total, v % total / x);
  }

  lemma {:induction false} UnflattenJoin(v: nat, rest: seq<ThreadEntry>, e: ThreadEntry, total: nat, k: nat, x: nat)
    requires rest != [] && total > 0 && k > 0 && x > 0 && v % x == v % total % x && v / x % k == v % total / x && v / x / k == v / total
    requires Unflatten(v % total, rest) == [v % total % x] + Unflatten(v % total / x, rest[1..])
    requires Unflatten(v, rest + [e]) == Unflatten(v % total, rest) + [v / total]
    requires Unflatten(v / x, rest[1..] + [e]) == Unflatten(v / x % k, rest[1..]) + [v / x / k]
    ensures Unflatten(v, rest + [e]) == [v % x] + Unflatten(v / x, rest[1..] + [e])
  {
    hide Unflatten;
    var mid := Unflatten(v % total / x, rest[1..]);
    assert ([v % x] + mid) + [v / total] == [v % x] + (mid + [v / total]);
  }

  lemma {:induction false} UnflattenOne(v: nat, e: ThreadEntry)
    requires v < Total([e]) && e.extent > 0
    ensures Unflatten(v, [e]) == [v % e.extent] + Unflatten(v / e.extent, [])
  {
    NumbersNone();
    TotalMore([], e, v);
    assert [] + [e] == [e];
    SmallDivMod(v, e.extent);
  }

  /** The first index of the thread of slot t is t % x, and its other ones are told by its row, t / x. */
  ghost predicate RowTells(t: nat, x: nat, rows: nat, vred: seq<ThreadEntry>, vpar: seq<ThreadEntry>, red: seq<nat>, par: seq<nat>) {
    && x > 0 && rows > 0 && vred != [] && red != []
    && t % x == red[0] && Unflatten(t / x % rows, vred[1..]) == red[1..] && Unflatten(t / x / rows, vpar) == par
  }

  lemma {:induction false} RowOfSlot(low: Lowered, vred: seq<ThreadEntry>, vpar: seq<ThreadEntry>, red: seq<nat>, par: seq<nat>)
    requires low.Shared? && ForThreads(low, vred, vpar) && vred != [] && InRange(red, vred) && InRange(par, vpar)
    ensures var x, rows := vred[0].extent, Total(vred[1..]);
      low.reduceExtent == rows * x && RowTells(StoreIndex(low, red, par), x, rows, vred, vpar, red, par)
  {
    hide Reduces, Total, Unflatten, StoreIndex, Numbers, Eval;
    OwnSlot(low, vred, vpar, red, par);
    TotalTail(vred);
    assert red[0] < vred[0].extent && |red| == |vred|;
    SlotRow(StoreIndex(low, red, par), low.reduceExtent, vred, vpar, red, par);
  }

  lemma {:induction false} SlotRow(t: nat, r: nat, vred: seq<ThreadEntry>, vpar: seq<ThreadEntry>, red: seq<nat>, par: seq<nat>)
    requires vred != [] && red != [] && vred[0].extent > 0 && r == Total(vred) == Total(vred[1..]) * vred[0].extent
    requires SlotTells(t, r, vred, vpar, red, par)
    ensures RowTells(t, vred[0].extent, Total(vred[1..]), vred, vpar, red, par)
  {
    hide Total, Unflatten;
    var x, rows := vred[0].extent, Total(vred[1..]);
    RowDigits(t, r, rows, x);
    UnflattenRow(t % r, vred);
    assert red == [t % r % x] + Unflatten(t % r / x, vred[1..]);
  }

  /** The first bound threads of every group, those that take the steps in lockstep, share a warp. */
  predicate Together(groups: nat, rows: nat, x: nat, bound: nat, warpSize: nat, row: nat -> nat)
    requires x > 0 && warpSize > 0
  {
    forall g: nat, i: nat | g < groups && i < bound ::
      WarpOf(BufIndex(i, g, rows * x), x, warpSize, row) == WarpOf(BufIndex(0, g, rows * x), x, warpSize, row)
  }

  /** No row of a group's first thread goes over the end of a warp within its first bound threads. */
  predicate RowsFit(groups: nat, rows: nat, x: nat, bound: nat, warpSize: nat, row: nat -> nat)
    requires warpSize > 0
  {
    forall g: nat | g < groups :: row(g * rows) * x % warpSize + bound <= warpSize
  }

  lemma {:induction false} WithinQuotient(c: nat, i: nat, w: nat)
    requires w > 0 && c % w + i < w
    ensures (c + i) / w == c / w
  {
    Arithmetic.DivTimes(c, w);
    Arithmetic.DivModUnique(c + i, w, c / w, c % w + i);
  }

  lemma {:induction false} BeyondQuotient(c: nat, i: nat, w: nat)
    requires w > 0 && c % w + i >= w
    ensures (c + i) / w != c / w
  {
    Arithmetic.DivTimes(c, w);
    Arithmetic.DivTimes(c + i, w);
  }

  lemma {:induction false} RowStart(g: nat, i: nat, rows: nat, x: nat, warpSize: nat, row: nat -> nat)
    requires x > 0 && warpSize > 0 && i < x
    ensures WarpOf(BufIndex(i, g, rows * x), x, warpSize, row) == (row(g * rows) * x + i) / warpSize
  {
    Arithmetic.MulAssoc(g, rows, x);
    Arithmetic.DivModUnique(g * (rows * x) + i, x, g * rows, i);
  }

  /** The threads in lockstep share a warp exactly if their rows fit. */
  lemma {:induction false} TogetherIff(groups: nat, rows: nat, x: nat, bound: nat, warpSize: nat, row: nat -> nat)
    requires x > 0 && warpSize > 0 && 0 < bound <= x
    ensures Together(groups, rows, x, bound, warpSize, row) <==> RowsFit(groups, rows, x, bound, warpSize, row)
  {
    hide WarpOf, BufIndex;
    if RowsFit(groups, rows, x, bound, warpSize, row) {
      forall g: nat, i: nat | g < groups && i < bound
        ensures WarpOf(BufIndex(i, g, rows * x), x, warpSize, row) == WarpOf(BufIndex(0, g, rows * x), x, warpSize, row)
      {
        RowStart(g, 0, rows, x, warpSize, row);
        RowStart(g, i, rows, x, warpSize, row);
        WithinQuotient(row(g * rows) * x, i, warpSize);
      }
    }
    forall g: nat | g < groups && Together(groups, rows, x, bound, warpSize, row)
      ensures row(g * rows) * x % warpSize + bound <= warpSize
    {
      RowStart(g, 0, rows, x, warpSize, row);
      RowStart(g, bound - 1, rows, x, warpSize, row);
      if row(g * rows) * x % warpSize + bound > warpSize {
        BeyondQuotient(row(g * rows) * x, bound - 1, warpSize);
      }
    }
  }

  lemma {:induction false} FitsMultiple(k: nat, x: nat, w: nat)
    requires x > 0 && w > 0 && w % x == 0
    ensures k * x % w + x <= w
  {
    var m := w / x;
    Arithmetic.DivTimes(w, x);
    Arithmetic.DivTimes(k, m);
    Arithmetic.Distribute(k / m * m, k % m, x);
    Arithmetic.MulAssoc(k / m, m, x);
    Arithmetic.MulMore(k % m, m, x);
    Arithmetic.DivModUnique(k * x, w, k / m, k % m * x);
  }

  /** A group that is one row is in one warp if rows divide warps. */
  lemma {:induction false} RowInWarp(groups: nat, x: nat, warpSize: nat, row: nat -> nat)
    requires x > 0 && warpSize > 0 && warpSize % x == 0
    ensures GroupsInWarp(groups, x, (t: nat) => WarpOf(t, x, warpSize, row))
  {
    hide WarpOf;
    var warp := (t: nat) => WarpOf(t, x, warpSize, row);
    forall t: nat | t < groups * x ensures warp(t) == warp(Leader(t, x)) {
      var g, i := t / x, t % x;
      Arithmetic.DivTimes(t, x);
      SlotDivMod(g, i, x);
      RowStart(g, i, 1, x, warpSize, row);
      RowStart(g, 0, 1, x, warpSize, row);
      FitsMultiple(row(g), x, warpSize);
      WithinQuotient(row(g) * x, i, warpSize);
    }
  }

  // ----- two blocks -----

  const SAME: nat -> nat := k => k
  const WARPS: nat -> nat := t => WarpOf(t, 64, 32, SAME)

  lemma {:induction false} SixtyFourEmitted()
    ensures Emitted(64, 64, 32) == [Reduce(32, 32), Barrier] + WarpBarriers(5) + [InWarp(16, [16, 8, 4, 2, 1])]
  {
    assert AlignedFrom(64, 16) == 64 && AlignedFrom(64, 2) == 64 && AlignedFrom(64, 1) == 64;
    assert SharedSteps(32, 64, 32) == [] && WarpAlign(32, 64, 32) == 32 && FirstStep(64) == [];
    assert [Reduce(32, 32), Barrier] + [] == [Reduce(32, 32), Barrier];
    assert HalvesOf(4) == [2, 1] by {
      assert [2] + ([1] + []) == [2, 1];
    }
    assert HalvesOf(32) == [16, 8, 4, 2, 1] by {
      assert HalvesOf(16) == [8] + ([4] + HalvesOf(4));
    }
  }

  /** One row of 64 threads in warps of 32: threads of the second warp may load the result too early. */
  lemma {:induction false} SixtyFourThreads()
    ensures Emitted(64, 64, 32) == [Reduce(32, 32), Barrier] + WarpBarriers(5) + [InWarp(16, [16, 8, 4, 2, 1])]
    ensures !LoadsRight(Emitted(64, 64, 32), 1, 64, WARPS)
  {
    hide LoadsRight, Emitted, WarpBarriers;
    SixtyFourEmitted();
    LoadsRightIff(1, 64, 64, 32, WARPS);
    assert WARPS(32) == 1 && WARPS(Leader(32, 64)) == 0;
  }

  /** Two rows of 30 threads, each a group: the first eight threads of the second row, which take its steps in lockstep, are in
      two warps of 32. */
  lemma {:induction false} ThirtyThreads()
    ensures var prog := Emitted(30, 30, 32); prog != [] && prog[|prog| - 1] == InWarp(8, [8, 4, 2, 1])
    ensures !Together(2, 1, 30, 8, 32, SAME)
  {
    assert AlignedFrom(30, 8) == 32 && AlignedFrom(30, 2) == 32 && AlignedFrom(30, 1) == 32;
    assert WarpAlign(16, 30, 32) == 16 && SharedSteps(16, 30, 32) == [];
    assert HalvesOf(4) == [2, 1] by {
      assert [2] + ([1] + []) == [2, 1];
    }
    assert HalvesOf(16) == [8] + ([4] + HalvesOf(4)) == [8, 4, 2, 1];
    TogetherIff(2, 1, 30, 8, 32, SAME);
    assert SAME(1 * 1) * 30 % 32 + 8 > 32;
  }

  datatype Lowered =
    | Direct
    | Shared(reduceIndex: FlatIndex, groupIndex: FlatIndex, reduceExtent: nat, groupExtent: nat, prog: seq<Stmt>)
    | Failed

  /** The indices number the threads of a group and the groups, and the steps reduce over all threads of a group. */
  ghost predicate ForThreads(low: Lowered, vred: seq<ThreadEntry>, vpar: seq<ThreadEntry>)
    requires low.Shared?
  {
    && low.reduceExtent == Total(vred) > 1 && low.groupExtent == Total(vpar)
    && Numbers(low.reduceIndex, vred) && Numbers(low.groupIndex, vpar)
    && Reduces(low.prog, low.reduceExtent)
  }

  /** Where the thread with these indices stores its value. */
  function StoreIndex(low: Lowered, red: seq<nat>, par: seq<nat>): nat
    requires low.Shared?
  {
    BufIndex(Eval(low.reduceIndex, red), Eval(low.groupIndex, par), low.reduceExtent)
  }

  /** Where it loads the result. */
  function LoadIndex(low: Lowered, par: seq<nat>): nat
    requires low.Shared?
  {
    BufIndex(0, Eval(low.groupIndex, par), low.reduceExtent)
  }

  /** The indices of a thread can be told from slot t. */
  ghost predicate SlotTells(t: nat, r: nat, vred: seq<ThreadEntry>, vpar: seq<ThreadEntry>, red: seq<nat>, par: seq<nat>) {
    r > 0 && Unflatten(t % r, vred) == red && Unflatten(t / r, vpar) == par
  }

  /** Every thread stores in its own slot, from which its indices can be told. */
  lemma {:induction false} OwnSlot(low: Lowered, vred: seq<ThreadEntry>, vpar: seq<ThreadEntry>, red: seq<nat>, par: seq<nat>)
    requires low.Shared? && ForThreads(low, vred, vpar) && InRange(red, vred) && InRange(par, vpar)
    ensures var t, r := StoreIndex(low, red, par), low.reduceExtent;
      t < low.groupExtent * r && SlotTells(t, r, vred, vpar, red, par)
  {
    hide Reduces, Total, Unflatten, InRange;
    SlotOfThread(Eval(low.groupIndex, par), Eval(low.reduceIndex, red), low.groupExtent, low.reduceExtent);
  }

  /** A thread stores the identity of the combiner where its condition does not hold. */
  function Selected<T>(values: seq<T>, conds: seq<bool>, init: T): (s: seq<T>)
    requires |values| == |conds|
    ensures |s| == |values|
  {
    seq(|values|, t requires 0 <= t < |values| => if conds[t] then values[t] else init)
  }

  /** The fold of the values whose conditions hold. */
  function FoldWhere<T>(op: (T, T) -> T, init: T, values: seq<T>, conds: seq<bool>): T
    requires |values| == |conds|
  {
    if values == [] then init
    else
      var n := |values| - 1;
      var f := FoldWhere(op, init, values[..n], conds[..n]);
      if conds[n] then op(f, values[n]) else f
  }

  lemma {:induction false} FoldSelected<T(!new)>(op: (T, T) -> T, init: T, values: seq<T>, conds: seq<bool>)
    requires values != [] && |values| == |conds| && forall x: T :: op(x, init) == op(init, x) == x
    ensures Fold(op, Selected(values, conds, init)) == FoldWhere(op, init, values, conds)
  {
    var n, s := |values| - 1, Selected(values, conds, init);
    if n == 0 {
      assert FoldWhere(op, init, values[..n], conds[..n]) == init;
    } else {
      FoldSelected(op, init, values[..n], conds[..n]);
      assert s[..n] == Selected(values[..n], conds[..n], init);
    }
  }

  /** For every interleaving of the steps, what a thread then finds where it loads the result is the fold of the values of
      the threads of its group whose conditions hold. */
  lemma {:induction false} AllreduceRight<T(!new)>(op: (T, T) -> T, init: T, low: Lowered, vred: seq<ThreadEntry>, vpar: seq<ThreadEntry>,
                                                   values: seq<T>, conds: seq<bool>, bufs: seq<seq<T>>, par: seq<nat>)
    requires low.Shared? && ForThreads(low, vred, vpar) && InRange(par, vpar)
    requires Combiner(op) && forall x: T :: op(x, init) == op(init, x) == x
    requires |values| == |conds| == low.groupExtent * low.reduceExtent
    requires Trace(op, low.prog, low.groupExtent, low.reduceExtent, bufs) && |bufs| == |low.prog| + 1
    requires bufs[0] == Selected(values, conds, init)
    ensures var g, r := Eval(low.groupIndex, par), low.reduceExtent;
      && g * r < (g + 1) * r <= |values| == |bufs[|low.prog|]|
      && LoadIndex(low, par) < |values|
      && bufs[|low.prog|][LoadIndex(low, par)] == FoldWhere(op, init, values[g * r..(g + 1) * r], conds[g * r..(g + 1) * r])
  {
    hide Combiner, Trace, Reduces, Total, Unflatten, InRange, Fold, FoldWhere;
    var g, r := Eval(low.groupIndex, par), low.reduceExtent;
    ReductionRight(op, low.prog, bufs[0], low.groupExtent, r, bufs, g);
    SlotDivMod(g, 0, r);
    FoldSelected(op, init, values[g * r..(g + 1) * r], conds[g * r..(g + 1) * r]);
    assert bufs[0][g * r..(g + 1) * r] == Selected(values[g * r..(g + 1) * r], conds[g * r..(g + 1) * r], init);
  }

  /** The reduction over the threads vred, in the groups vpar. A reduction over one thread keeps its value. */
  method MakeAllreduce(vred: seq<ThreadEntry>, vpar: seq<ThreadEntry>, warpSize: nat) returns (lowered: Lowered)
    requires warpSize >= 1
    ensures lowered.Direct? <==> Total(vred) == 1
    ensures lowered.Failed? <==> Total(vred) == 0
    ensures lowered.Shared? ==> ForThreads(lowered, vred, vpar)
    ensures lowered.Shared? ==> vred != [] && (vred[0].dimIndex == 0 ==> vred[0].extent >= 1)
    ensures lowered.Shared? ==> var rows := if vred[0].dimIndex == 0 then vred[0].extent else 1;
      lowered.prog == Emitted(lowered.reduceExtent, rows, warpSize) && WarpsFit(lowered.prog, rows, warpSize)
  {
    var reduceIndex, reduceExtent := FlattenThread(vred);
    var groupIndex, groupExtent := FlattenThread(vpar);
    if reduceExtent == 1 {
      return Direct;
    }
    if reduceExtent == 0 {
      return Failed;
    }
    var threadxExtent := 1;
    if vred[0].dimIndex == 0 {
      TotalFirst(vred);
      PositiveExtent(vred);
      threadxExtent := vred[0].extent;
    }
    var prog := MakeBufAllreduce(reduceExtent, threadxExtent, warpSize);
    return Shared(reduceIndex, groupIndex, reduceExtent, groupExtent, prog);
  }

  lemma {:induction false} PositiveExtent(tvec: seq<ThreadEntry>)
    requires tvec != [] && Total(tvec) > 0
    ensures tvec[0].extent > 0
    decreases |tvec|
  {
    if |tvec| > 1 {
      PositiveExtent(tvec[..|tvec| - 1]);
    }
  }
}
