/** The spinning barrier between the tasks of a parallel launch (src/runtime/thread_pool.cc, TVMBackendParallelBarrier),
    as a state machine over its atomic steps. */
module ThreadBarrier {

  /** A task is outside of the barrier, or inside: it read its own counter, mine, before adding one to it, and has seen
      the counters of the tasks before i above mine. */
  datatype Task = Outside | Waiting(mine: nat, i: nat)

  datatype State = State(counters: seq<nat>, tasks: seq<Task>)

  predicate Shaped(s: State, n: nat) {
    |s.counters| == n && |s.tasks| == n
  }

  function Start(n: nat): State {
    State(seq(n, _ => 0), seq(n, _ => Outside))
  }

  /** One step of task t: it enters the barrier, looks at one counter, or leaves. A look at a counter that is too low is repeated. */
  function Step(s: State, t: nat): (s1: State)
    requires |s.tasks| == |s.counters|
    ensures Shaped(s1, |s.tasks|)
  {
    if t >= |s.tasks| then s
    else match s.tasks[t]
      case Outside => State(s.counters[t := s.counters[t] + 1], s.tasks[t := Waiting(s.counters[t], 0)])
      case Waiting(mine, i) =>
        if i >= |s.tasks| then s.(tasks := s.tasks[t := Outside])
        else if i == t || s.counters[i] > mine then s.(tasks := s.tasks[t := Waiting(mine, i + 1)])
        else s
  }

  function Run(s: State, schedule: seq<nat>): (s1: State)
    requires |s.tasks| == |s.counters|
    ensures Shaped(s1, |s.tasks|)
    decreases |schedule|
  {
    if schedule == [] then s else Run(Step(s, schedule[0]), schedule[1..])
  }

  /** How many barriers the task has left. */
  function Left(s: State, t: nat): int
    requires t < |s.tasks| == |s.counters|
  {
    var entered: int := s.counters[t];
    if s.tasks[t].Outside? then entered else entered - 1
  }

  /** A task waits behind its own number of entries, has only passed counters above it, and nobody is a whole barrier behind
      what it has left. */
  ghost predicate TaskFits(s: State, t: nat)
    requires t < |s.tasks| == |s.counters|
  {
    && (s.tasks[t].Waiting? ==> s.counters[t] == s.tasks[t].mine + 1 && s.tasks[t].i <= |s.tasks| && Passed(s, s.tasks[t].mine, s.tasks[t].i))
    && forall u | 0 <= u < |s.tasks| :: s.counters[u] >= Left(s, t)
  }

  /** The counters before i are above mine. */
  predicate Passed(s: State, mine: nat, i: nat)
    requires i <= |s.counters|
  {
    forall j | 0 <= j < i :: s.counters[j] > mine
  }

  ghost predicate Fits(s: State) {
    |s.tasks| == |s.counters| && forall t | 0 <= t < |s.tasks| :: TaskFits(s, t)
  }

  lemma {:induction false} StepFits(s: State, t: nat)
    requires Fits(s)
    ensures Fits(Step(s, t))
  {
    var s1 := Step(s, t);
    if t < |s.tasks| {
      assert TaskFits(s, t);
    }
    forall u | 0 <= u < |s1.tasks| ensures TaskFits(s1, u) {
      assert TaskFits(s, u);
    }
  }

  lemma {:induction false} RunFits(s: State, schedule: seq<nat>)
    requires Fits(s)
    ensures Fits(Run(s, schedule))
    decreases |schedule|
  {
    hide Fits, Step;
    if schedule != [] {
      FitsShape(s);
      StepFits(s, schedule[0]);
      RunFits(Step(s, schedule[0]), schedule[1..]);
    } else {
      FitsShape(s);
    }
  }

  lemma {:induction false} FitsShape(s: State)
    requires Fits(s)
    ensures |s.tasks| == |s.counters|
  {
  }

  /** No task has left its k-th barrier before every task has entered its k-th, in any run; and the numbers of entries
      never differ by more than one. */
  lemma {:induction false} BarrierSafe(n: nat, schedule: seq<nat>, t: nat, u: nat)
    requires t < n && u < n
    ensures var s := Run(Start(n), schedule);
      s.counters[u] >= Left(s, t) && s.counters[t] <= s.counters[u] + 1
  {
    hide Step;
    var s0 := Start(n);
    assert Fits(s0);
    RunFits(s0, schedule);
    var s := Run(s0, schedule);
    assert TaskFits(s, t) && TaskFits(s, u);
  }

  /** The task that has entered least often. */
  lemma {:induction false} Least(s: State) returns (t: nat)
    requires |s.tasks| == |s.counters| > 0
    ensures t < |s.tasks| && forall u | 0 <= u < |s.tasks| :: s.counters[t] <= s.counters[u]
  {
    t := 0;
    for k := 1 to |s.tasks|
      invariant t < |s.tasks| && forall u | 0 <= u < k :: s.counters[t] <= s.counters[u]
    {
      if s.counters[k] < s.counters[t] {
        t := k;
      }
    }
  }

  function Repeat(t: nat, k: nat): seq<nat> {
    seq(k, _ => t)
  }

  /** When every task waits, there is one that leaves after at most n + 1 steps of its own, whatever it has seen before. */
  lemma {:induction false} BarrierProgress(s: State) returns (t: nat, k: nat)
    requires Fits(s) && |s.tasks| > 0 && forall u | 0 <= u < |s.tasks| :: s.tasks[u].Waiting?
    ensures t < |s.tasks| && k <= |s.tasks| + 1 && Run(s, Repeat(t, k)).tasks[t].Outside?
  {
    t := Least(s);
    assert TaskFits(s, t);
    k := |s.tasks| - s.tasks[t].i + 1;
    Leaves(s, t, k);
  }

  /** With all counters above what it waits for, a task goes on step by step. */
  lemma {:induction false} Leaves(s: State, t: nat, k: nat)
    requires |s.tasks| == |s.counters| && t < |s.tasks| && s.tasks[t].Waiting? && s.tasks[t].i <= |s.tasks|
    requires k == |s.tasks| - s.tasks[t].i + 1 && forall u | 0 <= u < |s.tasks| :: s.counters[u] > s.tasks[t].mine
    ensures Run(s, Repeat(t, k)).tasks[t].Outside?
    decreases k
  {
    var s1 := Step(s, t);
    assert Repeat(t, k)[0] == t && Repeat(t, k)[1..] == Repeat(t, k - 1);
    if k == 1 {
      assert Repeat(t, 0) == [];
    } else {
      Leaves(s1, t, k - 1);
    }
  }

  /** A run without a step of task t keeps what it has passed: other tasks only add to their counters. */
  lemma {:induction false} CountersGrow(s: State, schedule: seq<nat>, u: nat)
    requires |s.tasks| == |s.counters| && u < |s.tasks|
    ensures Run(s, schedule).counters[u] >= s.counters[u]
    decreases |schedule|
  {
    if schedule != [] {
      CountersGrow(Step(s, schedule[0]), schedule[1..], u);
    }
  }
}
