/** The launch of parallel tasks and the count of those that have not reported yet
    (src/runtime/thread_pool.cc, ParallelLauncher and ThreadPool::Launch). */
module ParallelLaunch {
  import Sets

  datatype Outcome = Done | Failed(message: string)

  /** One line of the error report. */
  datatype Line = Line(task: nat, message: string)

  datatype Result =
    | Refused
    | Blocked
    | Returned(code: int, report: seq<Line>)

  /** The lines for the recorded messages of the first n tasks. */
  function Lines(errors: seq<string>, n: nat): seq<Line>
    requires n <= |errors|
  {
    if n == 0 then [] else Lines(errors, n - 1) + if errors[n - 1] != "" then [Line(n - 1, errors[n - 1])] else []
  }

  /** Each message is reported once, in the order of the tasks. */
  lemma {:induction false} LinesRight(errors: seq<string>, n: nat)
    requires n <= |errors|
    ensures forall l: Line :: l in Lines(errors, n) <==> l.task < n && l.message == errors[l.task] != ""
    ensures forall i, j | 0 <= i < j < |Lines(errors, n)| :: Lines(errors, n)[i].task < Lines(errors, n)[j].task
  {
    if n > 0 {
      LinesRight(errors, n - 1);
      assert forall l <- Lines(errors, n - 1) :: l.task < n - 1;
    }
  }

  /** What the tasks that have reported leave as the message of task i. */
  function Message(outcomes: nat -> Outcome, reported: seq<nat>, i: nat): string {
    if i in reported && outcomes(i).Failed? then outcomes(i).message else ""
  }

  /** Some of n tasks, each once. */
  predicate Schedule(order: seq<nat>, n: nat) {
    (forall i | 0 <= i < |order| :: order[i] < n) && forall i, j | 0 <= i < j < |order| :: order[i] != order[j]
  }

  function Tasks(order: seq<nat>): set<nat> {
    set t <- order
  }

  function TasksBelow(n: nat): set<nat> {
    if n == 0 then {} else TasksBelow(n - 1) + {n - 1}
  }

  /** As many reports as tasks means that all have reported. */
  lemma {:induction false} AllReported(order: seq<nat>, n: nat)
    requires Schedule(order, n)
    ensures |order| <= n
    ensures |order| == n <==> forall i: nat | i < n :: i in order
  {
    var seen, all := Tasks(order), TasksBelow(n);
    Distinct(order, n);
    Below(n);
    assert seen <= all;
    Sets.SubsetSize(seen, all);
    if |order| == n {
      forall t: nat | t < n ensures t in order {
        assert t in all;
      }
    } else {
      assert seen != all && !(all <= seen);
      var t: nat :| t in all && t !in seen;
    }
  }

  lemma {:induction false} Distinct(order: seq<nat>, n: nat)
    requires Schedule(order, n)
    ensures |Tasks(order)| == |order|
  {
    if order != [] {
      var last := |order| - 1;
      Distinct(order[..last], n);
      assert Tasks(order) == Tasks(order[..last]) + {order[last]};
    }
  }

  lemma {:induction false} Below(n: nat)
    ensures |TasksBelow(n)| == n && forall t: nat :: t in TasksBelow(n) <==> t < n
  {
    if n > 0 {
      Below(n - 1);
    }
  }

  class ParallelLauncher {
    var numPending: nat
    var hasError: bool
    var parErrors: seq<string>
    const isWorker: bool

    constructor (isWorker: bool)
      ensures Idle() && this.isWorker == isWorker
    {
      this.isWorker := isWorker;
      numPending, hasError, parErrors := 0, false, [];
    }

    /** No message of an earlier launch is left. */
    predicate Idle()
      reads this
    {
      forall i | 0 <= i < |parErrors| :: parErrors[i] == ""
    }

    /** The tasks of the schedule have reported, out of n. */
    ghost predicate Running(outcomes: nat -> Outcome, n: nat, reported: seq<nat>)
      reads this
    {
      && numPending + |reported| == n <= |parErrors|
      && (hasError <==> exists t <- reported :: outcomes(t).Failed?)
      && forall i | 0 <= i < |parErrors| :: parErrors[i] == Message(outcomes, reported, i)
    }

    method Init(numTask: nat, ghost outcomes: nat -> Outcome)
      requires Idle()
      modifies this
      ensures Running(outcomes, numTask, [])
    {
      numPending, hasError := numTask, false;
      if numTask > |parErrors| {
        parErrors := parErrors + seq(numTask + 1 - |parErrors|, _ => "");
      }
    }

    method SignalJobError(t: nat, message: string, ghost outcomes: nat -> Outcome, ghost n: nat, ghost reported: seq<nat>)
      requires Running(outcomes, n, reported) && Schedule(reported + [t], n) && outcomes(t) == Failed(message)
      modifies this
      ensures Running(outcomes, n, reported + [t])
    {
      AllReported(reported + [t], n);
      assert (reported + [t])[|reported|] == t;
      numPending := numPending - 1;
      parErrors := parErrors[t := message];
      hasError := true;
      assert t in reported + [t];
    }

    method SignalJobFinish(t: nat, ghost outcomes: nat -> Outcome, ghost n: nat, ghost reported: seq<nat>)
      requires Running(outcomes, n, reported) && Schedule(reported + [t], n) && outcomes(t) == Done
      modifies this
      ensures Running(outcomes, n, reported + [t])
    {
      AllReported(reported + [t], n);
      numPending := numPending - 1;
    }

    /** Goes on once no task is pending; takes the messages out. */
    method WaitForJobs() returns (r: Result)
      modifies this
      ensures r.Blocked? <==> old(numPending) != 0
      ensures r.Blocked? ==> numPending == old(numPending) && hasError == old(hasError) && parErrors == old(parErrors)
      ensures old(numPending) == 0 ==> r == if old(hasError) then Returned(-1, Lines(old(parErrors), |old(parErrors)|)) else Returned(0, [])
      ensures old(numPending) == 0 && old(hasError) ==> Idle()
      ensures !old(hasError) ==> parErrors == old(parErrors)
    {
      if numPending != 0 {
        return Blocked;
      }
      if !hasError {
        return Returned(0, []);
      }
      var report: seq<Line> := [];
      for i := 0 to |parErrors|
        invariant |parErrors| == |old(parErrors)| && numPending == 0 && hasError
        invariant forall k | 0 <= k < i :: parErrors[k] == ""
        invariant forall k | i <= k < |parErrors| :: parErrors[k] == old(parErrors)[k]
        invariant report == Lines(old(parErrors), i)
      {
        if parErrors[i] != "" {
          report := report + [Line(i, parErrors[i])];
          parErrors := parErrors[i := ""];
        }
      }
      return Returned(-1, report);
    }

    /** A launch in which the tasks report in any order. It returns once all of them have reported, not before; with 0 if
        none failed, and with the messages of those that failed otherwise. No message is left for the next launch.
        It is refused inside a worker, or if there are more tasks than workers. */
    method Launch(numTask: nat, numWorkers: nat, outcomes: nat -> Outcome, order: seq<nat>) returns (r: Result, ghost n: nat)
      requires Idle() && Schedule(order, if numTask == 0 then numWorkers else numTask)
      modifies this
      ensures n == if numTask == 0 then numWorkers else numTask
      ensures r.Refused? <==> isWorker || numTask > numWorkers
      ensures r.Refused? ==> Idle()
      ensures !r.Refused? ==> (r.Returned? <==> forall t: nat | t < n :: t in order)
      ensures r.Returned? ==> Idle() && r.code in {0, -1} && (r.code == 0 <==> forall t: nat | t < n :: outcomes(t) == Done)
      ensures r.Returned? ==> forall l: Line :: l in r.report <==> l.task < n && outcomes(l.task) == Failed(l.message) && l.message != ""
      ensures r.Returned? ==> forall i, j | 0 <= i < j < |r.report| :: r.report[i].task < r.report[j].task
    {
      n := if numTask == 0 then numWorkers else numTask;
      if isWorker || (if numTask == 0 then numWorkers else numTask) > numWorkers {
        return Refused, n;
      }
      Init(if numTask == 0 then numWorkers else numTask, outcomes);
      for k := 0 to |order|
        invariant Running(outcomes, n, order[..k])
      {
        assert order[..k + 1] == order[..k] + [order[k]];
        match outcomes(order[k])
        case Done => SignalJobFinish(order[k], outcomes, n, order[..k]);
        case Failed(message) => SignalJobError(order[k], message, outcomes, n, order[..k]);
      }
      assert order[..|order|] == order;
      AllReported(order, n);
      ghost var errors := parErrors;
      LinesRight(errors, |errors|);
      r := WaitForJobs();
      if r.Returned? {
        ReportRight(outcomes, order, n, errors);
      }
    }
  }

  /** Once all have reported, the recorded messages are those of the tasks that failed. */
  lemma {:induction false} ReportRight(outcomes: nat -> Outcome, order: seq<nat>, n: nat, errors: seq<string>)
    requires Schedule(order, n) && n <= |errors| && forall t: nat | t < n :: t in order
    requires forall i | 0 <= i < |errors| :: errors[i] == Message(outcomes, order, i)
    ensures forall l: Line :: l in Lines(errors, |errors|) <==> l.task < n && outcomes(l.task) == Failed(l.message) && l.message != ""
    ensures (exists t <- order :: outcomes(t).Failed?) <==> exists t: nat :: t < n && outcomes(t).Failed?
  {
    LinesRight(errors, |errors|);
    forall l: Line
      ensures l in Lines(errors, |errors|) <==> l.task < n && outcomes(l.task) == Failed(l.message) && l.message != ""
    {
      if l.task < |errors| {
        assert errors[l.task] == Message(outcomes, order, l.task);
      }
    }
  }
}
