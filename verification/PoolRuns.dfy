/** What holds over whole runs of the worker pool: reports, waiting, and progress. */
module PoolRuns {
  import opened Wrappers
  import opened PoolProtocol

  ghost function Run(s: System, steps: seq<Step>): Option<System>
    decreases |steps|
  {
    if steps == [] then Some(s)
    else
      match Run(s, steps[..|steps| - 1])
      case None => None
      case Some(t) =>
        var last := steps[|steps| - 1];
        if Enabled(t, last) then Some(Apply(t, last)) else None
  }

  ghost predicate CanRun(s: System, steps: seq<Step>) {
    Run(s, steps).Some?
  }

  ghost function After(s: System, steps: seq<Step>): System
    requires CanRun(s, steps)
  {
    Run(s, steps).value
  }

  lemma {:induction false} RunKeeps(s: System, steps: seq<Step>)
    requires Inv(s) && CanRun(s, steps)
    ensures Inv(After(s, steps))
    decreases |steps|
  {
    if steps != [] {
      var n := |steps| - 1;
      RunKeeps(s, steps[..n]);
      StepKeeps(After(s, steps[..n]), steps[n]);
    }
  }

  /* ---- what a report means ---- */

  ghost predicate AllTasksDone(s: System, h: nat) {
    h < |s.pool.jobs| && h < |s.outcomes| && forall i: nat :: i < s.pool.jobs[h].total <==> i in s.outcomes[h]
  }

  lemma CompleteIsDone(s: System, h: nat)
    requires JobsCount(s)
    ensures Complete(s.pool.jobs, h) <==> AllTasksDone(s, h)
  {
    if h < |s.pool.jobs| {
      var all, done := Numbers(s.pool.jobs[h].total), s.outcomes[h].Keys;
      assert JobCounts(s.pool.jobs[h], s.outcomes[h]);
      assert forall i :: i in done ==> i in all;
      Subset(done, all);
      if AllTasksDone(s, h) {
        assert done == all;
      }
    }
  }

  /** A report is made once, when every task of its job is done. It is a success exactly when every
      task went well and the callback, which ran once and was told so, did not raise. */
  lemma ReportsAreTrue(s: System, steps: seq<Step>, h: nat)
    requires Initial(s) && CanRun(s, steps)
    ensures var t := After(s, steps);
      && TimesReported(t.reports, h) <= 1
      && forall r :: r in t.reports && r.job == h ==>
           && AllTasksDone(t, h) && h < |t.calls|
           && (t.pool.jobs[h].callback ==> |t.calls[h]| == 1 && t.calls[h][0].success == AllOk(t.outcomes[h]))
           && (!t.pool.jobs[h].callback ==> t.calls[h] == [])
           && (r.success <==> AllOk(t.outcomes[h]) && forall call :: call in t.calls[h] ==> !call.raised)
  {
    InitialInv(s);
    RunKeeps(s, steps);
    var t := After(s, steps);
    assert BeingClosed(t.pool.workers, h) + TimesReported(t.reports, h) == Once(Complete(t.pool.jobs, h));
    CompleteIsDone(t, h);
  }

  /** In every reachable state a callback has run at most once, and never before the last task. */
  lemma CallbacksRunOnce(s: System, steps: seq<Step>, h: nat)
    requires Initial(s) && CanRun(s, steps) && h < |After(s, steps).pool.jobs|
    ensures var t := After(s, steps);
      && |t.calls| == |t.pool.jobs| == |t.outcomes|
      && |t.calls[h]| <= 1
      && (t.calls[h] != [] ==>
            t.pool.jobs[h].callback && AllTasksDone(t, h) && t.calls[h][0].success == AllOk(t.outcomes[h]))
  {
    InitialInv(s);
    RunKeeps(s, steps);
    var t := After(s, steps);
    CompleteIsDone(t, h);
    if Complete(t.pool.jobs, h) {
      assert BeingClosed(t.pool.workers, h) + TimesReported(t.reports, h) == 1;
      if BeingClosed(t.pool.workers, h) > 0 {
        SomeWorkerCloses(t.pool.workers, h);
        var k: nat :| k < |t.pool.workers| && Closes(t.pool.workers[k], h);
        assert PhaseHolds(t.pool.jobs, t.calls, t.pool.workers[k].phase);
      } else {
        ReportsCounted(t.reports, h);
      }
    }
  }

  /** The reader of reports gets each of them once and in order; the rest are still waiting for it. */
  lemma ReportsArriveInOrder(s: System, steps: seq<Step>)
    requires Initial(s) && CanRun(s, steps)
    ensures var t := After(s, steps); t.delivered + t.pool.finished == Ids(t.pool.jobs, t.reports)
  {
    InitialInv(s);
    RunKeeps(s, steps);
  }

  /* ---- waiting ---- */

  function ReportedJobs(reports: seq<Report>): set<nat> {
    set r | r in reports :: r.job
  }

  lemma {:induction false} ReportedDistinct(reports: seq<Report>)
    requires forall h: nat :: TimesReported(reports, h) <= 1
    ensures |ReportedJobs(reports)| == |reports|
  {
    if reports != [] {
      var n := |reports| - 1;
      var h := reports[n].job;
      forall k: nat ensures TimesReported(reports[..n], k) <= 1 {
        assert TimesReported(reports, k) <= 1;
      }
      ReportedDistinct(reports[..n]);
      assert TimesReported(reports, h) <= 1;
      ReportsCounted(reports[..n], h);
      assert h !in ReportedJobs(reports[..n]);
      assert forall r :: r in reports <==> r in reports[..n] || r == reports[n];
      assert ReportedJobs(reports) == ReportedJobs(reports[..n]) + {h};
    } else {
      assert ReportedJobs(reports) == {};
    }
  }

  function Unreported(s: System): set<nat> {
    Numbers(|s.pool.jobs|) - ReportedJobs(s.reports)
  }

  /** The counter is the number of jobs that are not reported yet. */
  lemma CounterIsUnreported(s: System)
    requires Inv(s)
    ensures s.pool.inflight == |Unreported(s)|
  {
    forall h: nat ensures TimesReported(s.reports, h) <= 1 {
      assert BeingClosed(s.pool.workers, h) + TimesReported(s.reports, h) == Once(Complete(s.pool.jobs, h));
    }
    ReportedDistinct(s.reports);
    var all := Numbers(|s.pool.jobs|);
    assert ReportedJobs(s.reports) <= all;
    assert all == Unreported(s) + ReportedJobs(s.reports);
  }

  /** When the counter is zero, which is what waiting waits for, every task of every job is done:
      nothing is queued, and no worker runs a task, calls back or has a report to make. */
  lemma WaitingMeansIdle(s: System, steps: seq<Step>)
    requires Initial(s) && CanRun(s, steps) && After(s, steps).pool.inflight == 0
    ensures AtRest(After(s, steps))
  {
    InitialInv(s);
    RunKeeps(s, steps);
    ZeroMeansIdle(After(s, steps));
  }

  ghost predicate AtRest(t: System) {
    && t.pool.loads == [] && t.pool.stores == []
    && (forall w :: w in t.pool.workers ==> w.phase.Idle?)
    && (forall h: nat :: h < |t.pool.jobs| ==> AllTasksDone(t, h) && TimesReported(t.reports, h) == 1)
  }

  lemma ZeroMeansIdle(t: System)
    requires Inv(t) && t.pool.inflight == 0
    ensures AtRest(t)
  {
    CounterIsUnreported(t);
    forall h: nat ensures TimesReported(t.reports, h) == Once(h < |t.pool.jobs|) && BeingClosed(t.pool.workers, h) == 0 {
      assert BeingClosed(t.pool.workers, h) + TimesReported(t.reports, h) == Once(Complete(t.pool.jobs, h));
      if h < |t.pool.jobs| {
        assert h in Numbers(|t.pool.jobs|) && h !in Unreported(t);
        ReportsCounted(t.reports, h);
      }
    }
    forall h: nat | h < |t.pool.jobs| ensures AllTasksDone(t, h) && Complete(t.pool.jobs, h) {
      assert BeingClosed(t.pool.workers, h) + TimesReported(t.reports, h) == Once(Complete(t.pool.jobs, h));
      CompleteIsDone(t, h);
    }
    forall task ensures Open(t.pool, task) == 0 {
      assert Open(t.pool, task) + Once(Done(t.outcomes, task)) == Once(Known(t.pool.jobs, task));
      if Known(t.pool.jobs, task) {
        assert AllTasksDone(t, task.job);
      }
    }
    NothingOpen(t);
  }

  lemma NothingOpen(t: System)
    requires forall task :: Open(t.pool, task) == 0
    requires forall h: nat :: BeingClosed(t.pool.workers, h) == 0
    ensures t.pool.loads == [] && t.pool.stores == [] && forall w :: w in t.pool.workers ==> w.phase.Idle?
  {
    assert t.pool.loads != [] ==> Open(t.pool, t.pool.loads[0]) == 0;
    assert t.pool.stores != [] ==> Open(t.pool, t.pool.stores[0]) == 0;
    forall w | w in t.pool.workers ensures w.phase.Idle? {
      HeldIsOpen(t.pool, w);
    }
  }

  lemma HeldIsOpen(p: Pool, w: Worker)
    requires w in p.workers
    ensures w.phase.Running? ==> Open(p, w.phase.task) > 0
    ensures w.phase.CallingBack? || w.phase.Reporting? ==> BeingClosed(p.workers, w.phase.job) > 0
  {
    var k: nat :| k < |p.workers| && p.workers[k] == w;
    if w.phase.Running? {
      assert Runs(p.workers[k], w.phase.task);
      SomeWorkerRuns(p.workers, w.phase.task);
    }
    if w.phase.CallingBack? || w.phase.Reporting? {
      assert Closes(p.workers[k], w.phase.job);
      SomeWorkerCloses(p.workers, w.phase.job);
    }
  }

  /* ---- progress ---- */

  predicate WorkerStep(step: Step) {
    step.Pop? || step.Finish? || step.Callback? || step.Deliver?
  }

  function Weight(w: Worker): nat {
    match w.phase
    case Idle => 0
    case Running(_) => 3
    case CallingBack(_, _) => 2
    case Reporting(_, _) => 1
  }

  function Weights(ws: seq<Worker>): nat {
    if ws == [] then 0 else Weight(ws[0]) + Weights(ws[1..])
  }

  /** The worker steps that are still to come, at most. */
  function Measure(p: Pool): nat {
    4 * (|p.loads| + |p.stores|) + Weights(p.workers)
  }

  lemma {:induction false} WeightChanges(ws: seq<Worker>, k: nat, w: Worker)
    requires k < |ws|
    ensures Weights(ws[k := w]) + Weight(ws[k]) == Weights(ws) + Weight(w)
  {
    if k > 0 {
      WeightChanges(ws[1..], k - 1, w);
      assert ws[k := w][1..] == ws[1..][k - 1 := w];
    } else {
      assert ws[k := w][1..] == ws[1..];
    }
  }

  /** Every step that a worker takes leaves less to do. */
  lemma WorkerStepsProgress(s: System, step: Step)
    requires Enabled(s, step) && WorkerStep(step)
    ensures Measure(Apply(s, step).pool) < Measure(s.pool)
  {
    WeightChanges(s.pool.workers, step.worker, Apply(s, step).pool.workers[step.worker]);
  }

  predicate OnlyWorkers(steps: seq<Step>) {
    forall step :: step in steps ==> WorkerStep(step)
  }

  /** With no further jobs, the workers take finitely many steps. */
  lemma {:induction false} WorkersFinish(s: System, steps: seq<Step>)
    requires CanRun(s, steps) && OnlyWorkers(steps)
    ensures |steps| + Measure(After(s, steps).pool) <= Measure(s.pool)
    decreases |steps|
  {
    if steps != [] {
      var n := |steps| - 1;
      WorkersFinish(s, steps[..n]);
      WorkerStepsProgress(After(s, steps[..n]), steps[n]);
    }
  }

  /** A worker with something in its hands can go on. */
  lemma BusyCanStep(s: System, k: nat) returns (step: Step)
    requires Inv(s) && k < |s.pool.workers| && !s.pool.workers[k].phase.Idle?
    ensures WorkerStep(step) && Enabled(s, step)
  {
    assert PhaseHolds(s.pool.jobs, s.calls, s.pool.workers[k].phase);
    match s.pool.workers[k].phase
    case Running(task) => step := Finish(k, true);
    case CallingBack(_, _) => step := Callback(k, true);
    case Reporting(_, _) => step := Deliver(k);
  }

  lemma UnreportedJob(s: System) returns (h: nat)
    requires Inv(s) && s.pool.inflight > 0
    ensures h < |s.pool.jobs| && TimesReported(s.reports, h) == 0
  {
    CounterIsUnreported(s);
    h :| h in Unreported(s);
    ReportsCounted(s.reports, h);
  }

  /** While a job is unreported, some worker can take a step. */
  lemma SomeWorkerCanStep(s: System) returns (step: Step)
    requires Inv(s) && s.pool.workers != [] && s.pool.inflight > 0
    ensures WorkerStep(step) && Enabled(s, step)
  {
    if k: nat :| k < |s.pool.workers| && !s.pool.workers[k].phase.Idle? {
      step := BusyCanStep(s, k);
    } else {
      var h := UnreportedJob(s);
      assert BeingClosed(s.pool.workers, h) + TimesReported(s.reports, h) == Once(Complete(s.pool.jobs, h));
      SomeWorkerCloses(s.pool.workers, h);
      CompleteIsDone(s, h);
      var i: nat :| (i < s.pool.jobs[h].total) != (i in s.outcomes[h]);
      assert JobCounts(s.pool.jobs[h], s.outcomes[h]);
      var task := Task(h, i);
      assert Open(s.pool, task) + Once(Done(s.outcomes, task)) == Once(Known(s.pool.jobs, task));
      SomeWorkerRuns(s.pool.workers, task);
      step := Pop(0);
    }
  }

  lemma {:induction false} WorkersStay(s: System, steps: seq<Step>)
    requires CanRun(s, steps)
    ensures |After(s, steps).pool.workers| == |s.pool.workers|
    decreases |steps|
  {
    if steps != [] {
      WorkersStay(s, steps[..|steps| - 1]);
    }
  }

  /** When no worker can take another step, every job is reported. */
  lemma StuckMeansReported(s: System, steps: seq<Step>)
    requires Initial(s) && CanRun(s, steps) && s.pool.workers != []
    requires forall step :: WorkerStep(step) ==> !Enabled(After(s, steps), step)
    ensures After(s, steps).pool.inflight == 0
  {
    InitialInv(s);
    RunKeeps(s, steps);
    WorkersStay(s, steps);
    var t := After(s, steps);
    if t.pool.inflight > 0 {
      var step := SomeWorkerCanStep(t);
    }
    CounterIsUnreported(t);
  }

  /** From any reachable state the workers, on their own, get every job reported. */
  lemma {:induction false} EveryJobGetsReported(s: System) returns (steps: seq<Step>)
    requires Inv(s) && s.pool.workers != []
    ensures OnlyWorkers(steps) && CanRun(s, steps) && After(s, steps).pool.inflight == 0
    decreases Measure(s.pool)
  {
    if s.pool.inflight <= 0 {
      CounterIsUnreported(s);
      steps := [];
    } else {
      var first := SomeWorkerCanStep(s);
      WorkerStepsProgress(s, first);
      StepKeeps(s, first);
      var rest := EveryJobGetsReported(Apply(s, first));
      RunFirst(s, first, rest);
      steps := [first] + rest;
    }
  }

  lemma RunNext(s: System, steps: seq<Step>, step: Step)
    requires CanRun(s, steps) && Enabled(After(s, steps), step)
    ensures CanRun(s, steps + [step]) && After(s, steps + [step]) == Apply(After(s, steps), step)
  {
    assert (steps + [step])[..|steps|] == steps;
  }

  lemma {:induction false} RunFirst(s: System, first: Step, rest: seq<Step>)
    requires Enabled(s, first) && CanRun(Apply(s, first), rest)
    ensures CanRun(s, [first] + rest) && After(s, [first] + rest) == After(Apply(s, first), rest)
    decreases |rest|
  {
    if rest == [] {
      RunNext(s, [], first);
      assert [] + [first] == [first] + rest;
    } else {
      var n := |rest| - 1;
      RunFirst(s, first, rest[..n]);
      RunNext(s, [first] + rest[..n], rest[n]);
      assert [first] + rest == [first] + rest[..n] + [rest[n]];
    }
  }

  /* ---- order ---- */

  function QueueOf(p: Pool, load: bool): seq<Task> {
    if load then p.loads else p.stores
  }

  /** What a step adds to one of the queues, and what it takes from it. */
  function Added(s: System, step: Step, load: bool): seq<Task> {
    if step.Enqueue? && step.load == load then TasksOf(|s.pool.jobs|, step.total) else []
  }

  function Taken(s: System, step: Step, load: bool): seq<Task> {
    if step.Pop? && CanPop(s.pool, step.worker) && TakesLoad(s.pool, s.pool.workers[step.worker]) == load
    then [NextTask(s.pool, step.worker)] else []
  }

  ghost function AllAdded(s: System, steps: seq<Step>, load: bool): seq<Task>
    requires CanRun(s, steps)
    decreases |steps|
  {
    if steps == [] then []
    else
      var n := |steps| - 1;
      AllAdded(s, steps[..n], load) + Added(After(s, steps[..n]), steps[n], load)
  }

  ghost function AllTaken(s: System, steps: seq<Step>, load: bool): seq<Task>
    requires CanRun(s, steps)
    decreases |steps|
  {
    if steps == [] then []
    else
      var n := |steps| - 1;
      AllTaken(s, steps[..n], load) + Taken(After(s, steps[..n]), steps[n], load)
  }

  lemma StepServes(s: System, step: Step, load: bool)
    requires Enabled(s, step)
    ensures QueueOf(s.pool, load) + Added(s, step, load) == Taken(s, step, load) + QueueOf(Apply(s, step).pool, load)
  {
  }

  /** Over any run, the tasks of a queue are taken in the order in which they were added, and what was
      added and not taken is still there, in that order. */
  lemma {:induction false} ServedInOrder(s: System, steps: seq<Step>, load: bool)
    requires CanRun(s, steps)
    ensures QueueOf(s.pool, load) + AllAdded(s, steps, load) == AllTaken(s, steps, load) + QueueOf(After(s, steps).pool, load)
    decreases |steps|
  {
    if steps != [] {
      var n := |steps| - 1;
      var t := After(s, steps[..n]);
      ServedInOrder(s, steps[..n], load);
      StepServes(t, steps[n], load);
      ServedNext(QueueOf(s.pool, load), AllAdded(s, steps[..n], load), AllTaken(s, steps[..n], load), QueueOf(t.pool, load),
                 Added(t, steps[n], load), Taken(t, steps[n], load), QueueOf(After(s, steps).pool, load));
    }
  }

  lemma ServedNext(q: seq<Task>, added: seq<Task>, taken: seq<Task>, now: seq<Task>, more: seq<Task>, next: seq<Task>, after: seq<Task>)
    requires q + added == taken + now && now + more == next + after
    ensures q + (added + more) == taken + next + after
  {
    assert q + (added + more) == q + added + more;
    assert taken + now + more == taken + (now + more);
  }

  /** A worker takes from the other queue only when its own is empty. */
  lemma OwnKindFirst(s: System, k: nat)
    requires Enabled(s, Pop(k))
    ensures var load := s.pool.workers[k].loadPriority;
      && (Taken(s, Pop(k), !load) != [] <==> QueueOf(s.pool, load) == [])
      && (Taken(s, Pop(k), load) != [] <==> QueueOf(s.pool, load) != [])
  {
  }
}
