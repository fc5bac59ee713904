/** A pool of workers over a load queue and a store queue: every interleaving of its steps. */
module PoolProtocol {
  import opened Wrappers

  /** The `index`-th task of a job. Jobs are told apart by the order in which they were enqueued:
      two of them may carry the same id. */
  datatype Task = Task(job: nat, index: nat)

  datatype Job = Job(id: nat, total: nat, callback: bool, completed: nat, success: bool)

  datatype Phase =
    | Idle
    | Running(task: Task)
    | CallingBack(job: nat, success: bool)
    | Reporting(job: nat, success: bool)

  datatype Worker = Worker(loadPriority: bool, phase: Phase)

  datatype Pool = Pool(
    loads: seq<Task>, stores: seq<Task>, workers: seq<Worker>, jobs: seq<Job>, finished: seq<(nat, bool)>, inflight: int)

  datatype Call = Call(success: bool, raised: bool)

  datatype Report = Report(job: nat, success: bool)

  /** The pool, and what has happened: how each task ended, the callbacks that ran, the reports in
      order, and what the reader of reports has received. */
  datatype System = System(
    pool: Pool, outcomes: seq<map<nat, bool>>, calls: seq<seq<Call>>, reports: seq<Report>, delivered: seq<(nat, bool)>)

  datatype Step =
    | Enqueue(load: bool, id: nat, total: nat, callback: bool)
    | Pop(worker: nat)
    | Finish(worker: nat, ok: bool)
    | Callback(worker: nat, raised: bool)
    | Deliver(worker: nat)
    | Drain

  /* ---- the steps ---- */

  function TasksOf(job: nat, n: nat): seq<Task> {
    seq(n, i requires 0 <= i < n => Task(job, i))
  }

  function EnqueueJob(p: Pool, load: bool, id: nat, total: nat, callback: bool): Pool {
    var tasks := TasksOf(|p.jobs|, total);
    p.(loads := if load then p.loads + tasks else p.loads,
       stores := if load then p.stores else p.stores + tasks,
       jobs := p.jobs + [Job(id, total, callback, 0, true)],
       inflight := p.inflight + 1)
  }

  /** The queue that a worker looks into first. */
  function Primary(p: Pool, w: Worker): seq<Task> {
    if w.loadPriority then p.loads else p.stores
  }

  /** A load-priority worker takes from the load queue while it has tasks, the others from the store queue. */
  predicate TakesLoad(p: Pool, w: Worker) {
    if Primary(p, w) != [] then w.loadPriority else !w.loadPriority
  }

  predicate CanPop(p: Pool, k: nat) {
    k < |p.workers| && p.workers[k].phase.Idle? && (p.loads != [] || p.stores != [])
  }

  function NextTask(p: Pool, k: nat): Task
    requires CanPop(p, k)
  {
    if TakesLoad(p, p.workers[k]) then p.loads[0] else p.stores[0]
  }

  function Set(p: Pool, k: nat, phase: Phase): Pool
    requires k < |p.workers|
  {
    p.(workers := p.workers[k := p.workers[k].(phase := phase)])
  }

  function PopTask(p: Pool, k: nat): Pool
    requires CanPop(p, k)
  {
    var q := if TakesLoad(p, p.workers[k]) then p.(loads := p.loads[1..]) else p.(stores := p.stores[1..]);
    Set(q, k, Running(NextTask(p, k)))
  }

  /** Counts one finished task. */
  function Counted(job: Job, ok: bool): Job {
    job.(completed := job.completed + 1, success := job.success && ok)
  }

  function AfterTask(h: nat, job: Job): Phase {
    if job.completed != job.total then Idle
    else if job.callback then CallingBack(h, job.success)
    else Reporting(h, job.success)
  }

  predicate CanFinish(p: Pool, k: nat) {
    k < |p.workers| && p.workers[k].phase.Running? && p.workers[k].phase.task.job < |p.jobs|
  }

  function FinishTask(p: Pool, k: nat, ok: bool): Pool
    requires CanFinish(p, k)
  {
    var h := p.workers[k].phase.task.job;
    var job := Counted(p.jobs[h], ok);
    Set(p.(jobs := p.jobs[h := job]), k, AfterTask(h, job))
  }

  predicate CanCall(p: Pool, k: nat) {
    k < |p.workers| && p.workers[k].phase.CallingBack?
  }

  function CallBack(p: Pool, k: nat, raised: bool): Pool
    requires CanCall(p, k)
  {
    var phase := p.workers[k].phase;
    Set(p, k, Reporting(phase.job, phase.success && !raised))
  }

  predicate CanReport(p: Pool, k: nat) {
    k < |p.workers| && p.workers[k].phase.Reporting? && p.workers[k].phase.job < |p.jobs|
  }

  function ReportJob(p: Pool, k: nat): Pool
    requires CanReport(p, k)
  {
    var phase := p.workers[k].phase;
    Set(p.(finished := p.finished + [(p.jobs[phase.job].id, phase.success)], inflight := p.inflight - 1), k, Idle)
  }

  function Recorded(outcomes: map<nat, bool>, i: nat, ok: bool): map<nat, bool> {
    outcomes[i := ok]
  }

  /** A job has at least one task. */
  predicate Enabled(s: System, step: Step) {
    match step
    case Enqueue(_, _, total, _) => total > 0
    case Pop(k) => CanPop(s.pool, k)
    case Finish(k, _) =>
      CanFinish(s.pool, k) && s.pool.workers[k].phase.task.job < |s.outcomes|
    case Callback(k, _) => CanCall(s.pool, k) && s.pool.workers[k].phase.job < |s.calls|
    case Deliver(k) => CanReport(s.pool, k)
    case Drain => true
  }

  function Apply(s: System, step: Step): System
    requires Enabled(s, step)
  {
    match step
    case Enqueue(load, id, total, callback) =>
      s.(pool := EnqueueJob(s.pool, load, id, total, callback), outcomes := s.outcomes + [map[]], calls := s.calls + [[]])
    case Pop(k) => s.(pool := PopTask(s.pool, k))
    case Finish(k, ok) =>
      var task := s.pool.workers[k].phase.task;
      s.(pool := FinishTask(s.pool, k, ok),
         outcomes := s.outcomes[task.job := Recorded(s.outcomes[task.job], task.index, ok)])
    case Callback(k, raised) =>
      var phase := s.pool.workers[k].phase;
      s.(pool := CallBack(s.pool, k, raised),
         calls := s.calls[phase.job := s.calls[phase.job] + [Call(phase.success, raised)]])
    case Deliver(k) =>
      var phase := s.pool.workers[k].phase;
      s.(pool := ReportJob(s.pool, k), reports := s.reports + [Report(phase.job, phase.success)])
    case Drain => s.(pool := s.pool.(finished := []), delivered := s.delivered + s.pool.finished)
  }

  /* ---- where tasks and jobs are ---- */

  function Once(b: bool): nat {
    if b then 1 else 0
  }

  function InQueue(q: seq<Task>, task: Task): nat {
    if q == [] then 0 else Once(q[0] == task) + InQueue(q[1..], task)
  }

  predicate Runs(w: Worker, task: Task) {
    w.phase == Running(task)
  }

  /** A worker that counted a job's last task, and has not reported the job yet. */
  predicate Closes(w: Worker, h: nat) {
    (w.phase.CallingBack? || w.phase.Reporting?) && w.phase.job == h
  }

  function BeingRun(ws: seq<Worker>, task: Task): nat {
    if ws == [] then 0 else Once(Runs(ws[0], task)) + BeingRun(ws[1..], task)
  }

  function BeingClosed(ws: seq<Worker>, h: nat): nat {
    if ws == [] then 0 else Once(Closes(ws[0], h)) + BeingClosed(ws[1..], h)
  }

  function TimesReported(reports: seq<Report>, h: nat): nat {
    if reports == [] then 0
    else TimesReported(reports[..|reports| - 1], h) + Once(reports[|reports| - 1].job == h)
  }

  /** How often a task is waiting or being run. */
  function Open(p: Pool, task: Task): nat {
    InQueue(p.loads, task) + InQueue(p.stores, task) + BeingRun(p.workers, task)
  }

  lemma {:induction false} QueueAppend(a: seq<Task>, b: seq<Task>, task: Task)
    ensures InQueue(a + b, task) == InQueue(a, task) + InQueue(b, task)
  {
    if a == [] {
      assert a + b == b;
    } else {
      QueueAppend(a[1..], b, task);
      assert (a + b)[1..] == a[1..] + b;
    }
  }

  lemma {:induction false} QueueHolds(q: seq<Task>, task: Task)
    ensures InQueue(q, task) > 0 <==> task in q
  {
    if q != [] {
      QueueHolds(q[1..], task);
    }
  }

  lemma {:induction false} TasksCount(h: nat, n: nat, task: Task)
    ensures InQueue(TasksOf(h, n), task) == Once(task.job == h && task.index < n)
  {
    if n > 0 {
      TasksCount(h, n - 1, task);
      assert TasksOf(h, n) == TasksOf(h, n - 1) + [Task(h, n - 1)];
      QueueAppend(TasksOf(h, n - 1), [Task(h, n - 1)], task);
      assert [Task(h, n - 1)][1..] == [];
    }
  }

  lemma {:induction false} WorkerRuns(ws: seq<Worker>, k: nat, w: Worker, task: Task)
    requires k < |ws|
    ensures BeingRun(ws[k := w], task) + Once(Runs(ws[k], task)) == BeingRun(ws, task) + Once(Runs(w, task))
  {
    if k > 0 {
      WorkerRuns(ws[1..], k - 1, w, task);
      assert ws[k := w][1..] == ws[1..][k - 1 := w];
    } else {
      assert ws[k := w][1..] == ws[1..];
    }
  }

  lemma {:induction false} WorkerCloses(ws: seq<Worker>, k: nat, w: Worker, h: nat)
    requires k < |ws|
    ensures BeingClosed(ws[k := w], h) + Once(Closes(ws[k], h)) == BeingClosed(ws, h) + Once(Closes(w, h))
  {
    if k > 0 {
      WorkerCloses(ws[1..], k - 1, w, h);
      assert ws[k := w][1..] == ws[1..][k - 1 := w];
    } else {
      assert ws[k := w][1..] == ws[1..];
    }
  }

  lemma {:induction false} SomeWorkerRuns(ws: seq<Worker>, task: Task)
    ensures BeingRun(ws, task) > 0 <==> exists k: nat :: k < |ws| && Runs(ws[k], task)
  {
    if ws != [] {
      SomeWorkerRuns(ws[1..], task);
      if k: nat :| k < |ws| && Runs(ws[k], task) {
        assert k > 0 ==> Runs(ws[1..][k - 1], task);
      }
      if k: nat :| k < |ws[1..]| && Runs(ws[1..][k], task) {
        assert Runs(ws[k + 1], task);
      }
    }
  }

  lemma {:induction false} SomeWorkerCloses(ws: seq<Worker>, h: nat)
    ensures BeingClosed(ws, h) > 0 <==> exists k: nat :: k < |ws| && Closes(ws[k], h)
  {
    if ws != [] {
      SomeWorkerCloses(ws[1..], h);
      if k: nat :| k < |ws| && Closes(ws[k], h) {
        assert k > 0 ==> Closes(ws[1..][k - 1], h);
      }
      if k: nat :| k < |ws[1..]| && Closes(ws[1..][k], h) {
        assert Closes(ws[k + 1], h);
      }
    }
  }

  lemma {:induction false} ReportsCounted(reports: seq<Report>, h: nat)
    ensures TimesReported(reports, h) > 0 <==> exists r :: r in reports && r.job == h
  {
    if reports != [] {
      var n := |reports| - 1;
      ReportsCounted(reports[..n], h);
      assert forall r :: r in reports <==> r in reports[..n] || r == reports[n];
    }
  }

  /* ---- the invariant ---- */

  predicate AllOk(outcomes: map<nat, bool>) {
    forall i :: i in outcomes ==> outcomes[i]
  }

  predicate Known(jobs: seq<Job>, task: Task) {
    task.job < |jobs| && task.index < jobs[task.job].total
  }

  predicate Done(outcomes: seq<map<nat, bool>>, task: Task) {
    task.job < |outcomes| && task.index in outcomes[task.job]
  }

  /** Every task of every job is in a queue, being run, or done: once. */
  ghost predicate TasksOnce(s: System) {
    forall task :: Open(s.pool, task) + Once(Done(s.outcomes, task)) == Once(Known(s.pool.jobs, task))
  }

  /** A job counts its finished tasks and remembers whether all of them went well. */
  ghost predicate JobCounts(job: Job, outcomes: map<nat, bool>) {
    && job.completed == |outcomes| && 0 < job.total
    && (forall i :: i in outcomes ==> i < job.total)
    && (job.success <==> AllOk(outcomes))
  }

  ghost predicate JobsCount(s: System) {
    |s.outcomes| == |s.pool.jobs|
    && forall h: nat :: h < |s.pool.jobs| ==> JobCounts(s.pool.jobs[h], s.outcomes[h])
  }

  predicate Complete(jobs: seq<Job>, h: nat) {
    h < |jobs| && jobs[h].completed == jobs[h].total
  }

  /** A job is closed by one worker, or reported once, as soon as all its tasks are done. */
  ghost predicate ClosedOnce(s: System) {
    forall h: nat :: BeingClosed(s.pool.workers, h) + TimesReported(s.reports, h) == Once(Complete(s.pool.jobs, h))
  }

  /** What a job's success is, given the callbacks that ran for it. */
  ghost predicate Concludes(job: Job, calls: seq<Call>, success: bool) {
    if job.callback then |calls| == 1 && calls[0].success == job.success && success == (job.success && !calls[0].raised)
    else calls == [] && success == job.success
  }

  ghost predicate PhaseHolds(jobs: seq<Job>, calls: seq<seq<Call>>, phase: Phase)
    requires |calls| == |jobs|
  {
    match phase
    case Idle => true
    case Running(task) => task.job < |jobs|
    case CallingBack(h, success) => Complete(jobs, h) && calls[h] == [] && jobs[h].callback && success == jobs[h].success
    case Reporting(h, success) => Complete(jobs, h) && Concludes(jobs[h], calls[h], success)
  }

  ghost predicate PhasesHold(jobs: seq<Job>, calls: seq<seq<Call>>, ws: seq<Worker>)
    requires |calls| == |jobs|
  {
    forall k: nat :: k < |ws| ==> PhaseHolds(jobs, calls, ws[k].phase)
  }

  ghost predicate ReportsConclude(jobs: seq<Job>, calls: seq<seq<Call>>, reports: seq<Report>)
    requires |calls| == |jobs|
  {
    forall r :: r in reports ==> Complete(jobs, r.job) && Concludes(jobs[r.job], calls[r.job], r.success)
  }

  ghost predicate NotCalledYet(jobs: seq<Job>, calls: seq<seq<Call>>)
    requires |calls| == |jobs|
  {
    forall h: nat :: h < |jobs| && !Complete(jobs, h) ==> calls[h] == []
  }

  ghost predicate CallsOnce(s: System) {
    && |s.calls| == |s.pool.jobs|
    && PhasesHold(s.pool.jobs, s.calls, s.pool.workers)
    && ReportsConclude(s.pool.jobs, s.calls, s.reports)
    && NotCalledYet(s.pool.jobs, s.calls)
  }

  function IdOf(jobs: seq<Job>, h: nat): nat {
    if h < |jobs| then jobs[h].id else 0
  }

  function Ids(jobs: seq<Job>, reports: seq<Report>): seq<(nat, bool)> {
    seq(|reports|, i requires 0 <= i < |reports| => (IdOf(jobs, reports[i].job), reports[i].success))
  }

  ghost predicate ReportsReach(s: System) {
    && s.pool.inflight + |s.reports| == |s.pool.jobs|
    && (forall r :: r in s.reports ==> r.job < |s.pool.jobs|)
    && s.delivered + s.pool.finished == Ids(s.pool.jobs, s.reports)
  }

  ghost predicate Inv(s: System) {
    TasksOnce(s) && JobsCount(s) && ClosedOnce(s) && CallsOnce(s) && ReportsReach(s)
  }

  /** A pool that was just started. */
  ghost predicate Initial(s: System) {
    && s.pool.loads == [] && s.pool.stores == [] && s.pool.jobs == [] && s.pool.finished == [] && s.pool.inflight == 0
    && (forall w :: w in s.pool.workers ==> w.phase.Idle?)
    && s.outcomes == [] && s.calls == [] && s.reports == [] && s.delivered == []
  }

  lemma InitialInv(s: System)
    requires Initial(s)
    ensures Inv(s)
  {
    forall task ensures BeingRun(s.pool.workers, task) == 0 {
      SomeWorkerRuns(s.pool.workers, task);
    }
    forall h: nat ensures BeingClosed(s.pool.workers, h) == 0 {
      SomeWorkerCloses(s.pool.workers, h);
    }
  }

  /* ---- enqueueing ---- */

  lemma EnqueueOpens(p: Pool, load: bool, id: nat, total: nat, callback: bool, task: Task)
    ensures Open(EnqueueJob(p, load, id, total, callback), task)
         == Open(p, task) + Once(task.job == |p.jobs| && task.index < total)
  {
    TasksCount(|p.jobs|, total, task);
    QueueAppend(if load then p.loads else p.stores, TasksOf(|p.jobs|, total), task);
  }

  lemma EnqueueTasks(s: System, step: Step)
    requires TasksOnce(s) && JobsCount(s) && Enabled(s, step) && step.Enqueue?
    ensures TasksOnce(Apply(s, step)) && JobsCount(Apply(s, step))
  {
    var s' := Apply(s, step);
    forall task ensures Open(s'.pool, task) + Once(Done(s'.outcomes, task)) == Once(Known(s'.pool.jobs, task)) {
      EnqueueOpens(s.pool, step.load, step.id, step.total, step.callback, task);
      assert Open(s.pool, task) + Once(Done(s.outcomes, task)) == Once(Known(s.pool.jobs, task));
    }
  }

  lemma EnqueueKeeps(s: System, step: Step)
    requires Inv(s) && Enabled(s, step) && step.Enqueue?
    ensures Inv(Apply(s, step))
  {
    var s' := Apply(s, step);
    EnqueueTasks(s, step);
    assert Ids(s'.pool.jobs, s'.reports) == Ids(s.pool.jobs, s.reports);
  }

  /* ---- taking a task ---- */

  lemma PopMoves(p: Pool, k: nat, task: Task)
    requires CanPop(p, k)
    ensures Open(PopTask(p, k), task) == Open(p, task)
  {
    WorkerRuns(p.workers, k, PopTask(p, k).workers[k], task);
  }

  lemma PopCloses(p: Pool, k: nat, h: nat)
    requires CanPop(p, k)
    ensures BeingClosed(PopTask(p, k).workers, h) == BeingClosed(p.workers, h)
  {
    WorkerCloses(p.workers, k, PopTask(p, k).workers[k], h);
  }

  lemma OpenKnown(s: System, task: Task)
    requires TasksOnce(s) && Open(s.pool, task) > 0
    ensures Known(s.pool.jobs, task) && !Done(s.outcomes, task)
  {
    assert Open(s.pool, task) + Once(Done(s.outcomes, task)) == Once(Known(s.pool.jobs, task));
  }

  lemma PopKeeps(s: System, k: nat)
    requires Inv(s) && Enabled(s, Pop(k))
    ensures Inv(Apply(s, Pop(k)))
  {
    var s', next := Apply(s, Pop(k)), NextTask(s.pool, k);
    forall task ensures Open(s'.pool, task) == Open(s.pool, task) {
      PopMoves(s.pool, k, task);
    }
    forall h: nat ensures BeingClosed(s'.pool.workers, h) == BeingClosed(s.pool.workers, h) {
      PopCloses(s.pool, k, h);
    }
    QueueHolds(s.pool.loads, next);
    QueueHolds(s.pool.stores, next);
    OpenKnown(s, next);
  }

  /* ---- finishing a task ---- */

  lemma RunningIsOpen(s: System, k: nat)
    requires TasksOnce(s) && JobsCount(s) && CanFinish(s.pool, k)
    ensures var task := s.pool.workers[k].phase.task; var job := s.pool.jobs[task.job];
      && Known(s.pool.jobs, task) && !Done(s.outcomes, task) && job.completed < job.total
  {
    var task := s.pool.workers[k].phase.task;
    assert Runs(s.pool.workers[k], task);
    SomeWorkerRuns(s.pool.workers, task);
    OpenKnown(s, task);
    FewOutcomes(s.outcomes[task.job].Keys, s.pool.jobs[task.job].total, task.index);
  }

  /** The numbers below `n`. */
  function Numbers(n: nat): (r: set<nat>)
    ensures |r| == n && forall k: nat :: k in r <==> k < n
  {
    if n == 0 then {} else Numbers(n - 1) + {n - 1}
  }

  lemma {:induction false} Subset<T>(a: set<T>, b: set<T>)
    requires a <= b
    ensures |a| <= |b|
    ensures |a| == |b| ==> a == b
    decreases a
  {
    if a != {} {
      var x :| x in a;
      Subset(a - {x}, b - {x});
      assert b == (b - {x}) + {x};
      assert a == (a - {x}) + {x};
    }
  }

  lemma FewOutcomes(done: set<nat>, total: nat, i: nat)
    requires i < total && i !in done && (forall k :: k in done ==> k < total)
    ensures |done| < total
  {
    Subset(done + {i}, Numbers(total));
  }

  lemma FinishTasks(s: System, k: nat, ok: bool)
    requires TasksOnce(s) && JobsCount(s) && Enabled(s, Finish(k, ok))
    ensures TasksOnce(Apply(s, Finish(k, ok)))
  {
    var s', mine := Apply(s, Finish(k, ok)), s.pool.workers[k].phase.task;
    RunningIsOpen(s, k);
    forall task ensures Open(s'.pool, task) + Once(Done(s'.outcomes, task)) == Once(Known(s'.pool.jobs, task)) {
      WorkerRuns(s.pool.workers, k, s'.pool.workers[k], task);
      assert Runs(s.pool.workers[k], task) <==> task == mine;
      assert Open(s.pool, task) + Once(Done(s.outcomes, task)) == Once(Known(s.pool.jobs, task));
    }
  }

  lemma CountOutcome(job: Job, outcomes: map<nat, bool>, i: nat, ok: bool)
    requires JobCounts(job, outcomes) && i !in outcomes && i < job.total
    ensures JobCounts(Counted(job, ok), Recorded(outcomes, i, ok))
  {
    var after := Recorded(outcomes, i, ok);
    assert after.Keys == outcomes.Keys + {i};
    if AllOk(after) {
      forall k | k in outcomes ensures outcomes[k] {
        assert after[k];
      }
      assert after[i];
    }
  }

  lemma FinishCounts(s: System, k: nat, ok: bool)
    requires TasksOnce(s) && JobsCount(s) && Enabled(s, Finish(k, ok))
    ensures JobsCount(Apply(s, Finish(k, ok)))
  {
    var task := s.pool.workers[k].phase.task;
    RunningIsOpen(s, k);
    CountOutcome(s.pool.jobs[task.job], s.outcomes[task.job], task.index, ok);
  }

  lemma FinishCloses(s: System, k: nat, ok: bool)
    requires TasksOnce(s) && JobsCount(s) && ClosedOnce(s) && Enabled(s, Finish(k, ok))
    ensures ClosedOnce(Apply(s, Finish(k, ok)))
  {
    var s' := Apply(s, Finish(k, ok));
    RunningIsOpen(s, k);
    forall h: nat
      ensures BeingClosed(s'.pool.workers, h) + TimesReported(s'.reports, h) == Once(Complete(s'.pool.jobs, h))
    {
      WorkerCloses(s.pool.workers, k, s'.pool.workers[k], h);
      assert BeingClosed(s.pool.workers, h) + TimesReported(s.reports, h) == Once(Complete(s.pool.jobs, h));
    }
  }

  /** Changing a job that is not complete concerns no worker that closes one, and no report. */
  lemma OthersHold(jobs: seq<Job>, calls: seq<seq<Call>>, phase: Phase, h: nat, job: Job)
    requires |calls| == |jobs| && h < |jobs| && !Complete(jobs, h) && PhaseHolds(jobs, calls, phase)
    ensures PhaseHolds(jobs[h := job], calls, phase)
  {
  }

  lemma FinishCalls(s: System, k: nat, ok: bool)
    requires TasksOnce(s) && JobsCount(s) && CallsOnce(s) && Enabled(s, Finish(k, ok))
    ensures CallsOnce(Apply(s, Finish(k, ok)))
  {
    var s', h := Apply(s, Finish(k, ok)), s.pool.workers[k].phase.task.job;
    RunningIsOpen(s, k);
    forall j: nat | j < |s'.pool.workers| ensures PhaseHolds(s'.pool.jobs, s'.calls, s'.pool.workers[j].phase) {
      if j != k {
        OthersHold(s.pool.jobs, s.calls, s.pool.workers[j].phase, h, s'.pool.jobs[h]);
      }
    }
  }

  lemma FinishKeeps(s: System, k: nat, ok: bool)
    requires Inv(s) && Enabled(s, Finish(k, ok))
    ensures Inv(Apply(s, Finish(k, ok)))
  {
    var s' := Apply(s, Finish(k, ok));
    FinishTasks(s, k, ok);
    FinishCounts(s, k, ok);
    FinishCloses(s, k, ok);
    FinishCalls(s, k, ok);
    assert Ids(s'.pool.jobs, s'.reports) == Ids(s.pool.jobs, s.reports);
  }

  /* ---- closing a job ---- */

  /** The worker that closes a job is the only one to do so, and the job is not reported. */
  lemma ClosesAlone(s: System, k: nat, h: nat)
    requires ClosedOnce(s) && k < |s.pool.workers| && Closes(s.pool.workers[k], h)
    ensures forall j: nat :: j < |s.pool.workers| && j != k ==> !Closes(s.pool.workers[j], h)
    ensures forall r :: r in s.reports ==> r.job != h
    ensures Complete(s.pool.jobs, h)
  {
    var ws := s.pool.workers;
    var without := ws[k := ws[k].(phase := Idle)];
    WorkerCloses(ws, k, ws[k].(phase := Idle), h);
    SomeWorkerCloses(without, h);
    ReportsCounted(s.reports, h);
    assert BeingClosed(ws, h) + TimesReported(s.reports, h) == Once(Complete(s.pool.jobs, h));
    forall j: nat | j < |ws| && j != k ensures !Closes(ws[j], h) {
      assert without[j] == ws[j];
    }
  }

  lemma CallbackCalls(s: System, k: nat, raised: bool)
    requires ClosedOnce(s) && CallsOnce(s) && Enabled(s, Callback(k, raised))
    ensures CallsOnce(Apply(s, Callback(k, raised)))
  {
    var s', h := Apply(s, Callback(k, raised)), s.pool.workers[k].phase.job;
    ClosesAlone(s, k, h);
    forall j: nat | j < |s'.pool.workers| ensures PhaseHolds(s'.pool.jobs, s'.calls, s'.pool.workers[j].phase) {
      assert PhaseHolds(s.pool.jobs, s.calls, s.pool.workers[j].phase);
      assert j != k ==> !Closes(s.pool.workers[j], h);
    }
  }

  lemma CallbackKeeps(s: System, k: nat, raised: bool)
    requires Inv(s) && Enabled(s, Callback(k, raised))
    ensures Inv(Apply(s, Callback(k, raised)))
  {
    var s' := Apply(s, Callback(k, raised));
    CallbackCalls(s, k, raised);
    forall task ensures Open(s'.pool, task) == Open(s.pool, task) {
      WorkerRuns(s.pool.workers, k, s'.pool.workers[k], task);
    }
    forall h: nat ensures BeingClosed(s'.pool.workers, h) == BeingClosed(s.pool.workers, h) {
      WorkerCloses(s.pool.workers, k, s'.pool.workers[k], h);
    }
  }

  lemma DeliverCloses(s: System, k: nat)
    requires ClosedOnce(s) && Enabled(s, Deliver(k))
    ensures ClosedOnce(Apply(s, Deliver(k)))
  {
    var s' := Apply(s, Deliver(k));
    assert s'.reports[..|s.reports|] == s.reports;
    forall h: nat
      ensures BeingClosed(s'.pool.workers, h) + TimesReported(s'.reports, h) == Once(Complete(s'.pool.jobs, h))
    {
      WorkerCloses(s.pool.workers, k, s'.pool.workers[k], h);
      assert BeingClosed(s.pool.workers, h) + TimesReported(s.reports, h) == Once(Complete(s.pool.jobs, h));
    }
  }

  lemma DeliverKeeps(s: System, k: nat)
    requires Inv(s) && Enabled(s, Deliver(k))
    ensures Inv(Apply(s, Deliver(k)))
  {
    var s', phase := Apply(s, Deliver(k)), s.pool.workers[k].phase;
    DeliverCloses(s, k);
    assert PhaseHolds(s.pool.jobs, s.calls, phase);
    forall task ensures Open(s'.pool, task) == Open(s.pool, task) {
      WorkerRuns(s.pool.workers, k, s'.pool.workers[k], task);
    }
    assert CallsOnce(s');
    assert Ids(s'.pool.jobs, s'.reports) == Ids(s.pool.jobs, s.reports) + [(s.pool.jobs[phase.job].id, phase.success)];
  }

  /** The invariant holds after every step. */
  lemma StepKeeps(s: System, step: Step)
    requires Inv(s) && Enabled(s, step)
    ensures Inv(Apply(s, step))
  {
    match step
    case Enqueue(_, _, _, _) => EnqueueKeeps(s, step);
    case Pop(k) => PopKeeps(s, k);
    case Finish(k, ok) => FinishKeeps(s, k, ok);
    case Callback(k, raised) => CallbackKeeps(s, k, raised);
    case Deliver(k) => DeliverKeeps(s, k);
    case Drain =>
  }
}
