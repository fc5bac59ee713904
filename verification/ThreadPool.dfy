/** The worker pool: two task queues, a list of finished jobs, and a counter of jobs in flight. Each
    method is what one thread does while it holds a lock. */
module ThreadPools {
  import opened Wrappers
  import opened PoolProtocol

  /** Counts the finished tasks of one job. */
  class JobState {
    const id: nat
    const total: nat
    const callback: bool
    var completed: nat
    var success: bool

    ghost function Value(): Job
      reads this
    {
      Job(id, total, callback, completed, success)
    }

    constructor (id: nat, total: nat, callback: bool)
      ensures Value() == Job(id, total, callback, 0, true)
    {
      this.id, this.total, this.callback := id, total, callback;
      completed, success := 0, true;
    }

    method TaskDone(ok: bool) returns (finished: bool, good: bool)
      modifies this
      ensures Value() == Counted(old(Value()), ok)
      ensures finished == (old(completed) + 1 == total) && good == (old(success) && ok)
    {
      completed := completed + 1;
      if !ok {
        success := false;
      }
      finished := completed == total;
      good := success;
    }
  }

  class DualQueueThreadPool {
    var loads: seq<Task>
    var stores: seq<Task>
    var workers: seq<Worker>
    var jobs: seq<JobState>
    var finished: seq<(nat, bool)>
    var inflight: int

    ghost predicate Valid()
      reads this
    {
      forall i, j :: 0 <= i < j < |jobs| ==> jobs[i] != jobs[j]
    }

    ghost function State(): Pool
      reads this, jobs
    {
      Pool(loads, stores, workers, Values(jobs), finished, inflight)
    }

    constructor (readers: nat, writers: nat)
      ensures Valid() && |workers| == readers + writers
      ensures jobs == [] && State() == Pool([], [], workers, [], [], 0)
      ensures forall k :: 0 <= k < |workers| ==> workers[k] == Worker(k < readers, Idle)
    {
      loads, stores, jobs, finished, inflight := [], [], [], [], 0;
      workers := seq(readers + writers, k => Worker(k < readers, Idle));
    }

    /** Adds a job whose tasks are loads. It has no callback. */
    method EnqueueLoad(id: nat, total: nat)
      requires Valid()
      modifies this
      ensures Valid() && State() == EnqueueJob(old(State()), true, id, total, false)
      ensures jobs[..|jobs| - 1] == old(jobs) && fresh(jobs[|jobs| - 1])
    {
      var state := new JobState(id, total, false);
      inflight := inflight + 1;
      for i := 0 to total
        invariant loads == old(loads) + TasksOf(|jobs|, i)
        invariant jobs == old(jobs)
        invariant state.Value() == Job(id, total, false, 0, true)
        invariant State() == old(State()).(loads := loads, inflight := old(inflight) + 1)
      {
        loads := loads + [Task(|jobs|, i)];
        assert TasksOf(|jobs|, i + 1) == TasksOf(|jobs|, i) + [Task(|jobs|, i)];
      }
      AddJob(state);
    }

    /** Adds a job whose tasks are stores, with a callback to run when they are done. */
    method EnqueueStore(id: nat, total: nat, callback: bool)
      requires Valid()
      modifies this
      ensures Valid() && State() == EnqueueJob(old(State()), false, id, total, callback)
      ensures jobs[..|jobs| - 1] == old(jobs) && fresh(jobs[|jobs| - 1])
    {
      var state := new JobState(id, total, callback);
      inflight := inflight + 1;
      for i := 0 to total
        invariant stores == old(stores) + TasksOf(|jobs|, i)
        invariant jobs == old(jobs)
        invariant state.Value() == Job(id, total, callback, 0, true)
        invariant State() == old(State()).(stores := stores, inflight := old(inflight) + 1)
      {
        stores := stores + [Task(|jobs|, i)];
        assert TasksOf(|jobs|, i + 1) == TasksOf(|jobs|, i) + [Task(|jobs|, i)];
      }
      AddJob(state);
    }

    method AddJob(state: JobState)
      requires Valid() && state !in jobs
      modifies this`jobs
      ensures jobs == old(jobs) + [state] && Valid()
      ensures State() == old(State()).(jobs := old(State()).jobs + [state.Value()])
    {
      jobs := jobs + [state];
      assert Values(jobs) == old(Values(jobs)) + [state.Value()];
    }

    method SetPhase(k: nat, phase: Phase)
      requires k < |workers|
      modifies this`workers
      ensures State() == Set(old(State()), k, phase)
    {
      workers := workers[k := workers[k].(phase := phase)];
    }

    /** A waiting worker takes a task: of its own kind when there is one. */
    method Pop(k: nat)
      requires Valid() && CanPop(State(), k)
      modifies this`loads, this`stores, this`workers
      ensures State() == PopTask(old(State()), k)
    {
      var primary := if workers[k].loadPriority then loads else stores;
      var fromLoads := workers[k].loadPriority == (primary != []);
      if fromLoads {
        var task := loads[0];
        loads := loads[1..];
        SetPhase(k, Running(task));
      } else {
        var task := stores[0];
        stores := stores[1..];
        SetPhase(k, Running(task));
      }
    }

    /** A worker's task has ended: the job counts it, and its last task leaves the job to this worker. */
    method Finish(k: nat, ok: bool)
      requires Valid() && CanFinish(State(), k)
      modifies this`workers, jobs
      ensures Valid() && State() == FinishTask(old(State()), k, ok)
    {
      var h := workers[k].phase.task.job;
      var state := jobs[h];
      var done, good := state.TaskDone(ok);
      assert Values(jobs) == old(Values(jobs))[h := state.Value()];
      SetPhase(k, if !done then Idle else if state.callback then CallingBack(h, good) else Reporting(h, good));
    }

    /** The callback has returned, or raised. */
    method CalledBack(k: nat, raised: bool)
      requires Valid() && CanCall(State(), k)
      modifies this`workers
      ensures State() == CallBack(old(State()), k, raised)
    {
      var phase := workers[k].phase;
      SetPhase(k, Reporting(phase.job, phase.success && !raised));
    }

    method Report(k: nat)
      requires Valid() && CanReport(State(), k)
      modifies this`workers, this`finished, this`inflight
      ensures State() == ReportJob(old(State()), k)
    {
      var phase := workers[k].phase;
      finished := finished + [(jobs[phase.job].id, phase.success)];
      inflight := inflight - 1;
      SetPhase(k, Idle);
    }

    /** Hands over the finished jobs, oldest first. */
    method GetFinished() returns (done: seq<(nat, bool)>)
      modifies this`finished
      ensures done == old(finished) && State() == old(State()).(finished := [])
    {
      done := [];
      while finished != []
        invariant done + finished == old(finished)
        decreases |finished|
      {
        done := done + [finished[0]];
        finished := finished[1..];
      }
    }
  }

  ghost function Values(jobs: seq<JobState>): seq<Job>
    reads jobs
  {
    seq(|jobs|, i requires 0 <= i < |jobs| reads jobs => jobs[i].Value())
  }
}
