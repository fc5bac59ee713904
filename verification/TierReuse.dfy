/** When a load that is reported successful has the right bytes: the exact condition. */
module TierReuse {
  import opened Basics
  import opened Wrappers
  import opened SegmentFiles
  import opened SegmentAllocation
  import opened SegmentModel
  import opened LoadTasks
  import opened TierProtocol
  import opened TierSteps
  import opened TierRuns
  import SegmentAccounting
  import StoreReuse
  import StoreRoundTrip
  import PoolRuns
  import S = StoreProtocol
  import P = PoolProtocol

  /** No job is in flight, and every report has been handed over. */
  ghost predicate Quiet(t: Tier) {
    t.pool.pool.inflight == 0 && forall h: nat :: h < |t.work| ==> !Active(t.pool, h)
  }

  /** If the load is reported successful, its row has the bytes that its key had when it was submitted. */
  ghost predicate FillsWell(t: Tier, submit: Step, after: seq<Step>)
    requires t.store.g.Valid() && submit.SubmitLoad? && |submit.keys| == 1 && |submit.blocks| == 1 && Enabled(t, submit)
  {
    CanRun(Apply(t, submit), after) ==>
      var u := After(Apply(t, submit), after);
      Succeeded(u, |t.work|) && Active(u.pool, |t.work|) ==>
        submit.blocks[0] < |u.rows| && BytesOf(t, submit.keys[0]) == Some(u.rows[submit.blocks[0]])
  }

  /* ---- the condition is enough ---- */

  lemma SuccessMeansFits(t: Tier, h: nat, e: LoadEntry)
    requires Inv(t) && Succeeded(t, h) && Active(t.pool, h) && h < |t.work| && t.work[h].Loading?
    requires InSome(t.work[h].tasks, e)
    ensures Fits(e, t.store.g.block)
  {
    assert JobHolds(t, h);
    assert JobMatches(t.pool.pool.jobs[h], t.work[h]);
    AllTasksOk(t.pool, h);
    var i: nat :| i < |t.work[h].tasks| && e in t.work[h].tasks[i];
    assert i in t.pool.outcomes[h] && t.pool.outcomes[h][i];
    assert TaskGot(t.work[h], i);
  }

  /** A load of a location of another size is never reported successful. */
  lemma OtherSizeFails(t: Tier, submit: Step, after: seq<Step>)
    requires Inv(t) && submit.SubmitLoad? && |submit.keys| == 1 && |submit.blocks| == 1 && Enabled(t, submit)
    requires submit.keys[0] in t.store.store.index && t.store.store.index[submit.keys[0]].length != t.store.g.block
    ensures FillsWell(t, submit, after)
  {
    var t1, h := Apply(t, submit), |t.work|;
    if CanRun(t1, after) && Succeeded(After(t1, after), h) && Active(After(t1, after).pool, h) {
      var e := EntryOfKey(t, submit.keys, submit.blocks, 0);
      LoadIsSubmitted(t, submit);
      JobAfter(t1, after, h);
      SuccessMeansFits(After(t1, after), h, e);
    }
  }

  /* ---- without it there is a run that fails ---- */

  /** The job of handle `h` is a load of one entry, and not reported yet. */
  ghost predicate OneLoad(t: Tier, h: nat, e: LoadEntry) {
    && h < |t.work| == |t.removed| == |t.lost| == |t.pool.pool.jobs| == |t.pool.calls| == |t.pool.outcomes|
    && t.work[h].Loading? && t.work[h].tasks == [[e]] && e.block < |t.rows|
    && t.pool.pool.jobs[h].total == 1 && t.pool.pool.jobs[h].completed == 0
    && t.pool.pool.jobs[h].success && !t.pool.pool.jobs[h].callback
    && |t.pool.delivered| <= |t.pool.reports| && |t.pool.pool.workers| >= 2
    && forall r :: r in t.pool.reports ==> r.job != h
  }

  /** Worker 0 runs it, and worker 1 is free for stores. */
  ghost predicate Reading(t: Tier, h: nat, e: LoadEntry) {
    && OneLoad(t, h, e) && t.store.g.Valid() && t.pool.pool.loads == []
    && t.pool.pool.workers[0].phase == P.Running(P.Task(h, 0))
  }

  ghost predicate OthersInactive(t: Tier, h: nat) {
    forall j: nat :: j < |t.work| && j != h ==> !Active(t.pool, j)
  }

  lemma QuietPool(t: Tier)
    requires Inv(t) && Quiet(t)
    ensures t.pool.pool.loads == [] && t.pool.pool.stores == []
    ensures forall w :: w in t.pool.pool.workers ==> w.phase.Idle?
    ensures |t.pool.delivered| <= |t.pool.reports| && forall r :: r in t.pool.reports ==> r.job < |t.work|
  {
    PoolRuns.ZeroMeansIdle(t.pool);
    DeliveredBelow(t.pool);
  }

  function EntryFor(key: Key, b: nat, at: Location): LoadEntry {
    LoadEntry(key, b, InSegment(at))
  }

  lemma OneKeyWork(t: Tier, key: Key, b: nat)
    requires S.Inv(t.store) && key in t.store.store.index
    ensures LoadWork(t, [key], [b]).tasks == [[EntryFor(key, b, t.store.store.index[key])]]
  {
    var found := Locations(t.store.store, [key]);
    assert [key][..1] == [key] && [b][..1] == [b] && [key][..0] == [] && [b][..0] == [] && found[..0] == [];
    assert found == [Some(t.store.store.index[key])];
    assert Split([key][..0], [b][..0], found[..0]) == ([], []);
  }

  lemma StaysInactive(t: Tier, u: Tier)
    requires Matches(t) && (forall h: nat :: h < |t.work| ==> !Active(t.pool, h))
    requires |u.work| == |t.work| + 1 && u.pool.delivered == t.pool.delivered && u.pool.reports == t.pool.reports
    ensures OthersInactive(u, |t.work|)
  {
    forall j: nat | j < |t.work| ensures !Active(u.pool, j) {
      assert !Active(t.pool, j);
    }
  }

  /** What the submission of a load does to the parts of the tier. */
  lemma LoadParts(t: Tier, submit: Step)
    requires t.store.g.Valid() && submit.SubmitLoad? && Enabled(t, submit)
    requires TaskCount(LoadWork(t, submit.keys, submit.blocks)) == 1
    ensures var t1 := Apply(t, submit);
      && t1.store == S.Apply(t.store, S.LookUp(submit.keys)) && t1.store.g == t.store.g
      && t1.pool == P.Apply(t.pool, P.Enqueue(true, submit.id, 1, false))
  {
  }

  /** The load is submitted. */
  lemma LoadJoins(t: Tier, id: nat, key: Key, b: nat, t1: Tier)
    requires Inv(t) && Quiet(t) && |t.pool.pool.workers| >= 2 && key in t.store.store.index
    requires Enabled(t, SubmitLoad(id, [key], [b])) && t1 == Apply(t, SubmitLoad(id, [key], [b]))
    ensures OneLoad(t1, |t.work|, EntryFor(key, b, t.store.store.index[key]))
  {
    QuietPool(t);
    OneKeyWork(t, key, b);
    LoadEnqueued(t.pool, id);
    RowExists(t, id, key, b);
    LoadParts(t, SubmitLoad(id, [key], [b]));
    LoadSubmitted(t, SubmitLoad(id, [key], [b]));
    JoinIsOneLoad(t, t1, EntryFor(key, b, t.store.store.index[key]), id);
  }

  lemma LoadWaits(t: Tier, id: nat, key: Key, b: nat, t1: Tier)
    requires Inv(t) && Quiet(t) && |t.pool.pool.workers| >= 2 && key in t.store.store.index
    requires Enabled(t, SubmitLoad(id, [key], [b])) && t1 == Apply(t, SubmitLoad(id, [key], [b]))
    ensures Waiting(t.pool, t1.pool)
    ensures t1.store == S.Apply(t.store, S.LookUp([key])) && t1.store.g.Valid() && t1.rows == t.rows
  {
    QuietPool(t);
    OneKeyWork(t, key, b);
    LoadEnqueued(t.pool, id);
    LoadParts(t, SubmitLoad(id, [key], [b]));
    LoadSubmitted(t, SubmitLoad(id, [key], [b]));
  }

  /** The one task of a new load is all that waits. */
  ghost predicate Waiting(p: P.System, p': P.System) {
    && p'.pool.loads == [P.Task(|p.pool.jobs|, 0)] && p'.pool.stores == []
    && |p'.pool.workers| >= 2 && p'.pool.workers[0].phase.Idle? && p'.pool.workers[1].phase.Idle?
    && p'.delivered == p.delivered && p'.reports == p.reports
  }

  lemma RowExists(t: Tier, id: nat, key: Key, b: nat)
    requires t.store.g.Valid() && Enabled(t, SubmitLoad(id, [key], [b]))
    ensures b < |t.rows|
  {
    assert [b][..Pairs([key], [b])] == [b];
    assert b in [b][..Pairs([key], [b])];
  }

  lemma JoinIsOneLoad(t: Tier, t1: Tier, e: LoadEntry, id: nat)
    requires |t.work| == |t.removed| == |t.lost| == |t.pool.pool.jobs| == |t.pool.calls| == |t.pool.outcomes|
    requires |t1.work| == |t.work| + 1 && t1.work[|t.work|].Loading? && t1.work[|t.work|].tasks == [[e]]
    requires t1.removed == t.removed + [{}] && |t1.lost| == |t.lost| + 1
    requires t1.rows == t.rows && e.block < |t.rows|
    requires t1.pool.pool.jobs == t.pool.pool.jobs + [P.Job(id, 1, false, 0, true)]
    requires |t1.pool.calls| == |t.pool.calls| + 1 && |t1.pool.outcomes| == |t.pool.outcomes| + 1
    requires t1.pool.reports == t.pool.reports && t1.pool.delivered == t.pool.delivered && t1.pool.pool.workers == t.pool.pool.workers
    requires |t.pool.delivered| <= |t.pool.reports| && (forall r :: r in t.pool.reports ==> r.job < |t.work|)
    requires |t.pool.pool.workers| >= 2
    ensures OneLoad(t1, |t.work|, e)
  {
  }

  lemma LoadEnqueued(p: P.System, id: nat)
    requires p.pool.loads == [] && p.pool.stores == []
    ensures var p' := P.Apply(p, P.Enqueue(true, id, 1, false));
      && p'.pool.loads == [P.Task(|p.pool.jobs|, 0)] && p'.pool.stores == [] && p'.pool.workers == p.pool.workers
      && p'.pool.jobs == p.pool.jobs + [P.Job(id, 1, false, 0, true)]
      && p'.outcomes == p.outcomes + [map[]] && p'.calls == p.calls + [[]]
      && p'.reports == p.reports && p'.delivered == p.delivered
  {
    assert P.TasksOf(|p.pool.jobs|, 1) == [P.Task(|p.pool.jobs|, 0)];
  }

  /** ... and worker 0 takes it. */
  lemma Taken(t: Tier, h: nat, e: LoadEntry)
    requires OneLoad(t, h, e) && t.store.g.Valid() && t.pool.pool.loads == [P.Task(h, 0)] && t.pool.pool.stores == []
    requires t.pool.pool.workers[0].phase.Idle? && t.pool.pool.workers[1].phase.Idle?
    ensures Enabled(t, Take(0))
    ensures var u := Apply(t, Take(0));
      && Reading(u, h, e) && u.pool.pool.stores == [] && u.pool.pool.workers[1].phase.Idle?
      && u.store == t.store && u.rows == t.rows && u.work == t.work
      && u.pool.delivered == t.pool.delivered && u.pool.reports == t.pool.reports
  {
  }

  lemma LookedUp(s: S.System, keys: seq<Key>)
    requires S.Inv(s)
    ensures var s' := S.Apply(s, S.LookUp(keys));
      && S.Inv(s') && s'.g == s.g && s'.plans == s.plans
      && s'.store.meta == s.store.meta && s'.store.files == s.store.files && s'.store.index == s.store.index
  {
    S.StepKeeps(s, S.LookUp(keys));
  }

  lemma Loaded(t: Tier, id: nat, key: Key, b: nat) returns (u: Tier)
    requires Inv(t) && Quiet(t) && |t.pool.pool.workers| >= 2 && key in t.store.store.index
    requires Enabled(t, SubmitLoad(id, [key], [b]))
    ensures CanReach(Apply(t, SubmitLoad(id, [key], [b])), u)
    ensures Reading(u, |t.work|, EntryFor(key, b, t.store.store.index[key])) && OthersInactive(u, |t.work|)
    ensures u.pool.pool.stores == [] && u.pool.pool.workers[1].phase.Idle? && u.rows == t.rows
    ensures S.Inv(u.store) && u.store.g == t.store.g && |u.work| !in u.store.plans
    ensures u.store.store.meta == t.store.store.meta && u.store.store.files == t.store.store.files
  {
    LookedUp(t.store, [key]);
    assert |t.work| + 1 !in t.store.plans;
    var t1 := Apply(t, SubmitLoad(id, [key], [b]));
    LoadJoins(t, id, key, b, t1);
    LoadWaits(t, id, key, b, t1);
    Taken(t1, |t.work|, EntryFor(key, b, t.store.store.index[key]));
    Starts(t1);
    Further(t1, t1, Take(0));
    u := Apply(t1, Take(0));
    StaysInactive(t, u);
  }

  lemma OneFill(e: LoadEntry, row: nat, w: Work)
    requires w.Loading? && w.tasks == [[e]] && row != e.block
    ensures !Fills(w, row)
  {
    forall x | InSome(w.tasks, x) ensures x == e {
      var i: nat :| i < |w.tasks| && x in w.tasks[i];
    }
  }

  /** The engine writes a row that the load does not fill. */
  lemma EngineWrites(t: Tier, h: nat, e: LoadEntry, row: nat, data: Bytes)
    requires Reading(t, h, e) && OthersInactive(t, h) && row < |t.rows| && row != e.block && |data| == t.store.g.block
    ensures Enabled(t, Engine(row, data))
    ensures var u := Apply(t, Engine(row, data));
      && Reading(u, h, e) && OthersInactive(u, h)
      && u.store == t.store && u.pool == t.pool && u.work == t.work && u.rows == t.rows[row := data]
  {
    OneFill(e, row, t.work[h]);
  }

  /** Every row of the table is deleted. */
  lemma Deletes(t: Tier, h: nat, e: LoadEntry, keys: set<Key>)
    requires Reading(t, h, e) && OthersInactive(t, h)
    ensures Enabled(t, Delete(keys, {}))
    ensures var u := Apply(t, Delete(keys, {}));
      && Reading(u, h, e) && OthersInactive(u, h)
      && u.store == S.Apply(t.store, S.Remove(keys)) && u.pool == t.pool && u.work == t.work && u.rows == t.rows
  {
  }

  ghost function ManyStep(id: nat, n: nat, row: nat): Step {
    SubmitStore(id, StoreReuse.ManyKeys(n + 1), StoreReuse.Rows(n + 1, row))
  }

  /** A store with as many keys as it takes is submitted. */
  lemma ManyEnabled(t: Tier, h: nat, e: LoadEntry, n: nat, row: nat)
    requires Reading(t, h, e) && OthersInactive(t, h) && row < |t.rows| && row != e.block && |t.rows[row]| == t.store.g.block
    requires |t.work| !in t.store.plans
    ensures Enabled(t, ManyStep(0, n, row))
  {
    OneFill(e, row, t.work[h]);
    var blocks := StoreReuse.Rows(n + 1, row);
    assert forall b :: b in blocks ==> b == row;
  }

  /** Worker 1 has the tasks of one store to do, from the `m`-th on. */
  ghost predicate Storing1(t: Tier, job: nat, m: nat) {
    && job < |t.pool.pool.jobs| && job < |t.pool.outcomes| && job < |t.work| && t.work[job].Storing?
    && var total := t.pool.pool.jobs[job].total;
    && m < total && t.pool.pool.jobs[job].completed == m
    && t.pool.pool.stores == P.TasksOf(job, total)[m..]
    && |t.pool.pool.workers| >= 2 && t.pool.pool.workers[1].phase.Idle?
  }

  lemma ManySubmitted(t: Tier, h: nat, e: LoadEntry, n: nat, row: nat, u: Tier)
    requires Reading(t, h, e) && t.pool.pool.stores == [] && t.pool.pool.workers[1].phase.Idle?
    requires Enabled(t, ManyStep(0, n, row)) && u == Apply(t, ManyStep(0, n, row))
    ensures Reading(u, h, e) && Storing1(u, |t.work|, 0) && u.rows == t.rows
    ensures u.store == S.Apply(t.store, StoreReuse.PrepareMany(|t.work|, n, row, t.rows))
    ensures |t.work| in u.store.plans && u.work[|t.work|].plan == u.store.plans[|t.work|].writes
    ensures u.work[|t.work|].groups == StoreRoundTrip.GroupWrites(u.work[|t.work|].plan)
    ensures u.pool.pool.jobs[|t.work|].total == TaskCount(u.work[|t.work|])
  {
  }

  /** Worker 1 takes the store's next task. */
  lemma StoreTaken(t: Tier, h: nat, e: LoadEntry, job: nat, m: nat)
    requires Reading(t, h, e) && Storing1(t, job, m)
    ensures Enabled(t, Take(1))
    ensures var u := Apply(t, Take(1));
      && Reading(u, h, e) && u == t.(pool := u.pool) && u.pool.pool.workers[1].phase == P.Running(P.Task(job, m))
      && u.pool.pool.jobs == t.pool.pool.jobs && u.pool.outcomes == t.pool.outcomes
      && u.pool.pool.stores == P.TasksOf(job, t.pool.pool.jobs[job].total)[m + 1..]
  {
    var total := t.pool.pool.jobs[job].total;
    assert P.TasksOf(job, total)[m..][0] == P.Task(job, m);
    assert P.TasksOf(job, total)[m..][1..] == P.TasksOf(job, total)[m + 1..];
  }

  /** Worker 1 gives up the store's next task, which is not its last. */
  lemma StoreSkipped(t: Tier, h: nat, e: LoadEntry, job: nat, m: nat)
    requires Reading(t, h, e) && Storing1(t, job, m) && job != h && m + 1 < t.pool.pool.jobs[job].total
    ensures Enabled(t, Take(1)) && Enabled(Apply(t, Take(1)), EndTask(1, false))
    ensures var u := Apply(Apply(t, Take(1)), EndTask(1, false));
      && Reading(u, h, e) && Storing1(u, job, m + 1) && u == t.(pool := u.pool)
      && u.pool.pool.jobs[job].total == t.pool.pool.jobs[job].total
  {
    StoreTaken(t, h, e, job, m);
  }

  lemma {:induction false} StoreReaches(t0: Tier, t: Tier, h: nat, e: LoadEntry, job: nat, m: nat, i: nat) returns (u: Tier)
    requires CanReach(t0, t) && Reading(t, h, e) && Storing1(t, job, m) && job != h && m <= i < t.pool.pool.jobs[job].total
    ensures CanReach(t0, u) && Reading(u, h, e) && Storing1(u, job, i) && u == t.(pool := u.pool)
    decreases i - m
  {
    if m == i {
      u := t;
    } else {
      StoreSkipped(t, h, e, job, m);
      Further(t0, t, Take(1));
      Further(t0, Apply(t, Take(1)), EndTask(1, false));
      u := StoreReaches(t0, Apply(Apply(t, Take(1)), EndTask(1, false)), h, e, job, m + 1, i);
    }
  }

  /** The task writes its entry over the location. */
  lemma EntryWritten(t: Tier, h: nat, e: LoadEntry, job: nat, i: nat, j: nat, data: Bytes)
    requires Reading(t, h, e) && job < |t.work| && t.work[job].Storing?
    requires t.pool.pool.workers[1].phase == P.Running(P.Task(job, i))
    requires i < |t.work[job].groups| && j < |t.work[job].plan| && t.work[job].plan[j] in t.work[job].groups[i]
    requires S.Enabled(t.store, S.WritePart(job, j, |data|))
    ensures Enabled(t, WriteSome(1, j, |data|))
    ensures var u := Apply(t, WriteSome(1, j, |data|));
      && Reading(u, h, e) && u.store == S.Apply(t.store, S.WritePart(job, j, |data|)) && u.rows == t.rows && u.pool == t.pool
  {
  }

  /** Worker 0 reads the row, ends its task, and reports success. */
  lemma RowRead(t: Tier, h: nat, e: LoadEntry, at: Location)
    requires Reading(t, h, e) && e.place == InSegment(at) && at.length == t.store.g.block && Readable(t.store.store.files, at)
    ensures Enabled(t, ReadRow(0, e))
    ensures var u := Apply(t, ReadRow(0, e));
      && Reading(u, h, e) && |u.rows| == |t.rows| && u.rows[e.block] == BytesAt(t.store.store.files, at)
      && e.block in u.work[h].got
  {
    assert e in [e];
  }

  lemma ReadReported(t: Tier, h: nat, e: LoadEntry)
    requires Reading(t, h, e) && e.block in t.work[h].got
    ensures Enabled(t, EndTask(0, true)) && Enabled(Apply(t, EndTask(0, true)), Report(0))
    ensures var u := Apply(Apply(t, EndTask(0, true)), Report(0));
      u.rows == t.rows && Succeeded(u, h) && Active(u.pool, h)
  {
    var u := Apply(Apply(t, EndTask(0, true)), Report(0));
    assert u.pool.reports == t.pool.reports + [P.Report(h, true)];
  }

  /** A store job with a write that is about to go over the location that the load is to read. */
  ghost predicate Poised(t: Tier, h: nat, e: LoadEntry, at: Location, job: nat, j: nat, was: Bytes) {
    && Reading(t, h, e) && e.place == InSegment(at) && at.length == t.store.g.block
    && Holds(t.store.store.files, at, was)
    && Storing1(t, job, 0) && job != h && t.work[job].groups == StoreRoundTrip.GroupWrites(t.work[job].plan)
    && t.pool.pool.jobs[job].total == TaskCount(t.work[job])
    && S.Owns(t.store, job, j) && t.work[job].plan == t.store.plans[job].writes
    && S.DataOf(t.store, job, j) == StoreReuse.Block(StoreReuse.Other(was[0]), t.store.g.block)
    && Over(S.SlotOf(t.store, job, j), at)
  }

  predicate Over(slot: Location, at: Location) {
    slot.segment == at.segment && slot.offset <= at.offset < slot.offset + slot.length
  }

  lemma WriteFirst(t0: Tier, t: Tier, h: nat, e: LoadEntry, at: Location, job: nat, j: nat, was: Bytes) returns (u: Tier)
    requires CanReach(t0, t) && Poised(t, h, e, at, job, j, was)
    ensures CanReach(t0, u) && Reading(u, h, e) && Readable(u.store.store.files, at)
    ensures BytesAt(u.store.store.files, at) != was && u.store.g == t.store.g
  {
    var data, w := S.DataOf(t.store, job, j), t.work[job].plan[j];
    GroupsCoverPlan(t.work[job].plan, w);
    var i: nat :| i < |t.work[job].groups| && w in t.work[job].groups[i];
    var v := StoreReaches(t0, t, h, e, job, 0, i);
    StoreTaken(v, h, e, job, i);
    Further(t0, v, Take(1));
    var x := Apply(v, Take(1));
    StoreReuse.Overwritten(x.store, job, j, data, at);
    EntryWritten(x, h, e, job, i, j, data);
    Further(t0, x, WriteSome(1, j, |data|));
    u := Apply(x, WriteSome(1, j, |data|));
  }

  lemma ReadThen(t0: Tier, t: Tier, h: nat, e: LoadEntry, at: Location) returns (u: Tier)
    requires CanReach(t0, t) && Reading(t, h, e)
    requires e.place == InSegment(at) && at.length == t.store.g.block && Readable(t.store.store.files, at)
    ensures CanReach(t0, u) && Succeeded(u, h) && Active(u.pool, h)
    ensures e.block < |u.rows| && u.rows[e.block] == BytesAt(t.store.store.files, at)
  {
    RowRead(t, h, e, at);
    Further(t0, t, ReadRow(0, e));
    var v := Apply(t, ReadRow(0, e));
    ReadReported(v, h, e);
    Further(t0, v, EndTask(0, true));
    Further(t0, Apply(v, EndTask(0, true)), Report(0));
    u := Apply(Apply(v, EndTask(0, true)), Report(0));
  }

  /** From a load in flight, in a store without marks, to a job that is about to write over its location. */
  lemma JobPoised(t0: Tier, t: Tier, h: nat, e: LoadEntry, at: Location, row: nat, per: nat) returns (u: Tier, job: nat, j: nat)
    requires CanReach(t0, t) && Reading(t, h, e) && OthersInactive(t, h)
    requires t.pool.pool.stores == [] && t.pool.pool.workers[1].phase.Idle? && |t.work| !in t.store.plans
    requires StoreReuse.Bare(t.store) && 0 < per && t.store.g.segment == per * t.store.g.block
    requires e.place == InSegment(at) && at.length == t.store.g.block && at.offset < t.store.g.segment && Readable(t.store.store.files, at)
    requires row < |t.rows| && row != e.block
    requires t.rows[row] == StoreReuse.Block(StoreReuse.Other(BytesAt(t.store.store.files, at)[0]), t.store.g.block)
    ensures CanReach(t0, u) && Poised(u, h, e, at, job, j, BytesAt(t.store.store.files, at))
  {
    var n := StoreReuse.NumberAt(at, t.store.g, per);
    job := |t.work|;
    StoreReuse.SlotHoldsByte(at, t.store.g, per);
    ManyEnabled(t, h, e, n, row);
    j := StoreReuse.PreparedMany(t.store, per, job, n, row, t.rows);
    Further(t0, t, ManyStep(0, n, row));
    u := Apply(t, ManyStep(0, n, row));
    ManySubmitted(t, h, e, n, row, u);
  }

  /** The engine fills the spare row, and then all rows of the table are deleted. */
  lemma Bared(t0: Tier, t: Tier, h: nat, e: LoadEntry, row: nat, data: Bytes) returns (u: Tier)
    requires CanReach(t0, t) && Reading(t, h, e) && OthersInactive(t, h) && S.Inv(t.store)
    requires row < |t.rows| && row != e.block && |data| == t.store.g.block
    requires !Marked(t.store.store.meta) && StoreReuse.RowsTogether(t.store.store.meta)
    ensures CanReach(t0, u) && Reading(u, h, e) && OthersInactive(u, h) && StoreReuse.Bare(u.store)
    ensures u.pool == t.pool && u.work == t.work && u.rows == t.rows[row := data]
    ensures u.store.g == t.store.g && u.store.plans == t.store.plans && u.store.store.files == t.store.store.files
  {
    var keys := t.store.store.index.Keys;
    EngineWrites(t, h, e, row, data);
    Further(t0, t, Engine(row, data));
    var x := Apply(t, Engine(row, data));
    Deletes(x, h, e, keys);
    Further(t0, x, Delete(keys, {}));
    u := Apply(x, Delete(keys, {}));
    StoreReuse.RemoveAll(t.store);
  }

  /** From the submission of the load to that point. */
  lemma LoadBared(t: Tier, id: nat, key: Key, b: nat, row: nat, data: Bytes) returns (u: Tier)
    requires Inv(t) && Quiet(t) && |t.pool.pool.workers| >= 2 && key in t.store.store.index
    requires Enabled(t, SubmitLoad(id, [key], [b])) && row < |t.rows| && row != b && |data| == t.store.g.block
    requires !Marked(t.store.store.meta) && StoreReuse.RowsTogether(t.store.store.meta)
    ensures CanReach(Apply(t, SubmitLoad(id, [key], [b])), u)
    ensures Reading(u, |t.work|, EntryFor(key, b, t.store.store.index[key])) && OthersInactive(u, |t.work|)
    ensures u.pool.pool.stores == [] && u.pool.pool.workers[1].phase.Idle? && |u.work| !in u.store.plans
    ensures StoreReuse.Bare(u.store) && u.store.g == t.store.g && u.store.store.files == t.store.store.files
    ensures |u.rows| == |t.rows| && u.rows[row] == data
  {
    var t0, h, e := Apply(t, SubmitLoad(id, [key], [b])), |t.work|, EntryFor(key, b, t.store.store.index[key]);
    var v := Loaded(t, id, key, b);
    u := Bared(t0, v, h, e, row, data);
  }

  lemma WrongBytes(t: Tier, id: nat, key: Key, b: nat, row: nat, per: nat) returns (u: Tier)
    requires Inv(t) && Quiet(t) && |t.pool.pool.workers| >= 2 && key in t.store.store.index
    requires Enabled(t, SubmitLoad(id, [key], [b])) && row < |t.rows| && row != b
    requires StoreReuse.RowsTogether(t.store.store.meta) && 0 < per && t.store.g.segment == per * t.store.g.block
    requires var at := t.store.store.index[key]; !StoreReuse.WillLast(t.store, at) && at.length == t.store.g.block
    ensures CanReach(Apply(t, SubmitLoad(id, [key], [b])), u) && Succeeded(u, |t.work|) && Active(u.pool, |t.work|)
    ensures b < |u.rows| && BytesOf(t, key).Some? && BytesOf(t, key) != Some(u.rows[b])
  {
    var t0, h, at := Apply(t, SubmitLoad(id, [key], [b])), |t.work|, t.store.store.index[key];
    var e := EntryFor(key, b, at);
    assert at in t.store.sealed;
    var was := BytesAt(t.store.store.files, at);
    var v := LoadBared(t, id, key, b, row, StoreReuse.Block(StoreReuse.Other(was[0]), t.store.g.block));
    var x, job, j := JobPoised(t0, v, h, e, at, row, per);
    var y := WriteFirst(t0, x, h, e, at, job, j, was);
    u := ReadThen(t0, y, h, e, at);
  }

  /** In a quiet tier with two workers and a spare row: a load of an indexed key is right in every run in
      which it is reported successful, if and only if the metadata says where allocation goes on, or the
      key's location is above the segment size, or is not of the block size (and every such load fails). */
  lemma LoadsFilledExactly(t: Tier, id: nat, key: Key, b: nat, row: nat, per: nat)
    requires Inv(t) && Quiet(t) && |t.pool.pool.workers| >= 2 && key in t.store.store.index
    requires Enabled(t, SubmitLoad(id, [key], [b])) && row < |t.rows| && row != b
    requires StoreReuse.RowsTogether(t.store.store.meta) && 0 < per && t.store.g.segment == per * t.store.g.block
    ensures var at := t.store.store.index[key];
      (forall after :: FillsWell(t, SubmitLoad(id, [key], [b]), after))
      <==> Marked(t.store.store.meta) || t.store.g.segment <= at.offset || at.length != t.store.g.block
  {
    var submit, at := SubmitLoad(id, [key], [b]), t.store.store.index[key];
    if at.length != t.store.g.block {
      forall after ensures FillsWell(t, submit, after) {
        OtherSizeFails(t, submit, after);
      }
    } else if StoreReuse.WillLast(t.store, at) {
      forall after ensures FillsWell(t, submit, after) {
        SafeFills(t, submit, after);
      }
    } else {
      var u := WrongBytes(t, id, key, b, row, per);
      var after :| CanRun(Apply(t, submit), after) && After(Apply(t, submit), after) == u;
      assert !FillsWell(t, submit, after);
    }
  }

  lemma SafeFills(t: Tier, submit: Step, after: seq<Step>)
    requires Inv(t) && submit.SubmitLoad? && |submit.keys| == 1 && |submit.blocks| == 1 && Enabled(t, submit)
    requires Safe(t, submit.keys[0])
    ensures FillsWell(t, submit, after)
  {
    if CanRun(Apply(t, submit), after) {
      var u := After(Apply(t, submit), after);
      if Succeeded(u, |t.work|) && Active(u.pool, |t.work|) {
        SafeLoad(t, submit, after, 0);
      }
    }
  }
}
