/** Every step of the tier keeps its invariant. */
module TierSteps {
  import opened Basics
  import opened Wrappers
  import opened SegmentFiles
  import opened SegmentAllocation
  import opened SegmentModel
  import opened LoadTasks
  import opened TierProtocol
  import StoreRoundTrip
  import StoreRuns
  import PoolRuns
  import S = StoreProtocol
  import P = PoolProtocol

  /* ---- what a step may change without touching a job ---- */

  /** Once the store has shard rows, its sealed locations stay sealed. */
  ghost predicate SealsStay(s: S.System, s': S.System) {
    HasShards(s.store.meta) ==>
      && HasShards(s'.store.meta)
      && forall at :: at in s.sealed ==> at in s'.sealed && s'.sealed[at] == s.sealed[at]
  }

  /** A job's locations that have not kept their bytes are lost. */
  ghost predicate LostGrows(t: Tier, t': Tier, h: nat) {
    && h < |t.work| && h < |t.lost| && h < |t'.lost| && t.lost[h] <= t'.lost[h]
    && (t.work[h].Loading? ==>
          forall at :: at in t.work[h].sealed && at !in t'.lost[h] && Holds(t.store.store.files, at, t.work[h].sealed[at]) ==>
            Holds(t'.store.store.files, at, t.work[h].sealed[at]))
  }

  ghost predicate SealsMove(t: Tier, t': Tier) {
    SealsStay(t.store, t'.store) && forall h: nat :: h < |t.work| ==> LostGrows(t, t', h)
  }

  ghost predicate FilesShrink(t: Tier, t': Tier) {
    forall key :: key in t'.files ==> key in t.files && t'.files[key] == t.files[key]
  }

  ghost predicate SameJob(t: Tier, t': Tier, h: nat) {
    && Matches(t) && Matches(t') && h < |t.work| && h < |t'.work|
    && t'.work[h] == t.work[h]
    && t'.pool.calls[h] == t.pool.calls[h] && t'.pool.outcomes[h] == t.pool.outcomes[h]
    && (Active(t'.pool, h) ==> Active(t.pool, h))
    && |t'.rows| == |t.rows| && t'.store.g.block == t.store.g.block
  }

  /** A loading job's rows are not written. */
  ghost predicate FilledRowsSame(t: Tier, t': Tier, h: nat)
    requires |t'.rows| == |t.rows| && h < |t.work|
  {
    forall row: nat :: row < |t.rows| && Active(t.pool, h) && Fills(t.work[h], row) ==> t'.rows[row] == t.rows[row]
  }

  lemma LoadingKept(t: Tier, t': Tier, h: nat)
    requires SameJob(t, t', h) && t.work[h].Loading? && LoadingHolds(t, h)
    requires LostGrows(t, t', h) && FilesShrink(t, t') && FilledRowsSame(t, t', h)
    ensures LoadingHolds(t', h)
  {
    assert SourcesHold(t', h);
    forall e | InSome(t.work[h].tasks, e) ensures Fills(t.work[h], e.block) {
    }
  }

  ghost predicate UsedRowsSame(t: Tier, t': Tier, h: nat)
    requires |t'.rows| == |t.rows| && h < |t.work|
  {
    forall row: nat :: row < |t.rows| && Uses(t.work[h], row) ==> t'.rows[row] == t.rows[row]
  }

  /** A plan goes on: the same writes and rows, and no less of it done. */
  ghost predicate PlanGrows(plan: S.Plan, plan': S.Plan) {
    plan'.writes == plan.writes && plan'.view == plan.view && plan.done <= plan'.done
  }

  ghost predicate SamePlan(t: Tier, t': Tier, h: nat) {
    && (h in t.store.plans <==> h in t'.store.plans)
    && (h in t.store.plans ==> PlanGrows(t.store.plans[h], t'.store.plans[h]))
  }

  ghost predicate RowsStay(t: Tier, t': Tier, h: nat)
    requires h < |t.removed| && h < |t'.removed|
  {
    && t.removed[h] <= t'.removed[h]
    && forall key :: key in t.store.store.index ==> key in t'.store.store.index || key in t'.removed[h]
  }

  lemma StoringKept(t: Tier, t': Tier, h: nat)
    requires SameJob(t, t', h) && t.work[h].Storing? && StoringHolds(t, h)
    requires SamePlan(t, t', h) && RowsStay(t, t', h) && SealsStay(t.store, t'.store)
    requires h in t.store.plans ==> UsedRowsSame(t, t', h)
    ensures StoringHolds(t', h)
  {
    assert GroupsHold(t', h);
    SlotsKept(t, t', h);
    if h in t.store.plans {
      forall e | e in t.work[h].plan ensures Uses(t.work[h], e.block) {
      }
      assert PinsHold(t', h);
    }
  }

  lemma SlotsKept(t: Tier, t': Tier, h: nat)
    requires SameJob(t, t', h) && t.work[h].Storing? && SlotsHold(t, h) && SealsStay(t.store, t'.store)
    ensures SlotsHold(t', h)
  {
    if Published(t.pool.calls[h]) {
      forall e | e in t.work[h].plan ensures SlotSealed(t'.store, t'.work[h], e) {
        assert SlotSealed(t.store, t.work[h], e);
      }
    }
  }

  /** Two lists of jobs with the same rows. */
  ghost predicate SameRows(t: Tier, t': Tier) {
    && |t'.work| == |t.work|
    && forall h: nat, row: nat :: h < |t.work| ==>
         && (Fills(t'.work[h], row) <==> Fills(t.work[h], row))
         && (Uses(t'.work[h], row) <==> Uses(t.work[h], row))
         && (Active(t'.pool, h) ==> Active(t.pool, h))
  }

  lemma ExclusiveKept(t: Tier, t': Tier)
    requires Exclusive(t) && SameRows(t, t')
    ensures Exclusive(t')
  {
  }

  lemma StepKeepsSeals(s: S.System, step: S.Step)
    requires S.Inv(s) && S.Enabled(s, step)
    ensures SealsStay(s, S.Apply(s, step))
  {
    if HasShards(s.store.meta) {
      forall at | at in s.sealed ensures at in S.Apply(s, step).sealed && S.Apply(s, step).sealed[at] == s.sealed[at] {
        StoreRuns.StepKeepsSeal(s, step, at);
      }
      StepKeepsShards(s, step);
    }
  }

  lemma StepKeepsShards(s: S.System, step: S.Step)
    requires S.Inv(s) && S.Enabled(s, step) && HasShards(s.store.meta)
    ensures HasShards(S.Apply(s, step).store.meta)
  {
    if step.Prepare? && Sources(s.store, step.keys, step.blocks) != [] {
      AllocationStep(s.store.meta, s.store.index, s.g, |Sources(s.store, step.keys, step.blocks)|);
    }
  }

  lemma InStoreMovesSeals(t: Tier, step: S.Step)
    requires S.Inv(t.store) && S.Enabled(t.store, step) && |t.lost| == |t.work|
    ensures SealsMove(t, InStore(t, step))
  {
    StepKeepsSeals(t.store, step);
  }

  lemma ActiveUnlessReported(p: P.System, h: nat)
    requires P.Inv(p) && h < |p.pool.jobs| && P.TimesReported(p.reports, h) == 0
    ensures Active(p, h)
  {
    P.ReportsCounted(p.reports, h);
  }

  lemma ReportedAfterCall(p: P.System, r: P.Report)
    requires P.Inv(p) && r in p.reports
    ensures r.job < |p.pool.jobs| && |p.calls| == |p.pool.jobs|
    ensures p.pool.jobs[r.job].callback ==> |p.calls[r.job]| == 1
  {
    assert P.Concludes(p.pool.jobs[r.job], p.calls[r.job], r.success);
  }

  /** A store job with a plan is active. */
  lemma PlannedIsActive(t: Tier, h: nat)
    requires Inv(t) && h < |t.work| && t.work[h].Storing? && h in t.store.plans
    ensures Active(t.pool, h)
  {
    assert JobHolds(t, h);
    assert JobMatches(t.pool.pool.jobs[h], t.work[h]);
    if r :| r in t.pool.reports && r.job == h {
      ReportedAfterCall(t.pool, r);
    }
    P.ReportsCounted(t.pool.reports, h);
    ActiveUnlessReported(t.pool, h);
  }

  /** Nothing that a job relies on has changed. */
  ghost predicate Untouched(t: Tier, t': Tier, h: nat) {
    && SameJob(t, t', h)
    && (t.work[h].Storing? ==> SamePlan(t, t', h) && RowsStay(t, t', h) && (h in t.store.plans ==> UsedRowsSame(t, t', h)))
    && (t.work[h].Loading? ==> FilledRowsSame(t, t', h))
  }

  /** All jobs hold when one does and nothing has changed for the others. */
  lemma OthersKept(t: Tier, t': Tier, own: nat)
    requires Matches(t) && Matches(t') && JobsHold(t) && |t'.work| == |t.work|
    requires SealsMove(t, t') && FilesShrink(t, t')
    requires forall h: nat :: h < |t.work| && h != own ==> Untouched(t, t', h)
    requires own < |t'.work| ==> JobHolds(t', own)
    ensures JobsHold(t')
  {
    forall h: nat | h < |t'.work| ensures JobHolds(t', h) {
      if h != own {
        UntouchedKept(t, t', h);
      }
    }
  }

  lemma UntouchedKept(t: Tier, t': Tier, h: nat)
    requires Untouched(t, t', h) && JobHolds(t, h) && SealsMove(t, t') && FilesShrink(t, t')
    ensures JobHolds(t', h)
  {
    assert LostGrows(t, t', h);
    if t.work[h].Storing? {
      StoringKept(t, t', h);
    } else {
      LoadingKept(t, t', h);
    }
  }

  ghost predicate Jobs(t: Tier) {
    Matches(t) && JobsHold(t) && Exclusive(t)
  }

  /* ---- the worker steps ---- */

  ghost predicate OnlyPool(t: Tier, t': Tier) {
    && t' == t.(pool := t'.pool)
    && |t'.pool.pool.jobs| == |t.pool.pool.jobs|
    && (forall h: nat :: h < |t.pool.pool.jobs| ==>
          && t'.pool.pool.jobs[h].total == t.pool.pool.jobs[h].total
          && t'.pool.pool.jobs[h].callback == t.pool.pool.jobs[h].callback)
    && t'.pool.calls == t.pool.calls && t'.pool.outcomes == t.pool.outcomes
    && (forall h :: Active(t'.pool, h) ==> Active(t.pool, h))
  }

  lemma OnlyPoolKeeps(t: Tier, t': Tier)
    requires Jobs(t) && OnlyPool(t, t')
    ensures Jobs(t')
  {
    assert Matches(t') by {
      assert forall h: nat :: h < |t.work| ==> JobMatches(t.pool.pool.jobs[h], t.work[h]);
    }
    OthersKept(t, t', |t.work|);
    ExclusiveKept(t, t');
  }

  lemma TakeKeeps(t: Tier, k: nat)
    requires Inv(t) && Enabled(t, Take(k))
    ensures Inv(Apply(t, Take(k)))
  {
    P.StepKeeps(t.pool, P.Pop(k));
    OnlyPoolKeeps(t, Apply(t, Take(k)));
  }

  lemma ReportKeeps(t: Tier, k: nat)
    requires Inv(t) && Enabled(t, Report(k))
    ensures Inv(Apply(t, Report(k)))
  {
    var t' := Apply(t, Report(k));
    P.StepKeeps(t.pool, P.Deliver(k));
    DeliveredBelow(t.pool);
    forall h | Active(t'.pool, h) ensures Active(t.pool, h) {
      forall i | 0 <= i < |t.pool.delivered| && i < |t.pool.reports| ensures t.pool.reports[i].job != h {
        assert t'.pool.reports[i] == t.pool.reports[i];
      }
    }
    OnlyPoolKeeps(t, t');
  }

  lemma DeliveredBelow(p: P.System)
    requires P.Inv(p)
    ensures |p.delivered| <= |p.reports|
  {
    assert |p.delivered + p.pool.finished| == |P.Ids(p.pool.jobs, p.reports)|;
  }

  lemma DrainKeeps(t: Tier)
    requires Inv(t)
    ensures Inv(Apply(t, Drain))
  {
    var t' := Apply(t, Drain);
    P.StepKeeps(t.pool, P.Drain);
    DeliveredBelow(t.pool);
    forall h | Active(t'.pool, h) ensures Active(t.pool, h) {
      forall i | 0 <= i < |t.pool.delivered| && i < |t.pool.reports| ensures t.pool.reports[i].job != h {
        assert t'.pool.reports[i].job != h;
      }
    }
    OnlyPoolKeeps(t, t');
  }

  lemma EndTaskGroups(t: Tier, k: nat, ok: bool)
    requires Jobs(t) && t.store.g.Valid() && Enabled(t, EndTask(k, ok)) && RunningAt(t, k) && Matches(Apply(t, EndTask(k, ok)))
    requires t.work[TaskAt(t, k).job].Storing?
    ensures StoringHolds(Apply(t, EndTask(k, ok)), TaskAt(t, k).job)
  {
    var t', task := Apply(t, EndTask(k, ok)), TaskAt(t, k);
    assert JobHolds(t, task.job);
    assert GroupsHold(t', task.job);
    assert PlanHolds(t', task.job) && PinsHold(t', task.job) && KeysHold(t', task.job) && SlotsHold(t', task.job);
  }

  lemma EndTaskRows(t: Tier, k: nat, ok: bool)
    requires Jobs(t) && t.store.g.Valid() && Enabled(t, EndTask(k, ok)) && RunningAt(t, k) && Matches(Apply(t, EndTask(k, ok)))
    requires t.work[TaskAt(t, k).job].Loading?
    ensures LoadingHolds(Apply(t, EndTask(k, ok)), TaskAt(t, k).job)
  {
    var t', task := Apply(t, EndTask(k, ok)), TaskAt(t, k);
    assert JobHolds(t, task.job);
    assert SourcesHold(t', task.job) && RowsDistinct(t', task.job) && RowsHold(t', task.job);
    assert TasksHold(t', task.job);
  }

  lemma EndTaskMatches(t: Tier, k: nat, ok: bool)
    requires Matches(t) && t.store.g.Valid() && Enabled(t, EndTask(k, ok)) && RunningAt(t, k)
    ensures Matches(Apply(t, EndTask(k, ok)))
    ensures forall h: nat :: h < |t.work| && h != TaskAt(t, k).job ==> Untouched(t, Apply(t, EndTask(k, ok)), h)
  {
    assert forall h: nat :: h < |t.work| ==> JobMatches(t.pool.pool.jobs[h], t.work[h]);
  }

  lemma EndTaskSameRows(t: Tier, k: nat, ok: bool)
    requires Matches(t) && t.store.g.Valid() && Enabled(t, EndTask(k, ok)) && RunningAt(t, k)
    ensures SameRows(t, Apply(t, EndTask(k, ok)))
  {
    SameWorkRows(t, Apply(t, EndTask(k, ok)));
  }

  lemma EndTaskJobs(t: Tier, k: nat, ok: bool)
    requires Jobs(t) && t.store.g.Valid() && Enabled(t, EndTask(k, ok)) && RunningAt(t, k)
    ensures Jobs(Apply(t, EndTask(k, ok)))
  {
    var t', task := Apply(t, EndTask(k, ok)), TaskAt(t, k);
    EndTaskMatches(t, k, ok);
    EndTaskSameRows(t, k, ok);
    if t.work[task.job].Storing? {
      EndTaskGroups(t, k, ok);
    } else {
      EndTaskRows(t, k, ok);
    }
    OthersKept(t, t', task.job);
    ExclusiveKept(t, t');
  }

  lemma EndTaskKeeps(t: Tier, k: nat, ok: bool)
    requires Inv(t) && Enabled(t, EndTask(k, ok))
    ensures Inv(Apply(t, EndTask(k, ok)))
  {
    EndTaskJobs(t, k, ok);
    P.StepKeeps(t.pool, P.Finish(k, ok));
  }

  /* ---- steps in the store alone ---- */

  ghost predicate OnlyStore(t: Tier, t': Tier) {
    && t'.pool == t.pool && t'.work == t.work && t'.rows == t.rows
    && |t'.removed| == |t.removed| && |t'.lost| == |t.lost|
    && t'.store.g.block == t.store.g.block
    && t'.store.plans.Keys == t.store.plans.Keys
    && FilesShrink(t, t')
    && (forall h: nat :: h < |t.removed| ==> SamePlan(t, t', h) && RowsStay(t, t', h))
  }

  lemma OnlyStoreKeeps(t: Tier, t': Tier)
    requires Jobs(t) && OnlyStore(t, t') && SealsMove(t, t')
    ensures Jobs(t')
  {
    assert Matches(t');
    OthersKept(t, t', |t.work|);
    ExclusiveKept(t, t');
  }

  lemma LookUpKeeps(t: Tier, keys: seq<Key>)
    requires Inv(t)
    ensures Inv(Apply(t, LookUp(keys)))
  {
    S.StepKeeps(t.store, S.LookUp(keys));
    InStoreMovesSeals(t, S.LookUp(keys));
    OnlyStoreKeeps(t, Apply(t, LookUp(keys)));
  }

  lemma DeleteKeeps(t: Tier, keys: set<Key>, unlinked: set<Key>)
    requires Inv(t)
    ensures Inv(Apply(t, Delete(keys, unlinked)))
  {
    S.StepKeeps(t.store, S.Remove(keys));
    InStoreMovesSeals(t, S.Remove(keys));
    OnlyStoreKeeps(t, Apply(t, Delete(keys, unlinked)));
  }

  lemma WriteIsOnlyStore(t: Tier, h: nat, j: nat, bytes: nat)
    requires t.store.g.Valid() && S.Enabled(t.store, S.WritePart(h, j, bytes))
    ensures OnlyStore(t, InStore(t, S.WritePart(h, j, bytes)))
  {
  }

  lemma WriteSomeKeeps(t: Tier, k: nat, j: nat, bytes: nat)
    requires Inv(t) && Enabled(t, WriteSome(k, j, bytes))
    ensures Inv(Apply(t, WriteSome(k, j, bytes)))
  {
    var step := S.WritePart(TaskAt(t, k).job, j, bytes);
    S.StepKeeps(t.store, step);
    InStoreMovesSeals(t, step);
    WriteIsOnlyStore(t, TaskAt(t, k).job, j, bytes);
    OnlyStoreKeeps(t, Apply(t, WriteSome(k, j, bytes)));
  }

  /** A write task writes what its row of the primary view holds, which is what it held at submission. */
  lemma WritesTheRow(t: Tier, k: nat, j: nat, bytes: nat)
    requires Inv(t) && Enabled(t, WriteSome(k, j, bytes))
    ensures var e := t.work[TaskAt(t, k).job].plan[j];
      && e.block < |t.rows| && bytes <= |t.rows[e.block]|
      && e.block < |t.work[TaskAt(t, k).job].view| && t.rows[e.block] == t.work[TaskAt(t, k).job].view[e.block]
      && Apply(t, WriteSome(k, j, bytes)).store.store.files
           == WriteOne(t.store.store.files, Write(e.segment, e.offset, t.rows[e.block][..bytes]))
  {
    var h := TaskAt(t, k).job;
    assert JobHolds(t, h);
    assert t.work[h].plan[j] in t.work[h].plan;
  }

  /* ---- filling rows ---- */

  /** What an entry of a load reads, while its source is settled, is what it must hold. */
  lemma ContentIsExpected(t: Tier, h: nat, e: LoadEntry)
    requires Inv(t) && h < |t.work| && t.work[h].Loading? && InSome(t.work[h].tasks, e)
    requires h < |t.lost| && Settled(t, h, e)
    requires Content(t.store.store, t.files, e, t.store.g.block).Some?
    ensures Content(t.store.store, t.files, e, t.store.g.block) == Expected(t.work[h], e, t.store.g.block)
  {
    assert JobHolds(t, h);
    match e.place
    case InSegment(at) =>
      assert at in t.work[h].sealed;
    case InFile =>
  }

  ghost predicate MayFill(t: Tier, h: nat, e: LoadEntry, data: Bytes, whole: bool) {
    && h < |t.work| && t.work[h].Loading? && InSome(t.work[h].tasks, e) && Active(t.pool, h)
    && e.block < |t.rows| && |data| == t.store.g.block
    && (whole ==> Content(t.store.store, t.files, e, t.store.g.block) == Some(data))
  }

  /** Filling a row of a task that is not done yet. */
  lemma FillOwn(t: Tier, h: nat, i: nat, e: LoadEntry, data: Bytes, whole: bool)
    requires Inv(t) && MayFill(t, h, e, data, whole) && Matches(Fill(t, h, e.block, data, whole))
    requires i < |t.work[h].tasks| && e in t.work[h].tasks[i] && i !in t.pool.outcomes[h]
    ensures LoadingHolds(Fill(t, h, e.block, data, whole), h)
  {
    var t' := Fill(t, h, e.block, data, whole);
    assert JobHolds(t, h);
    assert SourcesHold(t', h) && RowsDistinct(t', h);
    forall x | InSome(t'.work[h].tasks, x) && x.block in t'.work[h].got
      ensures Fits(x, t.store.g.block)
      ensures Settled(t', h, x) ==> x.block < |t'.rows| && Some(t'.rows[x.block]) == Expected(t'.work[h], x, t.store.g.block)
    {
      if x.block == e.block {
        SameEntry(t.work[h].tasks, x, e);
        if Settled(t', h, x) {
          ContentIsExpected(t, h, e);
        }
      }
    }
    forall j: nat | j in t.pool.outcomes[h] && t.pool.outcomes[h][j] ensures TaskGot(t'.work[h], j) {
      assert TaskGot(t.work[h], j);
      OtherTask(t.work[h].tasks, i, j, e);
    }
  }

  lemma SameEntry(tasks: seq<seq<LoadEntry>>, x: LoadEntry, y: LoadEntry)
    requires RowsApart(tasks) && InSome(tasks, x) && InSome(tasks, y) && x.block == y.block
    ensures x == y
  {
    var i: nat :| i < |tasks| && x in tasks[i];
    var j: nat :| j < |tasks| && y in tasks[j];
    if i <= j {
      ApartFacts(tasks, i, j, x, y);
    } else {
      ApartFacts(tasks, j, i, y, x);
    }
  }

  lemma OtherTask(tasks: seq<seq<LoadEntry>>, i: nat, j: nat, e: LoadEntry)
    requires RowsApart(tasks) && i < |tasks| && i != j && e in tasks[i]
    ensures j < |tasks| ==> forall x :: x in tasks[j] ==> x.block != e.block
  {
    if j < |tasks| {
      forall x | x in tasks[j] ensures x.block != e.block {
        if x.block == e.block {
          if i <= j {
            ApartFacts(tasks, i, j, e, x);
          } else {
            ApartFacts(tasks, j, i, x, e);
          }
        }
      }
    }
  }

  lemma FillOthers(t: Tier, h: nat, e: LoadEntry, data: Bytes, whole: bool, k: nat)
    requires Inv(t) && MayFill(t, h, e, data, whole) && Matches(Fill(t, h, e.block, data, whole))
    requires k < |t.work| && k != h
    ensures Untouched(t, Fill(t, h, e.block, data, whole), k)
  {
    assert Fills(t.work[h], e.block);
    if k in t.store.plans {
      PlannedIsActive(t, k);
    }
  }

  lemma FillKeeps(t: Tier, h: nat, i: nat, e: LoadEntry, data: Bytes, whole: bool)
    requires Inv(t) && MayFill(t, h, e, data, whole)
    requires i < |t.work[h].tasks| && e in t.work[h].tasks[i] && i !in t.pool.outcomes[h]
    ensures Inv(Fill(t, h, e.block, data, whole))
  {
    var t' := Fill(t, h, e.block, data, whole);
    assert Matches(t') by {
      assert forall k: nat :: k < |t.work| ==> JobMatches(t.pool.pool.jobs[k], t.work[k]);
    }
    FillOwn(t, h, i, e, data, whole);
    forall k: nat | k < |t.work| && k != h ensures Untouched(t, t', k) {
      FillOthers(t, h, e, data, whole, k);
    }
    OthersKept(t, t', h);
    ExclusiveKept(t, t');
  }

  /** The running task of a load is not done, and its job is active. */
  lemma ReaderIsOpen(t: Tier, k: nat, e: LoadEntry)
    requires Inv(t) && Reads(t, k, e)
    ensures var task := TaskAt(t, k);
      && Active(t.pool, task.job) && InSome(t.work[task.job].tasks, e)
      && task.index !in t.pool.outcomes[task.job]
  {
    var h := TaskAt(t, k).job;
    P.RunningIsOpen(t.pool, k);
    assert P.BeingClosed(t.pool.pool.workers, h) + P.TimesReported(t.pool.reports, h) == P.Once(P.Complete(t.pool.pool.jobs, h));
    ActiveUnlessReported(t.pool, h);
  }

  lemma ContentSized(t: Tier, e: LoadEntry)
    requires Inv(t) && Content(t.store.store, t.files, e, t.store.g.block).Some?
    ensures |Content(t.store.store, t.files, e, t.store.g.block).value| == t.store.g.block
  {
  }

  lemma ReadKeeps(t: Tier, k: nat, e: LoadEntry)
    requires Inv(t) && Enabled(t, ReadRow(k, e))
    ensures Inv(Apply(t, ReadRow(k, e)))
  {
    ReaderIsOpen(t, k, e);
    ContentSized(t, e);
    FillKeeps(t, TaskAt(t, k).job, TaskAt(t, k).index, e, Content(t.store.store, t.files, e, t.store.g.block).value, true);
  }

  lemma ReadPartKeeps(t: Tier, k: nat, e: LoadEntry, junk: Bytes)
    requires Inv(t) && Enabled(t, ReadPart(k, e, junk))
    ensures Inv(Apply(t, ReadPart(k, e, junk)))
  {
    ReaderIsOpen(t, k, e);
    FillKeeps(t, TaskAt(t, k).job, TaskAt(t, k).index, e, junk, false);
  }

  lemma EngineKeeps(t: Tier, row: nat, data: Bytes)
    requires Inv(t) && Enabled(t, Engine(row, data))
    ensures Inv(Apply(t, Engine(row, data)))
  {
    var t' := Apply(t, Engine(row, data));
    assert Matches(t');
    forall h: nat | h < |t.work| ensures Untouched(t, t', h) {
      if h in t.store.plans {
        PlannedIsActive(t, h);
      }
    }
    OthersKept(t, t', |t.work|);
    ExclusiveKept(t, t');
  }

  /* ---- submitting ---- */

  /** Another job has joined; the jobs before it are as they were. */
  ghost predicate Joined(t: Tier, t': Tier) {
    && |t'.work| == |t.work| + 1
    && forall h: nat :: h < |t.work| ==> Untouched(t, t', h)
  }

  lemma JoinedKeeps(t: Tier, t': Tier)
    requires Matches(t) && JobsHold(t) && Matches(t') && Joined(t, t') && SealsMove(t, t') && FilesShrink(t, t')
    requires JobHolds(t', |t.work|)
    ensures JobsHold(t')
  {
    forall h: nat | h < |t'.work| ensures JobHolds(t', h) {
      if h < |t.work| {
        assert Untouched(t, t', h);
        UntouchedKept(t, t', h);
      }
    }
  }

  /** The new job's rows are not filled by another active job, and it fills no row that another uses. */
  ghost predicate NewRowsFree(t: Tier, w: Work) {
    forall h: nat, row: nat :: h < |t.work| && Active(t.pool, h) ==>
      && (Uses(w, row) ==> !Fills(t.work[h], row))
      && (Fills(w, row) ==> !Fills(t.work[h], row) && !Uses(t.work[h], row))
  }

  lemma JoinedExclusive(t: Tier, t': Tier, w: Work)
    requires Exclusive(t) && Matches(t') && Joined(t, t') && t'.work == t.work + [w] && NewRowsFree(t, w)
    ensures Exclusive(t')
  {
    var n := |t.work|;
    forall h: nat, k: nat, row: nat |
        h <= n && k <= n && h != k && Active(t'.pool, h) && Active(t'.pool, k) && Fills(t'.work[h], row)
      ensures !Fills(t'.work[k], row) && !Uses(t'.work[k], row)
    {
      assert h < n ==> Untouched(t, t', h);
      assert k < n ==> Untouched(t, t', k);
    }
  }

  /** Adding a job to the pool. */
  ghost predicate Enqueued(p: P.System, p': P.System, job: P.Job) {
    && p'.pool.jobs == p.pool.jobs + [job]
    && p'.calls == p.calls + [[]] && p'.outcomes == p.outcomes + [map[]]
    && p'.reports == p.reports && p'.delivered == p.delivered
  }

  lemma EnqueueJoins(p: P.System, load: bool, id: nat, total: nat, callback: bool)
    requires 0 < total
    ensures Enqueued(p, P.Apply(p, P.Enqueue(load, id, total, callback)), P.Job(id, total, callback, 0, true))
  {
  }

  lemma JoinedMatches(t: Tier, t': Tier, w: Work, job: P.Job)
    requires Matches(t) && Enqueued(t.pool, t'.pool, job) && JobMatches(job, w)
    requires t'.work == t.work + [w] && t'.removed == t.removed + [{}] && |t'.lost| == |t.lost| + 1
    requires forall h :: h in t'.store.plans ==> h in t.store.plans || (h == |t.work| && w.Storing?)
    ensures Matches(t')
  {
    assert forall h: nat :: h < |t.work| ==> JobMatches(t.pool.pool.jobs[h], t.work[h]);
  }

  lemma JoinedUntouched(t: Tier, t': Tier, w: Work, job: P.Job)
    requires Matches(t) && Matches(t') && Enqueued(t.pool, t'.pool, job)
    requires t'.work == t.work + [w] && t'.removed == t.removed + [{}] && t'.rows == t.rows
    requires t'.store.g.block == t.store.g.block && t'.store.store.index == t.store.store.index
    requires forall h: nat :: h < |t.work| ==> SamePlan(t, t', h)
    ensures Joined(t, t')
  {
    forall h: nat | h < |t.work| ensures Untouched(t, t', h) {
      assert SamePlan(t, t', h);
    }
  }

  /** What a submission does to the parts: its job joins the pool, the store keeps its rows and plans. */
  ghost predicate Submitted(t: Tier, t': Tier, w: Work) {
    && t'.work == t.work + [w] && t'.removed == t.removed + [{}] && |t'.lost| == |t.lost| + 1 && t'.rows == t.rows
    && t'.store.g.block == t.store.g.block && t'.store.store.index == t.store.store.index
    && (forall h :: h in t.store.plans && h != |t.work| ==> h in t'.store.plans && t'.store.plans[h] == t.store.plans[h])
    && (forall h :: h in t'.store.plans ==> h in t.store.plans || (h == |t.work| && w.Storing?))
  }

  lemma SubmittedJoins(t: Tier, t': Tier, w: Work, job: P.Job)
    requires Matches(t) && Submitted(t, t', w) && Enqueued(t.pool, t'.pool, job) && JobMatches(job, w)
    ensures Matches(t') && Joined(t, t')
  {
    JoinedMatches(t, t', w, job);
    JoinedUntouched(t, t', w, job);
  }

  lemma StoreSubmitted(t: Tier, step: Step)
    requires t.store.g.Valid() && Enabled(t, step) && step.SubmitStore?
    ensures Submitted(t, Apply(t, step), Apply(t, step).work[|t.work|])
  {
  }

  lemma SubmitStoreJoins(t: Tier, step: Step)
    requires t.store.g.Valid() && Matches(t) && Enabled(t, step) && step.SubmitStore?
    ensures Matches(Apply(t, step)) && Joined(t, Apply(t, step))
  {
    var t', w := Apply(t, step), Apply(t, step).work[|t.work|];
    StoreSubmitted(t, step);
    EnqueueJoins(t.pool, false, step.id, TaskCount(w), true);
    SubmittedJoins(t, t', w, P.Job(step.id, TaskCount(w), true, 0, true));
  }

  /** Joining a job to the pool moves no seal. */
  lemma JoinMovesSeals(t: Tier, u: Tier, t': Tier)
    requires SealsMove(t, u) && |t.lost| == |t.work| && |u.lost| == |t.lost|
    requires t'.store == u.store && t'.lost == u.lost + [{}]
    ensures SealsMove(t, t')
  {
    forall h: nat | h < |t.work| ensures LostGrows(t, t', h) {
      assert LostGrows(t, u, h);
    }
  }

  lemma SubmitStoreSeals(t: Tier, step: Step)
    requires S.Inv(t.store) && |t.lost| == |t.work| && Enabled(t, step) && step.SubmitStore?
    ensures S.Inv(Apply(t, step).store) && SealsMove(t, Apply(t, step))
  {
    var prepare := S.Prepare(|t.work|, step.keys, step.blocks, t.rows);
    S.StepKeeps(t.store, prepare);
    InStoreMovesSeals(t, prepare);
    JoinMovesSeals(t, InStore(t, prepare), Apply(t, step));
  }

  lemma SubmitStoreParts(t: Tier, step: Step)
    requires S.Inv(t.store) && P.Inv(t.pool) && |t.lost| == |t.work| && Enabled(t, step) && step.SubmitStore?
    ensures var t' := Apply(t, step); S.Inv(t'.store) && P.Inv(t'.pool) && SealsMove(t, t')
  {
    SubmitStoreSeals(t, step);
    P.StepKeeps(t.pool, P.Enqueue(false, step.id, TaskCount(Apply(t, step).work[|t.work|]), true));
  }

  /** The plan of the job that a submission adds. */
  ghost predicate NewPlan(t: Tier, step: Step, plan: seq<SegmentWrite>) {
    && step.SubmitStore? && |step.keys| == |step.blocks| && t.store.g.Valid() && MetaValid(t.store.store.meta)
    && plan == PrepareStore(t.store.store, t.store.g, step.keys, step.blocks).1
  }

  lemma PlanIsNew(t: Tier, step: Step)
    requires t.store.g.Valid() && MetaValid(t.store.store.meta) && Enabled(t, step) && step.SubmitStore?
    ensures NewPlan(t, step, Apply(t, step).work[|t.work|].plan)
  {
  }

  lemma PlanBlocks(t: Tier, step: Step, plan: seq<SegmentWrite>)
    requires NewPlan(t, step, plan)
    ensures forall e :: e in plan ==> e.block in step.blocks
  {
    forall e | e in plan ensures e.block in step.blocks {
      S.NewWriteFacts(t.store, step.keys, step.blocks, e);
    }
  }

  lemma NewStoreRows(t: Tier, step: Step, w: Work)
    requires Enabled(t, step) && step.SubmitStore? && w.Storing?
    requires forall e :: e in w.plan ==> e.block in step.blocks
    ensures NewRowsFree(t, w)
    ensures forall e :: e in w.plan ==> e.block < |t.rows|
  {
  }

  lemma NewStoreKeys(t: Tier, step: Step, plan: seq<SegmentWrite>, key: Key)
    requires S.Inv(t.store) && NewPlan(t, step, plan)
    requires key in step.keys && key !in t.store.store.index
    ensures PlansKey(plan, key)
  {
    var e := StoreRoundTrip.PlannedWrite(t.store, step.keys, step.blocks, key);
  }

  lemma SubmittedStore(t: Tier, step: Step)
    requires S.Inv(t.store) && Matches(t) && Enabled(t, step) && step.SubmitStore? && Matches(Apply(t, step))
    ensures JobHolds(Apply(t, step), |t.work|) && NewRowsFree(t, Apply(t, step).work[|t.work|])
  {
    var t', h := Apply(t, step), |t.work|;
    PlanIsNew(t, step);
    PlanBlocks(t, step, t'.work[h].plan);
    NewStoreRows(t, step, t'.work[h]);
    assert PlanHolds(t', h) && GroupsHold(t', h) && PinsHold(t', h) && SlotsHold(t', h);
    forall key | key in t'.work[h].keys && key !in t'.store.store.index ensures PlansKey(t'.work[h].plan, key) {
      NewStoreKeys(t, step, t'.work[h].plan, key);
    }
    assert KeysHold(t', h);
  }

  lemma SubmitStoreKeeps(t: Tier, step: Step)
    requires Inv(t) && Enabled(t, step) && step.SubmitStore?
    ensures Inv(Apply(t, step))
  {
    SubmitStoreJoins(t, step);
    SubmitStoreParts(t, step);
    SubmittedStore(t, step);
    JoinJobs(t, Apply(t, step), Apply(t, step).work[|t.work|]);
  }

  lemma JoinJobs(t: Tier, t': Tier, w: Work)
    requires Jobs(t) && Matches(t') && Joined(t, t') && SealsMove(t, t') && t'.files == t.files
    requires t'.work == t.work + [w] && NewRowsFree(t, w) && JobHolds(t', |t.work|)
    ensures Jobs(t')
  {
    JoinedKeeps(t, t');
    JoinedExclusive(t, t', w);
  }

  lemma LoadSubmitted(t: Tier, step: Step)
    requires t.store.g.Valid() && Enabled(t, step) && step.SubmitLoad?
    ensures Submitted(t, Apply(t, step), LoadWork(t, step.keys, step.blocks))
  {
  }

  lemma SubmitLoadJoins(t: Tier, step: Step)
    requires t.store.g.Valid() && Matches(t) && Enabled(t, step) && step.SubmitLoad?
    ensures Matches(Apply(t, step)) && Joined(t, Apply(t, step))
  {
    var t', w := Apply(t, step), LoadWork(t, step.keys, step.blocks);
    LoadTasksNonempty(t, step.keys, step.blocks);
    LoadSubmitted(t, step);
    EnqueueJoins(t.pool, true, step.id, TaskCount(w), false);
    SubmittedJoins(t, t', w, P.Job(step.id, TaskCount(w), false, 0, true));
  }

  lemma SubmitLoadSeals(t: Tier, step: Step)
    requires S.Inv(t.store) && |t.lost| == |t.work| && Enabled(t, step) && step.SubmitLoad?
    ensures S.Inv(Apply(t, step).store) && SealsMove(t, Apply(t, step))
  {
    S.StepKeeps(t.store, S.LookUp(step.keys));
    InStoreMovesSeals(t, S.LookUp(step.keys));
    JoinMovesSeals(t, InStore(t, S.LookUp(step.keys)), Apply(t, step));
  }

  lemma SubmitLoadParts(t: Tier, step: Step)
    requires S.Inv(t.store) && P.Inv(t.pool) && |t.lost| == |t.work| && Enabled(t, step) && step.SubmitLoad?
    ensures var t' := Apply(t, step); S.Inv(t'.store) && P.Inv(t'.pool) && SealsMove(t, t')
  {
    LoadTasksNonempty(t, step.keys, step.blocks);
    SubmitLoadSeals(t, step);
    P.StepKeeps(t.pool, P.Enqueue(true, step.id, TaskCount(LoadWork(t, step.keys, step.blocks)), false));
  }

  /** Every entry of a load stands for one of its keys, where that key was found. */
  lemma LoadEntryFacts(t: Tier, keys: seq<Key>, blocks: seq<nat>, e: LoadEntry)
    requires S.Inv(t.store)
    requires InSome(LoadWork(t, keys, blocks).tasks, e)
    ensures e.key in keys && e.block in blocks[..Pairs(keys, blocks)]
    ensures e.place.InSegment? ==> e.key in t.store.store.index && t.store.store.index[e.key] == e.place.at && e.place.at in t.store.sealed
    ensures e.place.InFile? ==> e.key !in t.store.store.index
  {
    var n := Pairs(keys, blocks);
    var found := Locations(t.store.store, keys[..n]);
    TasksCoverJob(keys[..n], blocks[..n], found, e);
    var i: nat :| i < n && e == EntryOf(keys[..n][i], blocks[..n][i], found[i]);
    assert found[i] == Locate(t.store.store, keys[i]);
  }

  lemma LoadEntries(t: Tier, step: Step, w: Work)
    requires S.Inv(t.store) && Enabled(t, step) && step.SubmitLoad? && w == LoadWork(t, step.keys, step.blocks)
    ensures forall e :: InSome(w.tasks, e) ==> e.block < |t.rows| && (e.place.InSegment? ==> e.place.at in w.sealed)
    ensures RowsApart(w.tasks) && NewRowsFree(t, w)
  {
    var n := Pairs(step.keys, step.blocks);
    forall e | InSome(w.tasks, e)
      ensures e.block in step.blocks[..n]
      ensures e.place.InSegment? ==> e.place.at in w.sealed
    {
      LoadEntryFacts(t, step.keys, step.blocks, e);
    }
    TasksApart(step.keys[..n], step.blocks[..n], Locations(t.store.store, step.keys[..n]));
  }

  /** A load that has just joined has filled no row, and its locations hold what they did. */
  lemma FreshLoadHolds(t: Tier, h: nat)
    requires Matches(t) && h < |t.work| && t.work[h].Loading? && S.Inv(t.store)
    requires t.work[h].sealed == t.store.sealed && t.work[h].files == t.files && t.work[h].got == {} && t.pool.outcomes[h] == map[]
    requires forall e :: InSome(t.work[h].tasks, e) ==> e.block < |t.rows| && (e.place.InSegment? ==> e.place.at in t.work[h].sealed)
    requires RowsApart(t.work[h].tasks)
    ensures LoadingHolds(t, h)
  {
  }

  lemma SubmittedLoad(t: Tier, step: Step)
    requires Inv(t) && Enabled(t, step) && step.SubmitLoad? && Matches(Apply(t, step)) && S.Inv(Apply(t, step).store)
    ensures var t' := Apply(t, step);
      && JobHolds(t', |t.work|) && NewRowsFree(t, LoadWork(t, step.keys, step.blocks))
  {
    LoadEntries(t, step, LoadWork(t, step.keys, step.blocks));
    LoadShape(t, step);
    FreshLoadHolds(Apply(t, step), |t.work|);
  }

  lemma LoadShape(t: Tier, step: Step)
    requires t.store.g.Valid() && Enabled(t, step) && step.SubmitLoad? && |t.work| == |t.pool.outcomes|
    ensures var t' := Apply(t, step);
      && t'.store.sealed == t.store.sealed && t'.files == t.files && t'.rows == t.rows
      && t'.work == t.work + [LoadWork(t, step.keys, step.blocks)]
      && |t'.pool.outcomes| == |t.work| + 1 && t'.pool.outcomes[|t.work|] == map[]
  {
  }

  lemma SubmitLoadKeeps(t: Tier, step: Step)
    requires Inv(t) && Enabled(t, step) && step.SubmitLoad?
    ensures Inv(Apply(t, step))
  {
    SubmitLoadJoins(t, step);
    SubmitLoadParts(t, step);
    SubmittedLoad(t, step);
    JoinJobs(t, Apply(t, step), LoadWork(t, step.keys, step.blocks));
  }

  /* ---- completing ---- */

  lemma {:induction false} AddWriteHolds(groups: seq<seq<SegmentWrite>>, w: SegmentWrite, e: SegmentWrite)
    requires e == w || exists i: nat :: i < |groups| && e in groups[i]
    ensures exists i: nat :: i < |StoreRoundTrip.AddWrite(groups, w)| && e in StoreRoundTrip.AddWrite(groups, w)[i]
  {
    var after := StoreRoundTrip.AddWrite(groups, w);
    if groups == [] {
      assert e in after[0];
    } else if StoreRoundTrip.IsGroup(groups[0], w.segment) {
      if e == w {
        assert e in after[0];
      } else {
        var i: nat :| i < |groups| && e in groups[i];
        assert e in after[i];
      }
    } else if e != w && e in groups[0] {
      assert e in after[0];
    } else {
      if e != w {
        var i: nat :| i < |groups| && e in groups[i];
        assert e in groups[1..][i - 1];
      }
      AddWriteHolds(groups[1..], w, e);
      var j: nat :| j < |after[1..]| && e in StoreRoundTrip.AddWrite(groups[1..], w)[j];
      assert e in after[j + 1];
    }
  }

  /** Every write of a plan is in one of its groups. */
  lemma {:induction false} GroupsCoverPlan(plan: seq<SegmentWrite>, e: SegmentWrite)
    requires e in plan
    ensures exists i: nat :: i < |StoreRoundTrip.GroupWrites(plan)| && e in StoreRoundTrip.GroupWrites(plan)[i]
  {
    var n := |plan| - 1;
    if e in plan[..n] {
      GroupsCoverPlan(plan[..n], e);
    }
    assert StoreRoundTrip.GroupWrites(plan) == StoreRoundTrip.AddWrite(StoreRoundTrip.GroupWrites(plan[..n]), plan[n]);
    AddWriteHolds(StoreRoundTrip.GroupWrites(plan[..n]), plan[n], e);
  }

  /** A callback that is told of success finds every entry of its plan written: so the job may publish. */
  lemma SuccessMeansWritten(t: Tier, k: nat)
    requires Inv(t) && P.CanCall(t.pool.pool, k)
    ensures var phase := t.pool.pool.workers[k].phase;
      && phase.job in t.store.plans
      && (phase.success ==> S.AllDone(t.store.plans[phase.job]))
  {
    var phase := t.pool.pool.workers[k].phase;
    var h := phase.job;
    assert P.PhaseHolds(t.pool.pool.jobs, t.pool.calls, phase);
    assert JobMatches(t.pool.pool.jobs[h], t.work[h]);
    assert JobHolds(t, h);
    if phase.success {
      PoolRuns.CompleteIsDone(t.pool, h);
      assert P.JobCounts(t.pool.pool.jobs[h], t.pool.outcomes[h]);
      var plan := t.store.plans[h];
      forall j | 0 <= j < |plan.writes| ensures j in plan.done {
        GroupsCoverPlan(plan.writes, plan.writes[j]);
        var i: nat :| i < |t.work[h].groups| && plan.writes[j] in t.work[h].groups[i];
        assert i in t.pool.outcomes[h] && t.pool.outcomes[h][i];
        assert GroupDone(plan, t.work[h].groups, i);
      }
    }
  }

  /** The callback's step is always one that the store allows. */
  lemma CompleteIsEnabled(t: Tier, k: nat, committed: bool, raised: bool)
    requires Inv(t) && P.CanCall(t.pool.pool, k)
    requires if t.pool.pool.workers[k].phase.success then committed || raised else !committed && !raised
    ensures Enabled(t, Complete(k, committed, raised))
  {
    SuccessMeansWritten(t, k);
    assert P.PhaseHolds(t.pool.pool.jobs, t.pool.calls, t.pool.pool.workers[k].phase);
  }

  lemma ClosingPlans(t: Tier, h: nat, committed: bool, raised: bool)
    requires t.store.g.Valid() && S.Enabled(t.store, Closing(h, committed, raised))
    ensures var t' := InStore(t, Closing(h, committed, raised));
      && t'.store.plans == t.store.plans - {h} && t'.store.g == t.store.g
      && (forall key :: key in t.store.store.index ==> key in t'.store.store.index)
      && (committed ==> forall e :: e in t.store.plans[h].writes ==> e.key in t'.store.store.index)
      && t'.store.store.files == t.store.store.files && t'.store.store.meta == t.store.store.meta
  {
    if committed {
      InsertRowsFacts(t.store.store.index, t.store.plans[h].writes, t.store.g.block);
    }
  }

  ghost predicate CallsBack(t: Tier, k: nat, h: nat) {
    && P.CanCall(t.pool.pool, k) && t.pool.pool.workers[k].phase.job == h
    && h < |t.work| && h < |t.pool.calls| && t.work[h].Storing? && t.pool.calls[h] == []
  }

  lemma CallbackOfStore(t: Tier, k: nat)
    requires P.Inv(t.pool) && Matches(t) && P.CanCall(t.pool.pool, k)
    ensures CallsBack(t, k, t.pool.pool.workers[k].phase.job)
  {
    assert P.PhaseHolds(t.pool.pool.jobs, t.pool.calls, t.pool.pool.workers[k].phase);
    assert JobMatches(t.pool.pool.jobs[t.pool.pool.workers[k].phase.job], t.work[t.pool.pool.workers[k].phase.job]);
  }

  lemma CompleteOwn(t: Tier, k: nat, committed: bool, raised: bool, h: nat)
    requires Jobs(t) && S.Inv(t.store) && Enabled(t, Complete(k, committed, raised)) && CallsBack(t, k, h)
    requires Matches(Apply(t, Complete(k, committed, raised)))
    ensures JobHolds(Apply(t, Complete(k, committed, raised)), h)
  {
    var t', phase := Apply(t, Complete(k, committed, raised)), t.pool.pool.workers[k].phase;
    assert JobHolds(t, h);
    ClosingPlans(t, h, committed, raised);
    assert t'.pool.calls[h] == [P.Call(phase.success, raised)];
    assert h !in t'.store.plans;
    forall key | key in t.work[h].keys && key !in t'.removed[h] && Published(t'.pool.calls[h])
      ensures key in t'.store.store.index
    {
      if key !in t.store.store.index {
        assert PlansKey(t.work[h].plan, key);
      }
    }
    assert KeysHold(t', h);
    if committed {
      PublishedSlots(t, h, raised);
    }
    assert SlotsHold(t', h);
  }

  /** A published slot is sealed with what the row held at submission. */
  lemma PublishedSlots(t: Tier, h: nat, raised: bool)
    requires S.Inv(t.store) && Matches(t) && h < |t.work| && t.work[h].Storing? && PlanHolds(t, h) && PinsHold(t, h)
    requires S.Enabled(t.store, Closing(h, true, raised))
    ensures forall e :: e in t.work[h].plan ==> SlotSealed(S.Apply(t.store, Closing(h, true, raised)), t.work[h], e)
  {
    var s, step := t.store, Closing(h, true, raised);
    var s', plan := S.Apply(s, step), s.plans[h];
    S.StepKeeps(s, step);
    assert S.PlanValid(s, h);
    S.SealFacts(s.sealed, plan.writes, plan.view, s.g.block);
    forall e | e in plan.writes ensures SlotSealed(s', t.work[h], e) {
      S.DoneSlots(s, h, e);
      assert Slot(e, s.g.block) in s'.sealed;
    }
  }

  /** Only the job of handle `own` has ended, and rows were only added to the table. */
  ghost predicate OnlyClosed(t: Tier, t': Tier, own: nat) {
    && t'.work == t.work && t'.rows == t.rows && t'.removed == t.removed && |t'.lost| == |t.lost| && t'.files == t.files
    && t'.store.g == t.store.g && t'.store.plans == t.store.plans - {own}
    && t'.pool.pool.jobs == t.pool.pool.jobs && t'.pool.outcomes == t.pool.outcomes
    && t'.pool.reports == t.pool.reports && t'.pool.delivered == t.pool.delivered
    && |t'.pool.calls| == |t.pool.calls|
    && (forall h :: 0 <= h < |t.pool.calls| && h != own ==> t'.pool.calls[h] == t.pool.calls[h])
    && (forall key :: key in t.store.store.index ==> key in t'.store.store.index)
  }

  lemma ClosedUntouched(t: Tier, t': Tier, own: nat)
    requires Matches(t) && OnlyClosed(t, t', own)
    ensures Matches(t') && SameRows(t, t')
    ensures forall h: nat :: h < |t.work| && h != own ==> Untouched(t, t', h)
  {
    assert forall h: nat :: h < |t.work| ==> JobMatches(t.pool.pool.jobs[h], t.work[h]);
    forall h: nat ensures Active(t'.pool, h) ==> Active(t.pool, h) {
    }
    SameWorkRows(t, t');
  }

  lemma SameWorkRows(t: Tier, t': Tier)
    requires t'.work == t.work && forall h: nat :: Active(t'.pool, h) ==> Active(t.pool, h)
    ensures SameRows(t, t')
  {
  }

  lemma CompleteMatches(t: Tier, k: nat, committed: bool, raised: bool)
    requires t.store.g.Valid() && Matches(t) && Enabled(t, Complete(k, committed, raised))
    ensures Matches(Apply(t, Complete(k, committed, raised)))
    ensures forall h: nat :: h < |t.work| && h != t.pool.pool.workers[k].phase.job ==>
              Untouched(t, Apply(t, Complete(k, committed, raised)), h)
    ensures SameRows(t, Apply(t, Complete(k, committed, raised)))
  {
    var own := t.pool.pool.workers[k].phase.job;
    ClosingPlans(t, own, committed, raised);
    ClosedUntouched(t, Apply(t, Complete(k, committed, raised)), own);
  }

  /** A step of the pool moves no seal. */
  lemma PoolMovesNothing(t: Tier, u: Tier, t': Tier)
    requires SealsMove(t, u) && t'.store == u.store && t'.lost == u.lost
    ensures SealsMove(t, t')
  {
    forall h: nat | h < |t.work| ensures LostGrows(t, t', h) {
      assert LostGrows(t, u, h);
    }
  }

  lemma CompleteSeals(t: Tier, k: nat, committed: bool, raised: bool)
    requires S.Inv(t.store) && |t.lost| == |t.work| && Enabled(t, Complete(k, committed, raised))
    ensures var t' := Apply(t, Complete(k, committed, raised)); S.Inv(t'.store) && SealsMove(t, t')
  {
    var step := Closing(t.pool.pool.workers[k].phase.job, committed, raised);
    S.StepKeeps(t.store, step);
    InStoreMovesSeals(t, step);
    PoolMovesNothing(t, InStore(t, step), Apply(t, Complete(k, committed, raised)));
  }

  lemma CompleteParts(t: Tier, k: nat, committed: bool, raised: bool)
    requires S.Inv(t.store) && P.Inv(t.pool) && |t.lost| == |t.work| && Enabled(t, Complete(k, committed, raised))
    ensures var t' := Apply(t, Complete(k, committed, raised));
      && S.Inv(t'.store) && P.Inv(t'.pool) && SealsMove(t, t')
  {
    CompleteSeals(t, k, committed, raised);
    P.StepKeeps(t.pool, P.Callback(k, raised));
  }

  lemma CompleteJobs(t: Tier, k: nat, committed: bool, raised: bool, h: nat)
    requires Jobs(t) && S.Inv(t.store) && Enabled(t, Complete(k, committed, raised)) && CallsBack(t, k, h)
    requires SealsMove(t, Apply(t, Complete(k, committed, raised)))
    ensures Jobs(Apply(t, Complete(k, committed, raised)))
  {
    var t' := Apply(t, Complete(k, committed, raised));
    CompleteMatches(t, k, committed, raised);
    CompleteOwn(t, k, committed, raised, h);
    OthersKept(t, t', h);
    ExclusiveKept(t, t');
  }

  lemma CompleteKeeps(t: Tier, k: nat, committed: bool, raised: bool)
    requires Inv(t) && Enabled(t, Complete(k, committed, raised))
    ensures Inv(Apply(t, Complete(k, committed, raised)))
  {
    CompleteParts(t, k, committed, raised);
    CallbackOfStore(t, k);
    CompleteJobs(t, k, committed, raised, t.pool.pool.workers[k].phase.job);
  }

  predicate OfWorker(step: Step) {
    step.Take? || step.WriteSome? || step.ReadRow? || step.ReadPart? || step.EndTask? || step.Complete? || step.Report?
  }

  lemma WorkerStepKeeps(t: Tier, step: Step)
    requires Inv(t) && Enabled(t, step) && OfWorker(step)
    ensures Inv(Apply(t, step))
  {
    match step
    case Take(k) => TakeKeeps(t, k);
    case WriteSome(k, j, bytes) => WriteSomeKeeps(t, k, j, bytes);
    case ReadRow(k, e) => ReadKeeps(t, k, e);
    case ReadPart(k, e, junk) => ReadPartKeeps(t, k, e, junk);
    case EndTask(k, ok) => EndTaskKeeps(t, k, ok);
    case Complete(k, committed, raised) => CompleteKeeps(t, k, committed, raised);
    case Report(k) => ReportKeeps(t, k);
  }

  /** The invariant holds after every step. */
  lemma StepKeeps(t: Tier, step: Step)
    requires Inv(t) && Enabled(t, step)
    ensures Inv(Apply(t, step))
  {
    if OfWorker(step) {
      WorkerStepKeeps(t, step);
    } else {
      match step
      case SubmitStore(_, _, _) => SubmitStoreKeeps(t, step);
      case SubmitLoad(_, _, _) => SubmitLoadKeeps(t, step);
      case Drain => DrainKeeps(t);
      case LookUp(keys) => LookUpKeeps(t, keys);
      case Delete(keys, unlinked) => DeleteKeeps(t, keys, unlinked);
      case Engine(row, data) => EngineKeeps(t, row, data);
    }
  }
}
