/** What a reported success is worth: whole runs of the tier, from submission to report. */
module TierRuns {
  import opened Basics
  import opened Wrappers
  import opened SegmentFiles
  import opened SegmentAllocation
  import opened SegmentModel
  import opened LoadTasks
  import opened TierProtocol
  import opened TierSteps
  import StoreRuns
  import StoreReuse
  import PoolRuns
  import S = StoreProtocol
  import P = PoolProtocol

  ghost function Run(t: Tier, steps: seq<Step>): Option<Tier>
    decreases |steps|
  {
    if steps == [] then Some(t)
    else
      match Run(t, steps[..|steps| - 1])
      case None => None
      case Some(u) =>
        var last := steps[|steps| - 1];
        if u.store.g.Valid() && Enabled(u, last) then Some(Apply(u, last)) else None
  }

  ghost predicate CanRun(t: Tier, steps: seq<Step>) {
    Run(t, steps).Some?
  }

  ghost function After(t: Tier, steps: seq<Step>): Tier
    requires CanRun(t, steps)
  {
    Run(t, steps).value
  }

  lemma {:induction false} RunKeeps(t: Tier, steps: seq<Step>)
    requires Inv(t) && CanRun(t, steps)
    ensures Inv(After(t, steps))
    decreases |steps|
  {
    if steps != [] {
      var n := |steps| - 1;
      RunKeeps(t, steps[..n]);
      StepKeeps(After(t, steps[..n]), steps[n]);
    }
  }

  lemma RunNext(t: Tier, steps: seq<Step>, step: Step)
    requires CanRun(t, steps) && After(t, steps).store.g.Valid() && Enabled(After(t, steps), step)
    ensures CanRun(t, steps + [step]) && After(t, steps + [step]) == Apply(After(t, steps), step)
  {
    assert (steps + [step])[..|steps|] == steps;
  }

  ghost predicate CanReach(t: Tier, u: Tier) {
    exists steps :: CanRun(t, steps) && After(t, steps) == u
  }

  lemma Starts(t: Tier)
    ensures CanReach(t, t)
  {
    assert CanRun(t, []) && After(t, []) == t;
  }

  lemma Further(t: Tier, u: Tier, step: Step)
    requires CanReach(t, u) && u.store.g.Valid() && Enabled(u, step)
    ensures CanReach(t, Apply(u, step))
  {
    var steps :| CanRun(t, steps) && After(t, steps) == u;
    RunNext(t, steps, step);
    assert CanRun(t, steps + [step]);
  }

  /* ---- what a job was asked to do stays ---- */

  /** The same job, whatever it has done since. */
  predicate SameWork(w: Work, w': Work) {
    if w.Storing? then w' == w
    else w'.Loading? && w'.tasks == w.tasks && w'.sealed == w.sealed && w'.files == w.files
  }

  lemma StepKeepsWork(t: Tier, step: Step, h: nat)
    requires t.store.g.Valid() && Enabled(t, step) && h < |t.work| <= |t.removed|
    ensures var t' := Apply(t, step); h < |t'.work| && SameWork(t.work[h], t'.work[h])
    ensures var t' := Apply(t, step); |t'.work| - |t.work| == |t'.removed| - |t.removed|
  {
  }

  predicate NeverDeletes(steps: seq<Step>, key: Key) {
    forall step :: step in steps && step.Delete? ==> key !in step.removed
  }

  lemma {:induction false} RunKeepsWork(t: Tier, steps: seq<Step>, h: nat, key: Key)
    requires Inv(t) && CanRun(t, steps) && h < |t.work|
    ensures var u := After(t, steps); h < |u.work| && SameWork(t.work[h], u.work[h])
    ensures var u := After(t, steps); h < |t.removed| && h < |u.removed|
    ensures NeverDeletes(steps, key) && key !in t.removed[h] ==> key !in After(t, steps).removed[h]
    decreases |steps|
  {
    if steps != [] {
      var n := |steps| - 1;
      var u := After(t, steps[..n]);
      RunKeepsWork(t, steps[..n], h, key);
      RunKeeps(t, steps);
      RunKeeps(t, steps[..n]);
      StepKeepsWork(u, steps[n], h);
      assert steps[n] in steps;
    }
  }

  ghost predicate Succeeded(t: Tier, h: nat) {
    P.Report(h, true) in t.pool.reports
  }

  /* ---- stores ---- */

  lemma SuccessMeansPublished(t: Tier, h: nat)
    requires Inv(t) && Succeeded(t, h) && h < |t.work| && t.work[h].Storing?
    ensures h < |t.pool.calls| && Published(t.pool.calls[h])
  {
    assert JobMatches(t.pool.pool.jobs[h], t.work[h]);
    assert P.Concludes(t.pool.pool.jobs[h], t.pool.calls[h], true);
  }

  ghost predicate Retrievable(t: Tier, key: Key) {
    && key in t.store.store.index
    && Readable(t.store.store.files, t.store.store.index[key])
    && Locate(t.store.store, key) == Some(t.store.store.index[key])
  }

  lemma IndexedIsRetrievable(t: Tier, key: Key)
    requires S.Inv(t.store) && key in t.store.store.index
    ensures Retrievable(t, key)
  {
    assert t.store.store.index[key] in t.store.sealed;
  }

  lemma SuccessMeansIndexed(t: Tier, h: nat, key: Key)
    requires Inv(t) && Succeeded(t, h) && h < |t.work| && t.work[h].Storing?
    requires key in t.work[h].keys && h < |t.removed| && key !in t.removed[h]
    ensures Retrievable(t, key)
  {
    SuccessMeansPublished(t, h);
    assert JobHolds(t, h);
    assert KeysHold(t, h);
    IndexedIsRetrievable(t, key);
  }

  /** When a store job is reported successful, every one of its keys that was not deleted since its
      submission is in the table and can be read. */
  lemma StoredMeansRetrievable(s: Tier, before: seq<Step>, submit: Step, after: seq<Step>, key: Key)
    requires Initial(s) && CanRun(s, before) && submit.SubmitStore?
    requires var t := After(s, before);
      && t.store.g.Valid() && Enabled(t, submit) && CanRun(Apply(t, submit), after)
      && Succeeded(After(Apply(t, submit), after), |t.work|)
    requires key in submit.keys && NeverDeletes(after, key)
    ensures Retrievable(After(Apply(After(s, before), submit), after), key)
  {
    InitialInv(s);
    RunKeeps(s, before);
    var t := After(s, before);
    StepKeeps(t, submit);
    var u := Apply(t, submit);
    RunKeeps(u, after);
    RunKeepsWork(u, after, |t.work|, key);
    SuccessMeansIndexed(After(u, after), |t.work|, key);
  }

  /** A key that no job published first gets the bytes that its row of the primary view holds when the
      job completes, which are those it held when the job was submitted. */
  lemma PublishedBytes(t: Tier, k: nat, raised: bool, e: SegmentWrite)
    requires Inv(t) && Enabled(t, Complete(k, true, raised))
    requires var h := t.pool.pool.workers[k].phase.job; h < |t.work| && t.work[h].Storing? && e in t.work[h].plan
    requires e.key !in t.store.store.index
    ensures e.block < |t.rows|
    ensures StoreRuns.RowIs(Apply(t, Complete(k, true, raised)).store, e.key, Slot(e, t.store.g.block), t.rows[e.block])
  {
    var h := t.pool.pool.workers[k].phase.job;
    assert JobHolds(t, h);
    StoreRuns.PublishedRow(t.store, h, !raised, e);
  }

  /* ---- what a store leaves behind ---- */

  /** After a reported success every planned slot holds what its row held when the job was submitted,
      whatever was stored, deleted or reopened since. */
  lemma StoredMeansAsSubmitted(s: Tier, before: seq<Step>, submit: Step, after: seq<Step>, e: SegmentWrite)
    requires Initial(s) && CanRun(s, before) && submit.SubmitStore?
    requires var t := After(s, before);
      && t.store.g.Valid() && Enabled(t, submit) && CanRun(Apply(t, submit), after)
      && Succeeded(After(Apply(t, submit), after), |t.work|)
    requires e in Apply(After(s, before), submit).work[|After(s, before).work|].plan
    ensures var t, u := After(s, before), After(Apply(After(s, before), submit), after);
      e.block < |t.rows| && Holds(u.store.store.files, Slot(e, u.store.g.block), t.rows[e.block])
  {
    InitialInv(s);
    RunKeeps(s, before);
    var t := After(s, before);
    var t1, h := Apply(t, submit), |t.work|;
    StepKeeps(t, submit);
    RunKeeps(t1, after);
    RunKeepsWork(t1, after, h, e.key);
    SuccessMeansSealed(After(t1, after), h, e);
  }

  lemma SuccessMeansSealed(t: Tier, h: nat, e: SegmentWrite)
    requires Inv(t) && Succeeded(t, h) && h < |t.work| && t.work[h].Storing? && e in t.work[h].plan
    ensures e.block < |t.work[h].view| && Holds(t.store.store.files, Slot(e, t.store.g.block), t.work[h].view[e.block])
  {
    SuccessMeansPublished(t, h);
    assert JobHolds(t, h);
    assert SlotSealed(t.store, t.work[h], e);
  }

  /** A key's row is a slot of a job's write for it, and holds what the view's row held when that job was
      submitted. */
  ghost predicate FromJob(t: Tier, key: Key) {
    exists h: nat, e :: h < |t.work| && Wrote(t, h, e, key)
  }

  ghost predicate Wrote(t: Tier, h: nat, e: SegmentWrite, key: Key)
    requires h < |t.work|
  {
    && t.work[h].Storing? && e in t.work[h].plan && e.key == key
    && key in t.store.store.index && t.store.store.index[key] == Slot(e, t.store.g.block)
    && SlotSealed(t.store, t.work[h], e)
  }

  /** Only a completion callback adds a row. */
  lemma OnlyCallbacksAddRows(t: Tier, step: Step, key: Key)
    requires t.store.g.Valid() && Enabled(t, step) && !step.Complete? && key in Apply(t, step).store.store.index
    ensures key in t.store.store.index && Apply(t, step).store.store.index[key] == t.store.store.index[key]
  {
  }

  lemma CallbackAddsRow(t: Tier, s': S.System, h: nat, raised: bool, key: Key) returns (e: SegmentWrite)
    requires S.Inv(t.store) && Matches(t) && h < |t.work| && t.work[h].Storing? && PlanHolds(t, h) && PinsHold(t, h)
    requires S.Enabled(t.store, Closing(h, true, raised)) && s' == S.Apply(t.store, Closing(h, true, raised))
    requires key in s'.store.index && (key !in t.store.store.index || s'.store.index[key] != t.store.store.index[key])
    ensures e in t.work[h].plan && e.key == key && s'.store.index[key] == Slot(e, t.store.g.block)
    ensures s'.g == t.store.g && SlotSealed(s', t.work[h], e)
  {
    InsertRowsFacts(t.store.store.index, t.work[h].plan, t.store.g.block);
    e :| e in t.work[h].plan && e.key == key && s'.store.index[key] == Slot(e, t.store.g.block);
    PublishedSlots(t, h, raised);
  }

  lemma CallbackIsFromJob(t: Tier, k: nat, committed: bool, raised: bool, key: Key)
    requires Inv(t) && Enabled(t, Complete(k, committed, raised))
    requires var t' := Apply(t, Complete(k, committed, raised));
      && key in t'.store.store.index
      && (key !in t.store.store.index || t'.store.store.index[key] != t.store.store.index[key])
    ensures FromJob(Apply(t, Complete(k, committed, raised)), key)
  {
    var h, t' := t.pool.pool.workers[k].phase.job, Apply(t, Complete(k, committed, raised));
    JobOfCallback(t, k, h);
    var e := CallbackAddsRow(t, t'.store, h, raised, key);
    assert Wrote(t', h, e, key);
  }

  lemma JobOfCallback(t: Tier, k: nat, h: nat)
    requires Inv(t) && P.CanCall(t.pool.pool, k) && h == t.pool.pool.workers[k].phase.job
    ensures h < |t.work| && t.work[h].Storing? && PlanHolds(t, h) && PinsHold(t, h)
  {
    CallbackOfStore(t, k);
    assert JobHolds(t, h);
  }

  lemma WriterStays(t: Tier, t': Tier, h: nat, e: SegmentWrite, key: Key)
    requires h < |t.work| && Wrote(t, h, e, key) && h < |t'.work| && SameWork(t.work[h], t'.work[h])
    requires t'.store.g.block == t.store.g.block && SealsStay(t.store, t'.store)
    requires key in t'.store.store.index && t'.store.store.index[key] == t.store.store.index[key]
    ensures FromJob(t', key)
  {
    assert Wrote(t', h, e, key);
  }

  lemma StepMovesSeals(t: Tier, step: Step, h: nat)
    requires Inv(t) && Enabled(t, step) && h < |t.work|
    ensures SealsStay(t.store, Apply(t, step).store)
  {
    StepInStore(t, step, h);
    if StoreStep(t, step).Some? {
      StepKeepsSeals(t.store, StoreStep(t, step).value);
    }
  }

  lemma StepKeepsWriter(t: Tier, step: Step, key: Key)
    requires Inv(t) && Enabled(t, step) && FromJob(t, key)
    requires key in Apply(t, step).store.store.index && Apply(t, step).store.store.index[key] == t.store.store.index[key]
    ensures FromJob(Apply(t, step), key)
  {
    var h: nat, e :| h < |t.work| && Wrote(t, h, e, key);
    StepKeepsWork(t, step, h);
    BlockStaysOne(t, step);
    StepMovesSeals(t, step, h);
    WriterStays(t, Apply(t, step), h, e, key);
  }

  /** Every row that a run adds to the table holds what its row of the view held when its job was submitted,
      also when jobs race on the key, fail, or are reported to have failed. */
  lemma {:induction false} RowsAsSubmitted(t: Tier, steps: seq<Step>, key: Key)
    requires Inv(t) && CanRun(t, steps)
    requires key in After(t, steps).store.store.index && key !in t.store.store.index
    ensures FromJob(After(t, steps), key)
    decreases |steps|
  {
    if steps != [] {
      var n := |steps| - 1;
      var u := After(t, steps[..n]);
      RunKeeps(t, steps[..n]);
      if key in u.store.store.index && After(t, steps).store.store.index[key] == u.store.store.index[key] {
        RowsAsSubmitted(t, steps[..n], key);
        StepKeepsWriter(u, steps[n], key);
      } else if steps[n].Complete? {
        CallbackIsFromJob(u, steps[n].worker, steps[n].committed, steps[n].raised, key);
      } else {
        OnlyCallbacksAddRows(u, steps[n], key);
      }
    }
  }

  /* ---- what the report says of a callback ---- */

  /** The two steps that close a store job. */
  ghost function Closed(t: Tier, k: nat, committed: bool, raised: bool): Tier
    requires t.store.g.Valid() && Enabled(t, Complete(k, committed, raised))
    requires Enabled(Apply(t, Complete(k, committed, raised)), Report(k))
  {
    Apply(Apply(t, Complete(k, committed, raised)), Report(k))
  }

  lemma CallbackIsReported(t: Tier, k: nat, committed: bool, raised: bool)
    requires Inv(t) && Enabled(t, Complete(k, committed, raised))
    ensures Enabled(Apply(t, Complete(k, committed, raised)), Report(k))
    ensures var phase := t.pool.pool.workers[k].phase;
      Closed(t, k, committed, raised).pool.reports == t.pool.reports + [P.Report(phase.job, phase.success && !raised)]
  {
    PoolReports(t.pool, k, raised);
  }

  lemma PoolReports(p: P.System, k: nat, raised: bool)
    requires P.Inv(p) && P.Enabled(p, P.Callback(k, raised))
    ensures var p1, phase := P.Apply(p, P.Callback(k, raised)), p.pool.workers[k].phase;
      && P.Enabled(p1, P.Deliver(k))
      && P.Apply(p1, P.Deliver(k)).reports == p.reports + [P.Report(phase.job, phase.success && !raised)]
  {
    assert P.PhaseHolds(p.pool.jobs, p.calls, p.pool.workers[k].phase);
  }

  /** A new key of a job is in the table after its callback if and only if the transaction was committed. */
  lemma CallbackPublishes(t: Tier, k: nat, committed: bool, raised: bool, e: SegmentWrite)
    requires Inv(t) && Enabled(t, Complete(k, committed, raised)) && e.key !in t.store.store.index
    requires var h := t.pool.pool.workers[k].phase.job; h < |t.work| && t.work[h].Storing? && e in t.work[h].plan
    ensures e.key in Apply(t, Complete(k, committed, raised)).store.store.index <==> committed
  {
    assert JobHolds(t, t.pool.pool.workers[k].phase.job);
    ClosingPlans(t, t.pool.pool.workers[k].phase.job, committed, raised);
  }

  /** So a job is reported to have failed while its rows are in the table if and only if its callback raised
      after it had committed. */
  lemma FailedButPublished(t: Tier, k: nat, committed: bool, raised: bool, e: SegmentWrite)
    requires Inv(t) && Enabled(t, Complete(k, committed, raised)) && e.key !in t.store.store.index
    requires var h := t.pool.pool.workers[k].phase.job; h < |t.work| && t.work[h].Storing? && e in t.work[h].plan
    ensures Enabled(Apply(t, Complete(k, committed, raised)), Report(k))
    ensures var u := Closed(t, k, committed, raised);
      && u.pool.reports != []
      && (!u.pool.reports[|u.pool.reports| - 1].success && e.key in u.store.store.index <==> committed && raised)
  {
    CallbackIsReported(t, k, committed, raised);
    CallbackPublishes(t, k, committed, raised, e);
  }

  /** ... which can happen to every job whose tasks all succeeded. */
  lemma EveryJobMayFailPublished(t: Tier, k: nat, e: SegmentWrite)
    requires Inv(t) && P.CanCall(t.pool.pool, k) && t.pool.pool.workers[k].phase.success && e.key !in t.store.store.index
    requires var h := t.pool.pool.workers[k].phase.job; h < |t.work| && t.work[h].Storing? && e in t.work[h].plan
    ensures CanRun(t, [Complete(k, true, true), Report(k)])
    ensures var u := After(t, [Complete(k, true, true), Report(k)]);
      && P.Report(t.pool.pool.workers[k].phase.job, false) in u.pool.reports && e.key in u.store.store.index
  {
    CompleteIsEnabled(t, k, true, true);
    FailedButPublished(t, k, true, true, e);
    CallbackIsReported(t, k, true, true);
    StepKeeps(t, Complete(k, true, true));
    RunTwo(t, Complete(k, true, true), Report(k));
  }

  lemma RunTwo(t: Tier, first: Step, second: Step)
    requires t.store.g.Valid() && Enabled(t, first)
    requires Apply(t, first).store.g.Valid() && Enabled(Apply(t, first), second)
    ensures CanRun(t, [first, second]) && After(t, [first, second]) == Apply(Apply(t, first), second)
  {
    RunNext(t, [], first);
    RunNext(t, [] + [first], second);
    assert [] + [first] + [second] == [first, second];
  }

  /* ---- loads ---- */

  /** What a key's row must hold after a load submitted in `t`. */
  ghost function BytesOf(t: Tier, key: Key): Option<Bytes> {
    if key in t.store.store.index then
      if Readable(t.store.store.files, t.store.store.index[key])
      then Some(BytesAt(t.store.store.files, t.store.store.index[key])) else None
    else if key in t.files && t.store.g.block <= |t.files[key]| then Some(t.files[key][..t.store.g.block])
    else None
  }

  /** The key's location has not kept its bytes since the job was submitted. */
  ghost predicate Lost(t: Tier, h: nat, index: Index, key: Key)
    requires h < |t.lost|
  {
    key in index && index[key] in t.lost[h]
  }

  /** The task entry that stands for the i-th key of a load. */
  lemma EntryOfKey(t: Tier, keys: seq<Key>, blocks: seq<nat>, i: nat) returns (e: LoadEntry)
    requires S.Inv(t.store) && i < Pairs(keys, blocks)
    ensures e.key == keys[i] && e.block == blocks[i]
    ensures InSome(LoadWork(t, keys, blocks).tasks, e)
    ensures e.place == if keys[i] in t.store.store.index then InSegment(t.store.store.index[keys[i]]) else InFile
    ensures Expected(LoadWork(t, keys, blocks), e, t.store.g.block) == BytesOf(t, keys[i])
  {
    var n := Pairs(keys, blocks);
    var found := Locations(t.store.store, keys[..n]);
    e := EntryOf(keys[..n][i], blocks[..n][i], found[i]);
    TasksCoverJob(keys[..n], blocks[..n], found, e);
    assert Asked(keys[..n], blocks[..n], found, e);
    if keys[i] in t.store.store.index {
      assert t.store.store.index[keys[i]] in t.store.sealed;
    }
  }

  lemma SuccessMeansFilled(t: Tier, h: nat, e: LoadEntry)
    requires Inv(t) && Succeeded(t, h) && Active(t.pool, h) && h < |t.work| && t.work[h].Loading?
    requires InSome(t.work[h].tasks, e) && Settled(t, h, e)
    ensures e.block < |t.rows| && Some(t.rows[e.block]) == Expected(t.work[h], e, t.store.g.block)
  {
    assert JobHolds(t, h);
    assert JobMatches(t.pool.pool.jobs[h], t.work[h]);
    AllTasksOk(t.pool, h);
    var i: nat :| i < |t.work[h].tasks| && e in t.work[h].tasks[i];
    assert i in t.pool.outcomes[h] && t.pool.outcomes[h][i];
    assert TaskGot(t.work[h], i);
  }

  lemma AllTasksOk(p: P.System, h: nat)
    requires P.Inv(p) && P.Report(h, true) in p.reports
    ensures h < |p.pool.jobs| && h < |p.outcomes|
    ensures forall i: nat :: i < p.pool.jobs[h].total ==> i in p.outcomes[h] && p.outcomes[h][i]
  {
    PoolRuns.CompleteIsDone(p, h);
    assert P.JobCounts(p.pool.jobs[h], p.outcomes[h]);
    assert P.Concludes(p.pool.jobs[h], p.calls[h], true);
  }

  /** When a load job is reported successful, each of its rows holds, until the report is handed over,
      the bytes that its key had when the load was submitted: unless the key's location has not kept them. */
  lemma LoadedMeansFilled(s: Tier, before: seq<Step>, submit: Step, after: seq<Step>, i: nat)
    requires Initial(s) && CanRun(s, before) && submit.SubmitLoad? && i < Pairs(submit.keys, submit.blocks)
    requires var t := After(s, before);
      && t.store.g.Valid() && Enabled(t, submit) && CanRun(Apply(t, submit), after)
    requires var t, u := After(s, before), After(Apply(After(s, before), submit), after);
      && Succeeded(u, |t.work|) && Active(u.pool, |t.work|)
      && |t.work| < |u.lost| && !Lost(u, |t.work|, t.store.store.index, submit.keys[i])
    ensures var t, u := After(s, before), After(Apply(After(s, before), submit), after);
      && submit.blocks[i] < |u.rows| && BytesOf(t, submit.keys[i]) == Some(u.rows[submit.blocks[i]])
  {
    InitialInv(s);
    RunKeeps(s, before);
    var t := After(s, before);
    LoadIsSubmitted(t, submit);
    LoadedAfter(t, submit.keys, submit.blocks, Apply(t, submit), after, After(Apply(t, submit), after), i);
  }

  /** What a caller can check before the load: the key has a file of its own, or the store keeps the bytes
      of its location whatever is deleted. */
  ghost predicate Safe(t: Tier, key: Key) {
    key in t.store.store.index ==> StoreReuse.WillLast(t.store, t.store.store.index[key])
  }

  /** For such a key nothing has to be known of the run. */
  lemma LoadedWhenSafe(s: Tier, before: seq<Step>, submit: Step, after: seq<Step>, i: nat)
    requires Initial(s) && CanRun(s, before) && submit.SubmitLoad? && i < Pairs(submit.keys, submit.blocks)
    requires var t := After(s, before);
      && t.store.g.Valid() && Enabled(t, submit) && CanRun(Apply(t, submit), after) && Safe(t, submit.keys[i])
    requires var t, u := After(s, before), After(Apply(After(s, before), submit), after);
      && Succeeded(u, |t.work|) && Active(u.pool, |t.work|)
    ensures var t, u := After(s, before), After(Apply(After(s, before), submit), after);
      && submit.blocks[i] < |u.rows| && BytesOf(t, submit.keys[i]) == Some(u.rows[submit.blocks[i]])
  {
    InitialInv(s);
    RunKeeps(s, before);
    SafeLoad(After(s, before), submit, after, i);
  }

  lemma SafeLoad(t: Tier, submit: Step, after: seq<Step>, i: nat)
    requires Inv(t) && submit.SubmitLoad? && i < Pairs(submit.keys, submit.blocks) && Enabled(t, submit)
    requires CanRun(Apply(t, submit), after) && Safe(t, submit.keys[i])
    requires var u := After(Apply(t, submit), after); Succeeded(u, |t.work|) && Active(u.pool, |t.work|)
    ensures var u := After(Apply(t, submit), after);
      && submit.blocks[i] < |u.rows| && BytesOf(t, submit.keys[i]) == Some(u.rows[submit.blocks[i]])
  {
    var t1, key := Apply(t, submit), submit.keys[i];
    LoadIsSubmitted(t, submit);
    if key in t.store.store.index {
      SafeStays(t, submit, key, after);
    }
    RunKeeps(t1, after);
    RunKeepsWork(t1, after, |t.work|, key);
    LoadedAfter(t, submit.keys, submit.blocks, t1, after, After(t1, after), i);
  }

  lemma SafeStays(t: Tier, submit: Step, key: Key, after: seq<Step>)
    requires Inv(t) && submit.SubmitLoad? && Enabled(t, submit) && CanRun(Apply(t, submit), after)
    requires key in t.store.store.index && StoreReuse.WillLast(t.store, t.store.store.index[key])
    ensures var u := After(Apply(t, submit), after); |t.work| < |u.lost| && t.store.store.index[key] !in u.lost[|t.work|]
  {
    var t1, at := Apply(t, submit), t.store.store.index[key];
    LoadIsSubmitted(t, submit);
    assert at in t.store.sealed;
    assert at in t1.store.sealed;
    StoreReuse.LastingIsKept(t1.store, at);
    RunKeepsLocation(t1, after, |t.work|, at);
  }

  lemma JobAfter(t: Tier, steps: seq<Step>, h: nat)
    requires Inv(t) && CanRun(t, steps) && h < |t.work|
    ensures var u := After(t, steps);
      && Inv(u) && h < |u.work| && SameWork(t.work[h], u.work[h]) && u.store.g.block == t.store.g.block
  {
    RunKeeps(t, steps);
    RunKeepsWork(t, steps, h, Key(0));
    BlockStays(t, steps);
  }

  lemma LoadIsSubmitted(t: Tier, submit: Step)
    requires Inv(t) && submit.SubmitLoad? && Enabled(t, submit)
    ensures var t1 := Apply(t, submit);
      && Inv(t1) && t1.store.g.block == t.store.g.block
      && t1.work == t.work + [LoadWork(t, submit.keys, submit.blocks)] && t1.lost == t1.lost[..|t.work|] + [{}]
      && t1.store.sealed == t.store.sealed && t1.store.store.meta == t.store.store.meta && t1.store.g == t.store.g
  {
    StepKeeps(t, submit);
  }

  lemma LoadedAfter(t: Tier, keys: seq<Key>, blocks: seq<nat>, t1: Tier, after: seq<Step>, u: Tier, i: nat)
    requires S.Inv(t.store) && i < Pairs(keys, blocks)
    requires Inv(t1) && t1.store.g.block == t.store.g.block && t1.work == t.work + [LoadWork(t, keys, blocks)]
    requires Run(t1, after) == Some(u)
    requires Succeeded(u, |t.work|) && Active(u.pool, |t.work|)
    requires |t.work| < |u.lost| && !Lost(u, |t.work|, t.store.store.index, keys[i])
    ensures blocks[i] < |u.rows| && BytesOf(t, keys[i]) == Some(u.rows[blocks[i]])
  {
    JobAfter(t1, after, |t.work|);
    LoadedFrom(t, u, keys, blocks, |t.work|, i);
  }

  lemma LoadedFrom(t: Tier, u: Tier, keys: seq<Key>, blocks: seq<nat>, h: nat, i: nat)
    requires S.Inv(t.store) && i < Pairs(keys, blocks)
    requires Inv(u) && h < |u.work| && SameWork(LoadWork(t, keys, blocks), u.work[h])
    requires u.store.g.block == t.store.g.block
    requires Succeeded(u, h) && Active(u.pool, h) && !Lost(u, h, t.store.store.index, keys[i])
    ensures blocks[i] < |u.rows| && BytesOf(t, keys[i]) == Some(u.rows[blocks[i]])
  {
    var e := EntryOfKey(t, keys, blocks, i);
    SuccessMeansFilled(u, h, e);
  }

  lemma {:induction false} BlockStays(t: Tier, steps: seq<Step>)
    requires Inv(t) && CanRun(t, steps)
    ensures After(t, steps).store.g.block == t.store.g.block && |After(t, steps).rows| == |t.rows|
    decreases |steps|
  {
    if steps != [] {
      var n := |steps| - 1;
      BlockStays(t, steps[..n]);
      RunKeeps(t, steps[..n]);
      BlockStaysOne(After(t, steps[..n]), steps[n]);
    }
  }

  lemma BlockStaysOne(t: Tier, step: Step)
    requires t.store.g.Valid() && Enabled(t, step)
    ensures Apply(t, step).store.g.block == t.store.g.block && |Apply(t, step).rows| == |t.rows|
  {
  }

  /* ---- when a location keeps its bytes ---- */

  /** The step that a tier step makes in the store, if it makes one. */
  function StoreStep(t: Tier, step: Step): Option<S.Step>
    requires step.Complete? ==> step.worker < |t.pool.pool.workers| && t.pool.pool.workers[step.worker].phase.CallingBack?
    requires step.WriteSome? ==> RunningAt(t, step.worker)
  {
    match step
    case SubmitStore(_, keys, blocks) => Some(S.Prepare(|t.work|, keys, blocks, t.rows))
    case SubmitLoad(_, keys, _) => Some(S.LookUp(keys))
    case WriteSome(k, j, bytes) => Some(S.WritePart(TaskAt(t, k).job, j, bytes))
    case Complete(k, committed, raised) => Some(Closing(t.pool.pool.workers[k].phase.job, committed, raised))
    case LookUp(keys) => Some(S.LookUp(keys))
    case Delete(keys, _) => Some(S.Remove(keys))
    case _ => None
  }

  /** The store sees a step of its protocol, or nothing; and a load loses what no longer holds its bytes. */
  lemma StepInStore(t: Tier, step: Step, h: nat)
    requires t.store.g.Valid() && |t.lost| == |t.work| && Enabled(t, step) && h < |t.work|
    ensures var t' := Apply(t, step);
      match StoreStep(t, step)
      case Some(inner) =>
        && !inner.Reopen? && S.Enabled(t.store, inner) && t'.store == S.Apply(t.store, inner)
        && h < |t'.lost| && t'.lost[h] == t.lost[h] + Gone(t'.store.store.files, t.work[h])
      case None => t'.store == t.store && t'.lost == t.lost
  {
  }

  lemma StepKeepsLocation(t: Tier, step: Step, h: nat, at: Location)
    requires Inv(t) && Enabled(t, step) && h < |t.work| && t.work[h].Loading?
    requires at !in t.lost[h] && StoreReuse.Kept(t.store, at)
    ensures var t' := Apply(t, step); StoreReuse.Kept(t'.store, at) && h < |t'.lost| && at !in t'.lost[h]
  {
    StepInStore(t, step, h);
    if at in t.work[h].sealed {
      LoadHolds(t, h, at);
    }
    match StoreStep(t, step)
    case Some(inner) => LocationStays(t.store, inner, t.work[h], at);
    case None =>
  }

  lemma LoadHolds(t: Tier, h: nat, at: Location)
    requires Inv(t) && h < |t.work| && t.work[h].Loading? && at !in t.lost[h] && at in t.work[h].sealed
    ensures Holds(t.store.store.files, at, t.work[h].sealed[at])
  {
    assert JobHolds(t, h);
  }

  lemma LocationStays(s: S.System, inner: S.Step, w: Work, at: Location)
    requires S.Inv(s) && S.Enabled(s, inner) && !inner.Reopen? && StoreReuse.Kept(s, at)
    requires w.Loading? && (at in w.sealed ==> Holds(s.store.files, at, w.sealed[at]))
    ensures StoreReuse.Kept(S.Apply(s, inner), at) && at !in Gone(S.Apply(s, inner).store.files, w)
  {
    StoreReuse.StepKeepsBytes(s, inner, at);
  }

  lemma {:induction false} RunKeepsLocation(t: Tier, steps: seq<Step>, h: nat, at: Location)
    requires Inv(t) && CanRun(t, steps) && h < |t.work| && t.work[h].Loading?
    requires at !in t.lost[h] && StoreReuse.Kept(t.store, at)
    ensures var u := After(t, steps); StoreReuse.Kept(u.store, at) && h < |u.lost| && at !in u.lost[h]
    decreases |steps|
  {
    if steps != [] {
      var n := |steps| - 1;
      RunKeepsLocation(t, steps[..n], h, at);
      RunKeeps(t, steps[..n]);
      RunKeepsWork(t, steps[..n], h, Key(0));
      StepKeepsLocation(After(t, steps[..n]), steps[n], h, at);
    }
  }

  /** A location that a load looked up loses its bytes only to the write of a job whose slot reaches into it,
      and only after a delete has given it back. */
  lemma StepLoses(t: Tier, step: Step, h: nat, at: Location)
    requires Inv(t) && Enabled(t, step) && h < |t.work| && t.work[h].Loading?
    requires at !in t.lost[h] && h < |Apply(t, step).lost| && at in Apply(t, step).lost[h]
    ensures step.WriteSome? && at !in t.store.sealed
    ensures !at.Disjoint(S.SlotOf(t.store, TaskAt(t, step.worker).job, step.index))
  {
    StepInStore(t, step, h);
    assert JobHolds(t, h);
    if step.WriteSome? {
      var job := TaskAt(t, step.worker).job;
      var slot, full := S.SlotOf(t.store, job, step.index), S.DataOf(t.store, job, step.index);
      assert S.PlanValid(t.store, job);
      assert t.store.plans[job].writes[step.index] in t.store.plans[job].writes;
      if at.Disjoint(slot) {
        S.PartKeeps(t.store.store.files, Write(slot.segment, slot.offset, full), step.bytes, at);
      }
    }
  }

  /* ---- rows ---- */

  /** A row changes only when the engine writes it, or when a running task of an active load that names
      it reads into it. Then no other active job fills it, and no active job stores it. */
  lemma RowsHaveOwners(t: Tier, step: Step, row: nat)
    requires Inv(t) && Enabled(t, step) && row < |t.rows|
    requires row < |Apply(t, step).rows| && Apply(t, step).rows[row] != t.rows[row]
    ensures if step.Engine? then step.row == row else
              && (step.ReadRow? || step.ReadPart?)
              && RunningAt(t, step.worker) && Active(t.pool, TaskAt(t, step.worker).job)
              && Fills(t.work[TaskAt(t, step.worker).job], row)
              && forall h: nat :: h < |t.work| && h != TaskAt(t, step.worker).job && Active(t.pool, h) ==> !Fills(t.work[h], row)
    ensures forall h: nat :: h < |t.work| && Active(t.pool, h) ==> !Uses(t.work[h], row)
  {
    if step.ReadRow? || step.ReadPart? {
      ReaderIsOpen(t, step.worker, step.entry);
    }
  }

  ghost predicate Loads(t: Tier, row: nat) {
    exists h: nat :: h < |t.work| && Fills(t.work[h], row)
  }

  lemma StepKeepsRow(t: Tier, step: Step, row: nat)
    requires Inv(t) && Enabled(t, step) && row < |t.rows|
    requires !(step.Engine? && step.row == row)
    ensures Loads(t, row) ==> Loads(Apply(t, step), row)
    ensures !Loads(Apply(t, step), row) ==> row < |Apply(t, step).rows| && Apply(t, step).rows[row] == t.rows[row]
  {
    if h: nat :| h < |t.work| && Fills(t.work[h], row) {
      StepKeepsWork(t, step, h);
      assert Fills(Apply(t, step).work[h], row);
    } else {
      BlockStaysOne(t, step);
      if Apply(t, step).rows[row] != t.rows[row] {
        RowsHaveOwners(t, step, row);
      }
    }
  }

  /** Rows that no load names and that the engine leaves alone keep their bytes over any run. */
  lemma {:induction false} OtherRowsUnchanged(t: Tier, steps: seq<Step>, row: nat)
    requires Inv(t) && CanRun(t, steps) && row < |t.rows|
    requires forall step :: step in steps && step.Engine? ==> step.row != row
    requires !Loads(After(t, steps), row)
    ensures row < |After(t, steps).rows| && After(t, steps).rows[row] == t.rows[row]
    decreases |steps|
  {
    if steps != [] {
      var n := |steps| - 1;
      assert steps[n] in steps;
      RunKeeps(t, steps[..n]);
      BlockStays(t, steps[..n]);
      StepKeepsRow(After(t, steps[..n]), steps[n], row);
      OtherRowsUnchanged(t, steps[..n], row);
    }
  }

  /* ---- waiting ---- */

  /** When no job is in flight, nothing reads or writes a row, and every job's report can be collected. */
  lemma DrainedMeansQuiet(t: Tier)
    requires Inv(t) && t.pool.pool.inflight == 0
    ensures forall k: nat :: !RunningAt(t, k)
    ensures t.store.plans == map[]
    ensures forall h: nat :: h < |t.work| ==> P.TimesReported(t.pool.reports, h) == 1
  {
    PoolRuns.ZeroMeansIdle(t.pool);
    forall h | h in t.store.plans ensures false {
      P.ReportsCounted(t.pool.reports, h);
      var r :| r in t.pool.reports && r.job == h;
      PlanIsUnreported(t, h, r);
    }
  }

  lemma PlanIsUnreported(t: Tier, h: nat, r: P.Report)
    requires Inv(t) && h < |t.work| && t.work[h].Storing? && r in t.pool.reports && r.job == h
    ensures h !in t.store.plans
  {
    assert JobHolds(t, h);
    assert JobMatches(t.pool.pool.jobs[h], t.work[h]);
    ReportedAfterCall(t.pool, r);
  }

  /** While a job is in flight, some worker can go on, whatever the store has done, and then has less to do. */
  lemma SomeJobGoesOn(t: Tier) returns (step: Step)
    requires Inv(t) && t.pool.pool.workers != [] && t.pool.pool.inflight > 0
    ensures Enabled(t, step) && PoolRuns.Measure(Apply(t, step).pool.pool) < PoolRuns.Measure(t.pool.pool)
  {
    var next := PoolRuns.SomeWorkerCanStep(t.pool);
    match next
    case Pop(k) =>
      step := Take(k);
      PoolRuns.WorkerStepsProgress(t.pool, next);
    case Finish(k, _) =>
      step := EndTask(k, false);
      PoolRuns.WorkerStepsProgress(t.pool, P.Finish(k, false));
    case Callback(k, _) =>
      var committed := t.pool.pool.workers[k].phase.success;
      step := Complete(k, committed, false);
      CompleteIsEnabled(t, k, committed, false);
      PoolRuns.WorkerStepsProgress(t.pool, P.Callback(k, false));
    case Deliver(k) =>
      step := Report(k);
      PoolRuns.WorkerStepsProgress(t.pool, next);
  }
}
