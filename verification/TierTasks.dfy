/** The tasks of the tier as runs of its protocol: whatever the methods that write and read a whole group
    leave behind, single steps of their worker leave behind too. */
module TierTasks {
  import opened Basics
  import opened Wrappers
  import opened SegmentFiles
  import opened SegmentReads
  import opened SegmentAllocation
  import opened SegmentModel
  import opened Disks
  import opened LoadTasks
  import opened TierProtocol
  import opened TierSteps
  import opened TierRuns
  import opened StoreRoundTrip
  import SegmentStores
  import S = StoreProtocol
  import P = PoolProtocol

  /* ---- write tasks ---- */

  lemma {:induction false} AddWriteMembers(groups: seq<seq<SegmentWrite>>, w: SegmentWrite, i: nat, e: SegmentWrite)
    requires i < |AddWrite(groups, w)| && e in AddWrite(groups, w)[i]
    ensures e == w || exists j: nat :: j < |groups| && e in groups[j]
  {
    if groups != [] && !IsGroup(groups[0], w.segment) && i > 0 {
      AddWriteMembers(groups[1..], w, i - 1, e);
      if e != w {
        var j: nat :| j < |groups[1..]| && e in groups[1..][j];
        assert e in groups[j + 1];
      }
    } else if groups != [] {
      assert e != w ==> e in groups[i];
    }
  }

  /** The groups of a plan hold writes of the plan only. */
  lemma {:induction false} GroupsInPlan(plan: seq<SegmentWrite>, i: nat, e: SegmentWrite)
    requires i < |GroupWrites(plan)| && e in GroupWrites(plan)[i]
    ensures e in plan
  {
    var n := |plan| - 1;
    AddWriteMembers(GroupWrites(plan[..n]), plan[n], i, e);
    if e != plan[n] {
      var j: nat :| j < |GroupWrites(plan[..n])| && e in GroupWrites(plan[..n])[j];
      GroupsInPlan(plan[..n], j, e);
    }
  }

  /** Worker `k` runs the task that writes `group`, of a job whose plan is open. */
  ghost predicate Writing(t: Tier, k: nat, group: seq<SegmentWrite>) {
    && RunningAt(t, k)
    && var task := TaskAt(t, k); var w := t.work[task.job];
    && w.Storing? && task.index < |w.groups| && group == w.groups[task.index]
    && task.job in t.store.plans && w.plan == t.store.plans[task.job].writes
    && (forall e :: e in group ==> e in w.plan)
    && (forall e :: e in group ==> e.block < |t.rows|)
  }

  /** The open task of a store is one of these. */
  lemma RunningIsWriting(t: Tier, k: nat)
    requires Inv(t) && RunningAt(t, k) && t.work[TaskAt(t, k).job].Storing? && t.work[TaskAt(t, k).job].plan != []
    ensures TaskAt(t, k).index < |t.work[TaskAt(t, k).job].groups|
    ensures Writing(t, k, t.work[TaskAt(t, k).job].groups[TaskAt(t, k).index])
  {
    var task, h := TaskAt(t, k), TaskAt(t, k).job;
    P.RunningIsOpen(t.pool, k);
    assert JobMatches(t.pool.pool.jobs[h], t.work[h]);
    assert JobHolds(t, h);
    assert P.NotCalledYet(t.pool.pool.jobs, t.pool.calls);
    GroupsCoverPlan(t.work[h].plan, t.work[h].plan[0]);
    forall e | e in t.work[h].groups[task.index] ensures e in t.work[h].plan {
      GroupsInPlan(t.work[h].plan, task.index, e);
    }
  }

  /** Only the files of the store and what is done of the job's plan have changed. */
  ghost predicate OnlyFiles(t: Tier, u: Tier, job: nat) {
    && u.pool == t.pool && u.rows == t.rows && u.files == t.files && u.work == t.work && u.removed == t.removed
    && u.store.g == t.store.g && u.store.issued == t.store.issued && u.store.sealed == t.store.sealed
    && u.store.store.(files := t.store.store.files) == t.store.store
    && u.store.plans.Keys == t.store.plans.Keys
    && (forall j :: j in t.store.plans && j != job ==> u.store.plans[j] == t.store.plans[j])
    && (job in t.store.plans ==> PlanGrows(t.store.plans[job], u.store.plans[job]))
  }

  ghost predicate DoneUpTo(t: Tier, job: nat, group: seq<SegmentWrite>, n: nat) {
    job in t.store.plans && n <= |group| &&
    forall j: nat :: j < |t.store.plans[job].writes| && t.store.plans[job].writes[j] in group[..n] ==> j in t.store.plans[job].done
  }

  lemma PlanKeysApart(t: Tier, job: nat, i: nat, j: nat)
    requires Inv(t) && job in t.store.plans && i < |t.store.plans[job].writes| && j < |t.store.plans[job].writes|
    requires t.store.plans[job].writes[i] == t.store.plans[job].writes[j]
    ensures i == j
  {
    assert S.PlanValid(t.store, job);
  }

  lemma EntryEnabled(t: Tier, k: nat, group: seq<SegmentWrite>, n: nat, bytes: nat) returns (j: nat)
    requires Inv(t) && Writing(t, k, group) && n < |group| && bytes <= t.store.g.block
    ensures j < |t.work[TaskAt(t, k).job].plan| && t.work[TaskAt(t, k).job].plan[j] == group[n]
    ensures Enabled(t, WriteSome(k, j, bytes))
    ensures |t.rows[group[n].block]| == t.store.g.block
  {
    var h := TaskAt(t, k).job;
    assert group[n] in group;
    j :| 0 <= j < |t.work[h].plan| && t.work[h].plan[j] == group[n];
    assert S.PlanValid(t.store, h);
    assert t.store.plans[h].writes[j] in t.store.plans[h].writes;
    assert JobHolds(t, h);
  }

  lemma EntryLeaves(t: Tier, k: nat, group: seq<SegmentWrite>, n: nat, bytes: nat, j: nat)
    requires Inv(t) && Writing(t, k, group) && n < |group|
    requires j < |t.work[TaskAt(t, k).job].plan| && t.work[TaskAt(t, k).job].plan[j] == group[n]
    requires Enabled(t, WriteSome(k, j, bytes))
    ensures var u, e := Apply(t, WriteSome(k, j, bytes)), group[n];
      && OnlyFiles(t, u, TaskAt(t, k).job) && Writing(u, k, group) && e.block < |t.rows| && bytes <= |t.rows[e.block]|
      && u.store.store.files == WriteOne(t.store.store.files, Write(e.segment, e.offset, t.rows[e.block][..bytes]))
  {
    WritesTheRow(t, k, j, bytes);
  }

  lemma EntryDone(t: Tier, k: nat, group: seq<SegmentWrite>, n: nat, j: nat)
    requires Inv(t) && Writing(t, k, group) && n < |group| && DoneUpTo(t, TaskAt(t, k).job, group, n)
    requires j < |t.work[TaskAt(t, k).job].plan| && t.work[TaskAt(t, k).job].plan[j] == group[n]
    requires Enabled(t, WriteSome(k, j, t.store.g.block))
    ensures DoneUpTo(Apply(t, WriteSome(k, j, t.store.g.block)), TaskAt(t, k).job, group, n + 1)
  {
    var h, u := TaskAt(t, k).job, Apply(t, WriteSome(k, j, t.store.g.block));
    assert S.PlanValid(t.store, h);
    assert t.store.plans[h].writes[j] in t.store.plans[h].writes;
    assert j in u.store.plans[h].done;
    forall i: nat | i < |t.store.plans[h].writes| && t.store.plans[h].writes[i] in group[..n + 1]
      ensures i in u.store.plans[h].done
    {
      if t.store.plans[h].writes[i] == group[n] {
        PlanKeysApart(t, h, i, j);
      } else {
        assert t.store.plans[h].writes[i] in group[..n];
      }
    }
  }

  lemma ResolveNext(group: seq<SegmentWrite>, rows: seq<Bytes>, n: nat, files: Files)
    requires n < |group| && forall e :: e in group ==> e.block < |rows|
    ensures WriteAll(files, Resolve(group[..n + 1], rows))
         == WriteOne(WriteAll(files, Resolve(group[..n], rows)), Write(group[n].segment, group[n].offset, rows[group[n].block]))
  {
    var w := Write(group[n].segment, group[n].offset, rows[group[n].block]);
    assert Resolve(group[..n + 1], rows) == Resolve(group[..n], rows) + [w];
    WriteAllAppend(files, Resolve(group[..n], rows), [w]);
    OneWrite(WriteAll(files, Resolve(group[..n], rows)), w);
  }

  lemma NoneWritten(t: Tier, k: nat, group: seq<SegmentWrite>)
    requires Inv(t) && Writing(t, k, group)
    ensures Written(t, t, k, group, 0)
  {
    Starts(t);
    assert Resolve(group[..0], t.rows) == [];
  }

  /** From `t` the worker's steps reach `u`, where `n` entries of the group are written. */
  ghost predicate Written(t: Tier, u: Tier, k: nat, group: seq<SegmentWrite>, n: nat)
    requires Writing(t, k, group)
  {
    && CanReach(t, u) && Inv(u) && Writing(u, k, group) && OnlyFiles(t, u, TaskAt(t, k).job)
    && n <= |group| && DoneUpTo(u, TaskAt(t, k).job, group, n)
    && (forall e :: e in group[..n] ==> e.block < |t.rows|)
    && u.store.store.files == WriteAll(t.store.store.files, Resolve(group[..n], t.rows))
  }

  ghost predicate CanWrite(t: Tier, k: nat, group: seq<SegmentWrite>, n: nat)
    requires Writing(t, k, group)
  {
    exists u :: Written(t, u, k, group, n)
  }

  lemma {:induction false} MoreWritten(t: Tier, k: nat, group: seq<SegmentWrite>, m: nat, n: nat)
    requires Writing(t, k, group) && m <= n <= |group| && CanWrite(t, k, group, m)
    ensures CanWrite(t, k, group, n)
    decreases n - m
  {
    if m < n {
      OneMore(t, k, group, m);
      MoreWritten(t, k, group, m + 1, n);
    }
  }

  lemma OneMore(t: Tier, k: nat, group: seq<SegmentWrite>, n: nat)
    requires Writing(t, k, group) && n < |group| && CanWrite(t, k, group, n)
    ensures CanWrite(t, k, group, n + 1)
  {
    var v :| Written(t, v, k, group, n);
    var u := EntryWritten(t, v, k, group, n);
  }

  lemma EntriesWritten(t: Tier, k: nat, group: seq<SegmentWrite>, n: nat) returns (u: Tier)
    requires Inv(t) && Writing(t, k, group) && n <= |group|
    ensures Written(t, u, k, group, n)
  {
    NoneWritten(t, k, group);
    MoreWritten(t, k, group, 0, n);
    u :| Written(t, u, k, group, n);
  }

  lemma OnlyFilesTwice(t: Tier, v: Tier, u: Tier, job: nat)
    requires OnlyFiles(t, v, job) && OnlyFiles(v, u, job)
    ensures OnlyFiles(t, u, job)
  {
  }

  /** One more step of the worker, which writes the first bytes of the next entry. */
  lemma EntryStep(t: Tier, v: Tier, k: nat, group: seq<SegmentWrite>, n: nat, bytes: nat) returns (u: Tier)
    requires CanReach(t, v) && Inv(v) && Writing(v, k, group) && n < |group| && bytes <= v.store.g.block
    requires RunningAt(t, k) && OnlyFiles(t, v, TaskAt(t, k).job) && DoneUpTo(v, TaskAt(t, k).job, group, n)
    ensures CanReach(t, u) && Inv(u) && Writing(u, k, group) && OnlyFiles(t, u, TaskAt(t, k).job)
    ensures group[n].block < |t.rows| && |t.rows[group[n].block]| == v.store.g.block
    ensures var e := group[n];
      u.store.store.files == WriteOne(v.store.store.files, Write(e.segment, e.offset, t.rows[e.block][..bytes]))
    ensures bytes == v.store.g.block ==> DoneUpTo(u, TaskAt(t, k).job, group, n + 1)
  {
    var j := EntryEnabled(v, k, group, n, bytes);
    EntryLeaves(v, k, group, n, bytes, j);
    if bytes == v.store.g.block {
      EntryDone(v, k, group, n, j);
    }
    StepKeeps(v, WriteSome(k, j, bytes));
    Further(t, v, WriteSome(k, j, bytes));
    u := Apply(v, WriteSome(k, j, bytes));
    OnlyFilesTwice(t, v, u, TaskAt(t, k).job);
  }

  lemma EntryWritten(t: Tier, v: Tier, k: nat, group: seq<SegmentWrite>, n: nat) returns (u: Tier)
    requires Writing(t, k, group) && n < |group| && Written(t, v, k, group, n)
    ensures Written(t, u, k, group, n + 1)
  {
    u := EntryStep(t, v, k, group, n, v.store.g.block);
    EntryWhole(t.rows[group[n].block], v.store.g.block);
    ResolveNext(group, t.rows, n, t.store.store.files);
  }

  lemma EntryWhole(row: Bytes, size: nat)
    requires |row| == size
    ensures row[..size] == row
  {
  }

  /** What a write task leaves when it succeeds, its worker's steps leave too, and then may end it well. */
  lemma WriteTaskIsRun(t: Tier, k: nat, group: seq<SegmentWrite>) returns (u: Tier)
    requires Inv(t) && Writing(t, k, group)
    ensures CanReach(t, u) && OnlyFiles(t, u, TaskAt(t, k).job)
    ensures u.store.store.files == WriteAll(t.store.store.files, Resolve(group, t.rows))
    ensures Enabled(u, EndTask(k, true))
  {
    u := EntriesWritten(t, k, group, |group|);
    assert group[..|group|] == group;
    var h := TaskAt(t, k).job;
    assert GroupDone(u.store.plans[h], u.work[h].groups, TaskAt(t, k).index);
    RunningCanEnd(u, k);
  }

  lemma RunningCanEnd(t: Tier, k: nat)
    requires Inv(t) && RunningAt(t, k)
    ensures P.Enabled(t.pool, P.Finish(k, true)) && Enabled(t, EndTask(k, false))
  {
  }

  /** ... and so it is when it fails: with the first entries written, and part of the next. */
  lemma CutTaskIsRun(t: Tier, k: nat, group: seq<SegmentWrite>, done: nat, rest: nat) returns (u: Tier)
    requires Inv(t) && Writing(t, k, group) && done < |group| && rest < t.store.g.block
    ensures |t.rows[group[done].block]| == t.store.g.block
    ensures CanReach(t, u) && OnlyFiles(t, u, TaskAt(t, k).job)
    ensures u.store.store.files == WriteCut(t.store.store.files, Resolve(group, t.rows), done, rest)
    ensures Enabled(u, EndTask(k, false))
  {
    var v := EntriesWritten(t, k, group, done);
    u := EntryStep(t, v, k, group, done, rest);
    RunningCanEnd(u, k);
    CutAfter(t.store.store.files, group, t.rows, done, rest);
  }

  lemma CutAfter(files: Files, group: seq<SegmentWrite>, rows: seq<Bytes>, done: nat, rest: nat)
    requires (forall e :: e in group ==> e.block < |rows|) && done < |group| && rest <= |rows[group[done].block]|
    ensures var e := group[done];
      WriteCut(files, Resolve(group, rows), done, rest)
      == WriteOne(WriteAll(files, Resolve(group[..done], rows)), Write(e.segment, e.offset, rows[e.block][..rest]))
  {
    assert Resolve(group, rows)[..done] == Resolve(group[..done], rows);
  }

  /* ---- load tasks ---- */

  /** Worker `k` runs the task that reads the blocks of `task` from one segment. */
  ghost predicate LoadingTask(t: Tier, k: nat, task: seq<LoadEntry>) {
    && RunningAt(t, k)
    && var w := t.work[TaskAt(t, k).job];
    && w.Loading? && TaskAt(t, k).index < |w.tasks| && task == w.tasks[TaskAt(t, k).index]
    && (forall e :: e in task ==> e.block < |t.rows|)
  }

  lemma RunningIsLoading(t: Tier, k: nat)
    requires Inv(t) && RunningAt(t, k) && t.work[TaskAt(t, k).job].Loading?
    ensures TaskAt(t, k).index < |t.work[TaskAt(t, k).job].tasks|
    ensures LoadingTask(t, k, t.work[TaskAt(t, k).job].tasks[TaskAt(t, k).index])
  {
    var task, h := TaskAt(t, k), TaskAt(t, k).job;
    P.RunningIsOpen(t.pool, k);
    assert JobMatches(t.pool.pool.jobs[h], t.work[h]);
    assert JobHolds(t, h);
  }

  predicate FromSegments(task: seq<LoadEntry>) {
    forall e :: e in task ==> e.place.InSegment?
  }

  /** What the load of a segment task is given. */
  function PlacesOf(task: seq<LoadEntry>): seq<Option<Location>>
    requires FromSegments(task)
  {
    seq(|task|, i requires 0 <= i < |task| => assert task[i] in task; Some(task[i].place.at))
  }

  function BlocksOf(task: seq<LoadEntry>): seq<nat> {
    seq(|task|, i requires 0 <= i < |task| => task[i].block)
  }

  /** Only rows of the view, and what the job has got of them, have changed. */
  ghost predicate OnlyRows(t: Tier, u: Tier, job: nat) {
    && u.pool == t.pool && u.store == t.store && u.files == t.files && u.removed == t.removed && u.lost == t.lost
    && |u.rows| == |t.rows| && |u.work| == |t.work|
    && (forall j: nat :: j < |t.work| && j != job ==> u.work[j] == t.work[j])
    && (job < |t.work| ==> SameWork(t.work[job], u.work[job]))
  }

  /** A read stands for an entry of the task, and can be made. */
  ghost predicate ReadOf(t: Tier, task: seq<LoadEntry>, r: Read) {
    && r.at.length == t.store.g.block && Readable(t.store.store.files, r.at)
    && exists e :: e in task && e.place == InSegment(r.at) && e.block == r.block
  }

  ghost predicate Got(t: Tier, job: nat, rs: seq<Read>) {
    job < |t.work| && t.work[job].Loading? && forall r :: r in rs ==> r.block in t.work[job].got
  }

  lemma ReadStep(t: Tier, v: Tier, k: nat, task: seq<LoadEntry>, rs: seq<Read>, r: Read) returns (u: Tier)
    requires CanReach(t, v) && v.store.g.Valid() && LoadingTask(v, k, task) && ReadOf(v, task, r) && RunningAt(t, k)
    requires OnlyRows(t, v, TaskAt(t, k).job) && Got(v, TaskAt(t, k).job, rs)
    ensures CanReach(t, u) && LoadingTask(u, k, task) && OnlyRows(t, u, TaskAt(t, k).job) && Got(u, TaskAt(t, k).job, rs + [r])
    ensures r.block < |v.rows| && u.rows == v.rows[r.block := BytesAt(t.store.store.files, r.at)]
  {
    var e :| e in task && e.place == InSegment(r.at) && e.block == r.block;
    Further(t, v, ReadRow(k, e));
    u := Apply(v, ReadRow(k, e));
  }

  /** From `t` the worker's steps reach `u`, where the first `n` reads are made, in this order. */
  ghost predicate ReadsDone(t: Tier, u: Tier, k: nat, task: seq<LoadEntry>, rs: seq<Read>, n: nat)
    requires RunningAt(t, k) && n <= |rs|
  {
    && CanReach(t, u) && LoadingTask(u, k, task) && OnlyRows(t, u, TaskAt(t, k).job) && Got(u, TaskAt(t, k).job, rs[..n])
    && CanRead(t.store.store.files, |t.rows|, rs[..n])
    && u.rows == ReadEach(t.store.store.files, t.rows, rs[..n])
  }

  lemma ReadDone(t: Tier, v: Tier, k: nat, task: seq<LoadEntry>, rs: seq<Read>, n: nat) returns (u: Tier)
    requires t.store.g.Valid() && RunningAt(t, k) && n < |rs| && ReadOf(t, task, rs[n]) && ReadsDone(t, v, k, task, rs, n)
    ensures ReadsDone(t, u, k, task, rs, n + 1)
  {
    u := ReadStep(t, v, k, task, rs[..n], rs[n]);
    assert rs[..n + 1] == rs[..n] + [rs[n]];
    ReadEachNext(t.store.store.files, t.rows, rs[..n], rs[n]);
  }

  lemma {:induction false} ReadsMade(t: Tier, k: nat, task: seq<LoadEntry>, rs: seq<Read>, n: nat) returns (u: Tier)
    requires t.store.g.Valid() && LoadingTask(t, k, task) && n <= |rs|
    requires forall r :: r in rs ==> ReadOf(t, task, r)
    ensures ReadsDone(t, u, k, task, rs, n)
  {
    if n == 0 {
      u := t;
      Starts(t);
    } else {
      var v := ReadsMade(t, k, task, rs, n - 1);
      assert rs[n - 1] in rs;
      u := ReadDone(t, v, k, task, rs, n - 1);
    }
  }

  lemma ReadEachNext(files: Files, rows: seq<Bytes>, rs: seq<Read>, r: Read)
    requires CanRead(files, |rows|, rs) && Readable(files, r.at) && r.block < |rows|
    ensures CanRead(files, |rows|, rs + [r])
    ensures ReadEach(files, rows, rs + [r]) == ReadEach(files, rows, rs)[r.block := BytesAt(files, r.at)]
  {
    ReadEachAppend(files, rows, rs, [r]);
    assert [r][1..] == [];
  }

  /** What a load of a segment leaves when it succeeds, its worker's steps leave too, and then may end it well. */
  lemma LoadTaskIsRun(t: Tier, k: nat, task: seq<LoadEntry>, after: seq<Bytes>) returns (u: Tier)
    requires Inv(t) && LoadingTask(t, k, task) && FromSegments(task)
    requires SegmentStores.LoadedInto(t.store.store.files, t.rows, after, PlacesOf(task), BlocksOf(task), t.store.g.block)
    ensures CanReach(t, u) && OnlyRows(t, u, TaskAt(t, k).job) && u.rows == after
    ensures Enabled(u, EndTask(k, true))
  {
    var rs := SegmentStores.ReadsOf(PlacesOf(task), BlocksOf(task));
    ReadsOfTask(t, task, after, rs);
    u := ReadsMade(t, k, task, SortReads(rs), |SortReads(rs)|);
    assert SortReads(rs)[..|SortReads(rs)|] == SortReads(rs);
    AllGot(u, k, task, rs);
    RunningCanEnd(t, k);
  }

  lemma ReadsOfTask(t: Tier, task: seq<LoadEntry>, after: seq<Bytes>, rs: seq<Read>)
    requires FromSegments(task) && rs == SegmentStores.ReadsOf(PlacesOf(task), BlocksOf(task))
    requires SegmentStores.LoadedInto(t.store.store.files, t.rows, after, PlacesOf(task), BlocksOf(task), t.store.g.block)
    ensures forall r :: r in SortReads(rs) ==> ReadOf(t, task, r)
  {
    SortMembers(rs);
    forall r | r in SortReads(rs) ensures ReadOf(t, task, r) {
      var i: nat :| i < |rs| && rs[i] == r;
      assert task[i] in task;
    }
  }

  lemma AllGot(t: Tier, k: nat, task: seq<LoadEntry>, rs: seq<Read>)
    requires LoadingTask(t, k, task) && FromSegments(task) && rs == SegmentStores.ReadsOf(PlacesOf(task), BlocksOf(task))
    requires Got(t, TaskAt(t, k).job, SortReads(rs))
    ensures TaskGot(t.work[TaskAt(t, k).job], TaskAt(t, k).index)
  {
    SortMembers(rs);
    forall e | e in task ensures e.block in t.work[TaskAt(t, k).job].got {
      var i: nat :| i < |task| && task[i] == e;
      assert rs[i] in rs;
    }
  }

  /** The rows of the first `n` entries are those of `after`, the others those of `before`. */
  ghost predicate Mixed(before: seq<Bytes>, now: seq<Bytes>, after: seq<Bytes>, blocks: seq<nat>, n: nat) {
    && |now| == |before| == |after| && n <= |blocks|
    && forall b: nat :: b < |now| ==> now[b] == if b in blocks[..n] then after[b] else before[b]
  }

  lemma PartStep(t: Tier, v: Tier, k: nat, task: seq<LoadEntry>, after: seq<Bytes>, n: nat) returns (u: Tier)
    requires CanReach(t, v) && v.store.g.Valid() && LoadingTask(v, k, task) && n < |task| && RunningAt(t, k)
    requires OnlyRows(t, v, TaskAt(t, k).job) && RowsSized(after, v.store.g.block) && Mixed(t.rows, v.rows, after, BlocksOf(task), n)
    ensures CanReach(t, u) && u.store.g.Valid() && LoadingTask(u, k, task) && OnlyRows(t, u, TaskAt(t, k).job)
    ensures Mixed(t.rows, u.rows, after, BlocksOf(task), n + 1)
  {
    var e := task[n];
    assert e in task;
    var step := ReadPart(k, e, after[e.block]);
    Further(t, v, step);
    u := Apply(v, step);
    MixedNext(t.rows, v.rows, after, BlocksOf(task), n);
  }

  lemma MixedNext(before: seq<Bytes>, now: seq<Bytes>, after: seq<Bytes>, blocks: seq<nat>, n: nat)
    requires n < |blocks| && Mixed(before, now, after, blocks, n) && blocks[n] < |now|
    ensures Mixed(before, now[blocks[n] := after[blocks[n]]], after, blocks, n + 1)
  {
    assert blocks[..n + 1] == blocks[..n] + [blocks[n]];
  }

  lemma {:induction false} PartsRead(t: Tier, k: nat, task: seq<LoadEntry>, after: seq<Bytes>, n: nat) returns (u: Tier)
    requires t.store.g.Valid() && LoadingTask(t, k, task) && n <= |task| && |after| == |t.rows| && RowsSized(after, t.store.g.block)
    ensures CanReach(t, u) && u.store.g.Valid() && LoadingTask(u, k, task) && OnlyRows(t, u, TaskAt(t, k).job)
    ensures Mixed(t.rows, u.rows, after, BlocksOf(task), n)
  {
    if n == 0 {
      u := t;
      Starts(t);
    } else {
      var v := PartsRead(t, k, task, after, n - 1);
      u := PartStep(t, v, k, task, after, n - 1);
    }
  }

  /** ... and so it is when a load of a segment fails, whatever it has left in its own rows. */
  lemma FailedLoadIsRun(t: Tier, k: nat, task: seq<LoadEntry>, after: seq<Bytes>) returns (u: Tier)
    requires Inv(t) && LoadingTask(t, k, task)
    requires OtherRowsKept(t.rows, after, BlocksOf(task)) && RowsSized(after, t.store.g.block)
    ensures CanReach(t, u) && OnlyRows(t, u, TaskAt(t, k).job) && u.rows == after
    ensures Enabled(u, EndTask(k, false))
  {
    u := PartsRead(t, k, task, after, |task|);
    assert BlocksOf(task)[..|task|] == BlocksOf(task);
    RunningCanEnd(t, k);
  }
}
