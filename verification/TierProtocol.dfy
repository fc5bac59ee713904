/** Store and load jobs from submission to report: the segment store, the worker pool and the rows of
    the primary view together, over every interleaving of their steps. */
module TierProtocol {
  import opened Basics
  import opened Wrappers
  import opened SegmentFiles
  import opened SegmentAllocation
  import opened SegmentModel
  import opened LoadTasks
  import StoreRoundTrip
  import S = StoreProtocol
  import P = PoolProtocol

  /** What a job is to do. As history, a store remembers the rows at its submission; a load the bytes that
      every location and every block file held at its submission, and the rows that it has filled. */
  datatype Work =
    | Storing(keys: seq<Key>, plan: seq<SegmentWrite>, groups: seq<seq<SegmentWrite>>, view: seq<Bytes>)
    | Loading(tasks: seq<seq<LoadEntry>>, sealed: map<Location, Bytes>, files: map<Key, Bytes>, got: set<nat>)

  /** A job's handle is its place in the order of submission: in the pool, in the plans of the store,
      and in `work`. History, for each job: the keys deleted since its submission, and the locations
      that have not kept the bytes they held at its submission. */
  datatype Tier = Tier(
    store: S.System, pool: P.System, rows: seq<Bytes>, files: map<Key, Bytes>,
    work: seq<Work>, removed: seq<set<Key>>, lost: seq<set<Location>>)

  datatype Step =
    | SubmitStore(id: nat, keys: seq<Key>, blocks: seq<nat>)
    | SubmitLoad(id: nat, keys: seq<Key>, blocks: seq<nat>)
    | Take(worker: nat)
    | WriteSome(worker: nat, index: nat, bytes: nat)
    | ReadRow(worker: nat, entry: LoadEntry)
    | ReadPart(worker: nat, entry: LoadEntry, junk: Bytes)
    | EndTask(worker: nat, ok: bool)
    | Complete(worker: nat, committed: bool, raised: bool)
    | Report(worker: nat)
    | Drain
    | LookUp(keys: seq<Key>)
    | Delete(removed: set<Key>, unlinked: set<Key>)
    | Engine(row: nat, data: Bytes)

  /** One task for each group, or one that does nothing. */
  function GroupTasks(groups: seq<seq<SegmentWrite>>): nat {
    if groups == [] then 1 else |groups|
  }

  function TaskCount(w: Work): nat {
    match w
    case Storing(_, _, groups, _) => GroupTasks(groups)
    case Loading(tasks, _, _, _) => |tasks|
  }

  predicate Uses(w: Work, row: nat) {
    w.Storing? && exists e :: e in w.plan && e.block == row
  }

  ghost predicate Fills(w: Work, row: nat) {
    w.Loading? && exists e :: InSome(w.tasks, e) && e.block == row
  }

  /** A job is active until its report is handed over: that long its rows stay pinned. */
  predicate Active(p: P.System, h: nat) {
    h < |p.pool.jobs| && forall i :: 0 <= i < |p.delivered| && i < |p.reports| ==> p.reports[i].job != h
  }

  predicate RunningAt(t: Tier, worker: nat) {
    && worker < |t.pool.pool.workers| && t.pool.pool.workers[worker].phase.Running?
    && t.pool.pool.workers[worker].phase.task.job < |t.work|
  }

  function TaskAt(t: Tier, worker: nat): P.Task
    requires RunningAt(t, worker)
  {
    t.pool.pool.workers[worker].phase.task
  }

  predicate Reads(t: Tier, worker: nat, e: LoadEntry) {
    && RunningAt(t, worker)
    && var task := TaskAt(t, worker); var w := t.work[task.job];
    && w.Loading? && task.index < |w.tasks| && e in w.tasks[task.index] && e.block < |t.rows|
  }

  /** The bytes that reading an entry's block yields, when it can be read in full. */
  function Content(store: Store, files: map<Key, Bytes>, e: LoadEntry, size: nat): Option<Bytes> {
    match e.place
    case InSegment(at) => if at.length == size && Readable(store.files, at) then Some(BytesAt(store.files, at)) else None
    case InFile => if e.key in files && size <= |files[e.key]| then Some(files[e.key][..size]) else None
  }

  /** A write task succeeds when it has written all its entries. */
  ghost predicate GroupDone(plan: S.Plan, groups: seq<seq<SegmentWrite>>, i: nat) {
    forall j: nat :: j < |plan.writes| && i < |groups| && plan.writes[j] in groups[i] ==> j in plan.done
  }

  predicate TaskGot(w: Work, i: nat)
    requires w.Loading?
  {
    i < |w.tasks| ==> forall e :: e in w.tasks[i] ==> e.block in w.got
  }

  ghost predicate MayEnd(t: Tier, worker: nat) {
    && RunningAt(t, worker)
    && var task := TaskAt(t, worker); var w := t.work[task.job];
    && (w.Loading? ==> TaskGot(w, task.index))
    && (w.Storing? ==> task.job in t.store.plans && GroupDone(t.store.plans[task.job], w.groups, task.index))
  }

  /** The step that a completion callback makes in the store. */
  function Closing(h: nat, committed: bool, raised: bool): S.Step {
    if committed then S.Publish(h, !raised) else S.Abandon(h)
  }

  ghost predicate Enabled(t: Tier, step: Step) {
    match step
    case SubmitStore(id, keys, blocks) =>
      && S.Enabled(t.store, S.Prepare(|t.work|, keys, blocks, t.rows))
      && forall b, h: nat :: b in blocks && h < |t.work| && Active(t.pool, h) ==> !Fills(t.work[h], b)
    case SubmitLoad(id, keys, blocks) =>
      && keys != [] && blocks != []
      && var used := blocks[..Pairs(keys, blocks)];
      && Distinct(used)
      && (forall b :: b in used ==> b < |t.rows|)
      && forall b, h: nat :: b in used && h < |t.work| && Active(t.pool, h) ==> !Fills(t.work[h], b) && !Uses(t.work[h], b)
    case Take(k) => P.Enabled(t.pool, P.Pop(k))
    case WriteSome(k, j, bytes) =>
      && RunningAt(t, k)
      && var task := TaskAt(t, k); var w := t.work[task.job];
      && w.Storing? && task.index < |w.groups| && j < |w.plan| && w.plan[j] in w.groups[task.index]
      && S.Enabled(t.store, S.WritePart(task.job, j, bytes))
    case ReadRow(k, e) => Reads(t, k, e) && Content(t.store.store, t.files, e, t.store.g.block).Some?
    case ReadPart(k, e, junk) => Reads(t, k, e) && |junk| == t.store.g.block
    case EndTask(k, ok) => P.Enabled(t.pool, P.Finish(k, ok)) && (ok ==> MayEnd(t, k))
    case Complete(k, committed, raised) =>
      && P.Enabled(t.pool, P.Callback(k, raised))
      && (if t.pool.pool.workers[k].phase.success then committed || raised else !committed && !raised)
      && S.Enabled(t.store, Closing(t.pool.pool.workers[k].phase.job, committed, raised))
    case Report(k) => P.Enabled(t.pool, P.Deliver(k))
    case Drain => true
    case LookUp(_) => true
    case Delete(_, _) => true
    case Engine(row, data) =>
      && row < |t.rows| && |data| == t.store.g.block
      && forall h: nat :: h < |t.work| && Active(t.pool, h) ==> !Fills(t.work[h], row) && !Uses(t.work[h], row)
  }

  predicate Holds(files: Files, at: Location, data: Bytes) {
    Readable(files, at) && BytesAt(files, at) == data
  }

  /** The locations that do not hold what they held when a load was submitted. */
  function Gone(files: Files, w: Work): set<Location> {
    match w
    case Storing(_, _, _, _) => {}
    case Loading(_, sealed, _, _) => set at | at in sealed && !Holds(files, at, sealed[at])
  }

  function LostBy(t: Tier, files: Files): seq<set<Location>> {
    seq(|t.lost|, h requires 0 <= h < |t.lost| => t.lost[h] + if h < |t.work| then Gone(files, t.work[h]) else {})
  }

  /** A step of the store alone. */
  ghost function InStore(t: Tier, step: S.Step): Tier
    requires t.store.g.Valid() && S.Enabled(t.store, step)
  {
    var store := S.Apply(t.store, step);
    t.(store := store, lost := LostBy(t, store.store.files))
  }

  function InPool(t: Tier, step: P.Step): Tier
    requires P.Enabled(t.pool, step)
  {
    t.(pool := P.Apply(t.pool, step))
  }

  function Fill(t: Tier, h: nat, row: nat, data: Bytes, whole: bool): Tier
    requires row < |t.rows| && h < |t.work| && t.work[h].Loading?
  {
    var w := t.work[h];
    t.(rows := t.rows[row := data],
       work := t.work[h := w.(got := if whole then w.got + {row} else w.got - {row})])
  }

  ghost function LoadWork(t: Tier, keys: seq<Key>, blocks: seq<nat>): Work {
    var n := Pairs(keys, blocks);
    Loading(TasksFor(keys[..n], blocks[..n], Locations(t.store.store, keys[..n])), t.store.sealed, t.files, {})
  }

  /** Another job is known from now on. */
  function Join(t: Tier, w: Work): Tier {
    t.(work := t.work + [w], removed := t.removed + [{}], lost := t.lost + [{}])
  }

  ghost function Apply(t: Tier, step: Step): Tier
    requires t.store.g.Valid() && Enabled(t, step)
  {
    match step
    case SubmitStore(id, keys, blocks) =>
      var t1 := InStore(t, S.Prepare(|t.work|, keys, blocks, t.rows));
      var plan := t1.store.plans[|t.work|].writes;
      var w := Storing(keys, plan, StoreRoundTrip.GroupWrites(plan), t.rows);
      Join(InPool(t1, P.Enqueue(false, id, TaskCount(w), true)), w)
    case SubmitLoad(id, keys, blocks) =>
      var w := LoadWork(t, keys, blocks);
      LoadTasksNonempty(t, keys, blocks);
      Join(InPool(InStore(t, S.LookUp(keys)), P.Enqueue(true, id, TaskCount(w), false)), w)
    case Take(k) => InPool(t, P.Pop(k))
    case WriteSome(k, j, bytes) => InStore(t, S.WritePart(TaskAt(t, k).job, j, bytes))
    case ReadRow(k, e) =>
      Fill(t, TaskAt(t, k).job, e.block, Content(t.store.store, t.files, e, t.store.g.block).value, true)
    case ReadPart(k, e, junk) => Fill(t, TaskAt(t, k).job, e.block, junk, false)
    case EndTask(k, ok) => InPool(t, P.Finish(k, ok))
    case Complete(k, committed, raised) =>
      InPool(InStore(t, Closing(t.pool.pool.workers[k].phase.job, committed, raised)), P.Callback(k, raised))
    case Report(k) => InPool(t, P.Deliver(k))
    case Drain => InPool(t, P.Drain)
    case LookUp(keys) => InStore(t, S.LookUp(keys))
    case Delete(keys, unlinked) =>
      InStore(t, S.Remove(keys)).(files := t.files - unlinked,
        removed := seq(|t.removed|, h requires 0 <= h < |t.removed| => t.removed[h] + keys))
    case Engine(row, data) => t.(rows := t.rows[row := data])
  }

  lemma LoadTasksNonempty(t: Tier, keys: seq<Key>, blocks: seq<nat>)
    requires keys != [] && blocks != []
    ensures LoadWork(t, keys, blocks).tasks != []
  {
    var n := Pairs(keys, blocks);
    var found := Locations(t.store.store, keys[..n]);
    var e := EntryOf(keys[0], blocks[0], found[0]);
    assert keys[..n][0] == keys[0] && blocks[..n][0] == blocks[0];
    TasksCoverJob(keys[..n], blocks[..n], found, e);
  }

  /* ---- the invariant ---- */

  /** Handles agree between the parts, and jobs have as many tasks as their work. */
  ghost predicate Matches(t: Tier) {
    && |t.work| == |t.pool.pool.jobs| == |t.removed| == |t.lost| == |t.pool.calls| == |t.pool.outcomes|
    && (forall h :: h in t.store.plans ==> h < |t.work| && t.work[h].Storing?)
    && (forall h: nat :: h < |t.work| ==> JobMatches(t.pool.pool.jobs[h], t.work[h]))
  }

  predicate JobMatches(job: P.Job, w: Work) {
    job.total == TaskCount(w) && (job.callback <==> w.Storing?)
  }

  /** A store job has a plan until its callback has run. */
  ghost predicate PlanHolds(t: Tier, h: nat)
    requires Matches(t) && h < |t.work| && t.work[h].Storing?
  {
    && t.work[h].groups == StoreRoundTrip.GroupWrites(t.work[h].plan)
    && (t.pool.calls[h] == [] <==> h in t.store.plans)
    && (h in t.store.plans ==> t.store.plans[h].writes == t.work[h].plan)
  }

  /** Its successful tasks have written their entries. */
  ghost predicate GroupsHold(t: Tier, h: nat)
    requires Matches(t) && h < |t.work| && t.work[h].Storing?
  {
    h in t.store.plans ==>
      forall i: nat :: i in t.pool.outcomes[h] && t.pool.outcomes[h][i] ==> GroupDone(t.store.plans[h], t.work[h].groups, i)
  }

  /** Its rows hold what they held when it was submitted. */
  ghost predicate PinsHold(t: Tier, h: nat)
    requires Matches(t) && h < |t.work| && t.work[h].Storing?
  {
    h in t.store.plans ==>
      && t.store.plans[h].view == t.work[h].view
      && forall e :: e in t.work[h].plan ==>
           e.block < |t.rows| && e.block < |t.work[h].view| && t.rows[e.block] == t.work[h].view[e.block]
  }

  /** A slot holds what the row of its write held at submission, for good. */
  ghost predicate SlotSealed(s: S.System, w: Work, e: SegmentWrite)
    requires w.Storing?
  {
    && HasShards(s.store.meta) && Slot(e, s.g.block) in s.sealed
    && e.block < |w.view| && s.sealed[Slot(e, s.g.block)] == w.view[e.block]
  }

  /** The slots of a published job hold the rows as they were when it was submitted. */
  ghost predicate SlotsHold(t: Tier, h: nat)
    requires Matches(t) && h < |t.work| && t.work[h].Storing?
  {
    Published(t.pool.calls[h]) ==> forall e :: e in t.work[h].plan ==> SlotSealed(t.store, t.work[h], e)
  }

  predicate PlansKey(plan: seq<SegmentWrite>, key: Key) {
    exists e :: e in plan && e.key == key
  }

  predicate Published(calls: seq<P.Call>) {
    calls != [] && calls[0].success && !calls[0].raised
  }

  /** Its keys are in the table, or deleted, or waiting to be published, or given up. */
  ghost predicate KeysHold(t: Tier, h: nat)
    requires Matches(t) && h < |t.work| && t.work[h].Storing?
  {
    forall key :: key in t.work[h].keys && key !in t.removed[h] && key !in t.store.store.index ==>
      if t.pool.calls[h] == [] then PlansKey(t.work[h].plan, key) else !Published(t.pool.calls[h])
  }

  /** What a loaded row must hold. */
  function Expected(w: Work, e: LoadEntry, size: nat): Option<Bytes>
    requires w.Loading?
  {
    match e.place
    case InSegment(at) => if at in w.sealed then Some(w.sealed[at]) else None
    case InFile => if e.key in w.files && size <= |w.files[e.key]| then Some(w.files[e.key][..size]) else None
  }

  /** A load refuses a location that is not of the store's block size. */
  predicate Fits(e: LoadEntry, size: nat) {
    e.place.InSegment? ==> e.place.at.length == size
  }

  /** The entry's location has kept its bytes. */
  predicate Settled(t: Tier, h: nat, e: LoadEntry)
    requires h < |t.lost|
  {
    e.place.InSegment? ==> e.place.at !in t.lost[h]
  }

  /** A load's locations, but the lost ones, still hold what they held at its submission. */
  ghost predicate SourcesHold(t: Tier, h: nat)
    requires Matches(t) && h < |t.work| && t.work[h].Loading?
  {
    && (forall e :: InSome(t.work[h].tasks, e) && e.place.InSegment? ==> e.place.at in t.work[h].sealed)
    && (forall at :: at in t.work[h].sealed && at !in t.lost[h] ==> Holds(t.store.store.files, at, t.work[h].sealed[at]))
    && (forall key :: key in t.files ==> key in t.work[h].files && t.work[h].files[key] == t.files[key])
  }

  /** Its destination rows are its own, each for one entry. */
  ghost predicate RowsDistinct(t: Tier, h: nat)
    requires Matches(t) && h < |t.work| && t.work[h].Loading?
  {
    && (forall e :: InSome(t.work[h].tasks, e) ==> e.block < |t.rows|)
    && RowsApart(t.work[h].tasks)
  }

  /** The rows it has filled hold what they must, until its report is handed over. */
  ghost predicate RowsHold(t: Tier, h: nat)
    requires Matches(t) && h < |t.work| && t.work[h].Loading?
  {
    Active(t.pool, h) ==> forall e :: InSome(t.work[h].tasks, e) && e.block in t.work[h].got ==>
      && Fits(e, t.store.g.block)
      && (Settled(t, h, e) ==> e.block < |t.rows| && Some(t.rows[e.block]) == Expected(t.work[h], e, t.store.g.block))
  }

  /** Its successful tasks have filled all their rows. */
  ghost predicate TasksHold(t: Tier, h: nat)
    requires Matches(t) && h < |t.work| && t.work[h].Loading?
  {
    Active(t.pool, h) ==>
      forall i: nat :: i in t.pool.outcomes[h] && t.pool.outcomes[h][i] ==> TaskGot(t.work[h], i)
  }

  ghost predicate StoringHolds(t: Tier, h: nat)
    requires Matches(t) && h < |t.work| && t.work[h].Storing?
  {
    PlanHolds(t, h) && GroupsHold(t, h) && PinsHold(t, h) && KeysHold(t, h) && SlotsHold(t, h)
  }

  ghost predicate LoadingHolds(t: Tier, h: nat)
    requires Matches(t) && h < |t.work| && t.work[h].Loading?
  {
    SourcesHold(t, h) && RowsDistinct(t, h) && RowsHold(t, h) && TasksHold(t, h)
  }

  /** A row that an active load fills is no other active job's. */
  ghost predicate Exclusive(t: Tier) {
    forall h: nat, k: nat, row: nat ::
      h < |t.work| && k < |t.work| && h != k && Active(t.pool, h) && Active(t.pool, k) && Fills(t.work[h], row) ==>
        !Fills(t.work[k], row) && !Uses(t.work[k], row)
  }

  ghost predicate JobHolds(t: Tier, h: nat)
    requires Matches(t) && h < |t.work|
  {
    if t.work[h].Storing? then StoringHolds(t, h) else LoadingHolds(t, h)
  }

  ghost predicate JobsHold(t: Tier)
    requires Matches(t)
  {
    forall h: nat :: h < |t.work| ==> JobHolds(t, h)
  }

  ghost predicate Inv(t: Tier) {
    && S.Inv(t.store) && P.Inv(t.pool)
    && Matches(t) && JobsHold(t) && Exclusive(t)
  }

  /** A tier opened on any reachable store, with a pool that was just started. */
  ghost predicate Initial(t: Tier) {
    && S.Inv(t.store) && t.store.plans == map[] && P.Initial(t.pool)
    && t.work == [] && t.removed == [] && t.lost == []
  }

  lemma InitialInv(t: Tier)
    requires Initial(t)
    ensures Inv(t)
  {
    P.InitialInv(t.pool);
  }
}
