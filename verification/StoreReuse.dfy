/** When the bytes of a location outlive its row: the exact condition. */
module StoreReuse {
  import opened Basics
  import opened Wrappers
  import opened Divisions
  import opened SegmentFiles
  import opened SegmentAllocation
  import SegmentAccounting
  import opened SegmentModel
  import opened StoreProtocol
  import opened StoreRuns

  predicate NoReopen(steps: seq<Step>) {
    forall step :: step in steps ==> !step.Reopen?
  }

  /** The next segment id and the cursor are only written together with the shards. Every run keeps this. */
  predicate RowsTogether(md: Metadata) {
    HasShards(md) || (NextSegment !in md && ShardCursor !in md)
  }

  /** A location without bytes, or above the segment size that the store was opened with. */
  predicate OutOfSlots(s: System, at: Location) {
    at.length == 0 || s.g.segment <= at.offset
  }

  /** What has to hold when a location is looked up, for its bytes to last as long as the store is open:
      the metadata says where allocation goes on, or no slot can reach the location. */
  predicate WillLast(s: System, at: Location) {
    Marked(s.store.meta) || OutOfSlots(s, at)
  }

  /* ---- bytes outside the segments ---- */

  ghost predicate SlotsBelow(s: System) {
    forall slot :: slot in s.issued ==> slot.offset + slot.length <= s.g.segment
  }

  lemma WriteKeepsReadable(files: Files, w: Write, at: Location)
    requires Readable(files, at)
    ensures Readable(WriteOne(files, w), at)
  {
  }

  lemma StepKeepsFar(s: System, step: Step, at: Location)
    requires Inv(s) && SlotsBelow(s) && Enabled(s, step) && !step.Reopen? && OutOfSlots(s, at) && Readable(s.store.files, at)
    ensures var s' := Apply(s, step); SlotsBelow(s') && OutOfSlots(s', at) && Lasts(s, s', at)
  {
    StepIssues(s, step);
    match step
    case Prepare(_, _, _, _) =>
      var s' := Apply(s, step);
      forall slot | slot in s'.issued ensures slot.offset + slot.length <= s'.g.segment {
        if slot !in s.issued {
          assert slot in s'.issued[|s.issued|..];
        }
      }
    case WritePart(job, entry, bytes) =>
      var slot, full := SlotOf(s, job, entry), DataOf(s, job, entry);
      assert PlanValid(s, job);
      assert s.plans[job].writes[entry] in s.plans[job].writes;
      assert slot in s.issued;
      var w := Write(slot.segment, slot.offset, full);
      if at.length == 0 {
        WriteKeepsReadable(s.store.files, w.(data := full[..bytes]), at);
      } else {
        PartKeeps(s.store.files, w, bytes, at);
      }
    case _ =>
  }

  /** What keeps the bytes of a location as they are. */
  ghost predicate Kept(s: System, at: Location) {
    (Marked(s.store.meta) && at in s.sealed) || (SlotsBelow(s) && OutOfSlots(s, at) && Readable(s.store.files, at))
  }

  lemma StepKeepsBytes(s: System, step: Step, at: Location)
    requires Inv(s) && Enabled(s, step) && !step.Reopen? && Kept(s, at)
    ensures Kept(Apply(s, step), at) && Lasts(s, Apply(s, step), at)
  {
    if Marked(s.store.meta) && at in s.sealed {
      StepKeepsSeal(s, step, at);
      StepKeeps(s, step);
    } else {
      StepKeepsFar(s, step, at);
    }
  }

  lemma LastingIsKept(s: System, at: Location)
    requires Inv(s) && at in s.sealed && WillLast(s, at)
    ensures Kept(s, at)
  {
  }

  lemma {:induction false} RunKeepsBytes(s: System, steps: seq<Step>, at: Location)
    requires Inv(s) && CanRun(s, steps) && NoReopen(steps) && Kept(s, at)
    ensures Kept(After(s, steps), at) && Lasts(s, After(s, steps), at)
    decreases |steps|
  {
    if steps != [] {
      var n := |steps| - 1;
      assert steps[n] in steps;
      RunKeepsBytes(s, steps[..n], at);
      RunKeeps(s, steps[..n]);
      StepKeepsBytes(After(s, steps[..n]), steps[n], at);
    }
  }

  lemma StepKeepsTogether(s: System, step: Step)
    requires Inv(s) && Enabled(s, step) && RowsTogether(s.store.meta)
    ensures RowsTogether(Apply(s, step).store.meta)
  {
    if step.Prepare? && Sources(s.store, step.keys, step.blocks) != [] {
      AllocationStep(s.store.meta, s.store.index, s.g, |Sources(s.store, step.keys, step.blocks)|);
    }
  }

  lemma {:induction false} RunKeepsTogether(s: System, steps: seq<Step>)
    requires Inv(s) && CanRun(s, steps) && RowsTogether(s.store.meta)
    ensures RowsTogether(After(s, steps).store.meta)
    decreases |steps|
  {
    if steps != [] {
      var n := |steps| - 1;
      RunKeepsTogether(s, steps[..n]);
      RunKeeps(s, steps[..n]);
      StepKeepsTogether(After(s, steps[..n]), steps[n]);
    }
  }

  /** The condition is enough. */
  lemma BytesLast(s: System, steps: seq<Step>, at: Location)
    requires Inv(s) && at in s.sealed && CanRun(s, steps) && NoReopen(steps) && WillLast(s, at)
    ensures Lasts(s, After(s, steps), at)
  {
    LastingIsKept(s, at);
    RunKeepsBytes(s, steps, at);
  }

  /* ---- bytes that are handed out again ---- */

  /** As many keys as it takes, all with the same row. */
  function ManyKeys(n: nat): seq<Key> {
    seq(n, i requires 0 <= i < n => Key(i))
  }

  function Rows(n: nat, row: nat): seq<nat> {
    seq(n, i requires 0 <= i < n => row)
  }

  function Nowhere(n: nat): seq<Option<Location>> {
    seq(n, i requires 0 <= i < n => None)
  }

  lemma {:induction false} AllChosen(n: nat, row: nat)
    ensures |Unique(ManyKeys(n), Rows(n, row), Nowhere(n))| == n
    ensures forall i :: 0 <= i < n ==> Unique(ManyKeys(n), Rows(n, row), Nowhere(n))[i] == Source(Key(i), row)
  {
    if n > 0 {
      AllChosen(n - 1, row);
      assert ManyKeys(n)[..n - 1] == ManyKeys(n - 1) && Rows(n, row)[..n - 1] == Rows(n - 1, row) && Nowhere(n)[..n - 1] == Nowhere(n - 1);
    }
  }

  /** The number of the slot of a fresh store that holds the first byte of a location. */
  function NumberAt(at: Location, g: Geometry, per: nat): nat
    requires g.Valid() && 0 < per
  {
    SegmentAccounting.NumberOf(at.segment / g.shards, at.offset / g.block, at.segment % g.shards, g.shards, per)
  }

  lemma SlotHoldsByte(at: Location, g: Geometry, per: nat)
    requires g.Valid() && 0 < per && g.segment == per * g.block && at.offset < g.segment
    ensures var slot := SegmentAccounting.SlotAt(NumberAt(at, g, per), g.shards, g.block, per);
      slot.segment == at.segment && slot.length == g.block && slot.offset <= at.offset < slot.offset + slot.length
  {
    var p, k, q := at.offset / g.block, at.segment % g.shards, at.segment / g.shards;
    assert at.offset == p * g.block + at.offset % g.block;
    if p >= per {
      Times(p, per, g.block);
    }
    SegmentAccounting.SlotOfNumber(q, p, k, g.shards, g.block, per);
  }

  /** A store without any row, of the table or of the allocator. */
  ghost predicate Bare(s: System) {
    s.g.Valid() && s.store.index == map[] && s.store.cache == map[] && SegmentAccounting.Plain(s.store.meta)
  }

  lemma ManySources(s: Store, n: nat, row: nat, i: nat)
    requires s.index == map[] && s.cache == map[] && i < n
    ensures |Sources(s, ManyKeys(n), Rows(n, row))| == n && Sources(s, ManyKeys(n), Rows(n, row))[i] == Source(Key(i), row)
  {
    assert Locations(s, ManyKeys(n)) == Nowhere(n);
    AllChosen(n, row);
  }

  lemma BareSlots(s: Store, g: Geometry, per: nat, n: nat, i: nat)
    requires g.Valid() && 0 < per && g.segment == per * g.block && SegmentAccounting.Plain(s.meta) && s.index == map[] && i < n
    ensures |NewSlots(s, g, n)| == n && NewSlots(s, g, n)[i] == SegmentAccounting.SlotAt(i, g.shards, g.block, per)
  {
    SegmentAccounting.ReachedNext(s.meta, s.index, n, g, 0, per, n);
    assert 0 + i == i;
  }

  lemma PlanHasSlot(s: Store, g: Geometry, sources: seq<Source>, i: nat) returns (j: nat)
    requires g.Valid() && i < |sources|
    ensures j < |PlanOf(s, g, sources)|
    ensures var slot, w := NewSlots(s, g, |sources|)[i], PlanOf(s, g, sources)[j];
      w == SegmentWrite(sources[i].key, slot.segment, slot.offset, sources[i].block)
  {
    var placed := Assign(sources, NewSlots(s, g, |sources|));
    PlanPermutes(s, g, sources);
    assert placed[i] in placed;
    j :| 0 <= j < |PlanOf(s, g, sources)| && PlanOf(s, g, sources)[j] == placed[i];
  }

  /** In a bare store, a job with enough keys is handed the slot of any number. */
  lemma PlannedSlot(s: System, per: nat, n: nat, row: nat) returns (j: nat)
    requires Bare(s) && 0 < per && s.g.segment == per * s.g.block
    ensures var plan := PrepareStore(s.store, s.g, ManyKeys(n + 1), Rows(n + 1, row)).1;
      && j < |plan| && plan[j].block == row
      && Slot(plan[j], s.g.block) == SegmentAccounting.SlotAt(n, s.g.shards, s.g.block, per)
  {
    var sources := Sources(s.store, ManyKeys(n + 1), Rows(n + 1, row));
    ManySources(s.store, n + 1, row, n);
    var looked := s.store.(cache := CacheAfter(s.store, ManyKeys(n + 1)));
    BareSlots(looked, s.g, per, n + 1, n);
    j := PlanHasSlot(looked, s.g, sources, n);
  }

  function Other(b: Byte): Byte {
    if b == 0 then 1 else 0
  }

  /** A block of one byte over and over. */
  function Block(b: Byte, size: nat): Bytes {
    seq(size, i requires 0 <= i < size => b)
  }

  lemma WriteChangesByte(files: Files, w: Write, at: Location)
    requires Readable(files, at) && 0 < at.length && w.segment == at.segment
    requires w.offset <= at.offset < w.offset + |w.data| && w.data[at.offset - w.offset] != BytesAt(files, at)[0]
    ensures Readable(WriteOne(files, w), at) && BytesAt(WriteOne(files, w), at) != BytesAt(files, at)
  {
    WriteKeepsReadable(files, w, at);
    assert WriteOne(files, w)[w.segment][at.offset] == w.data[at.offset - w.offset];
    assert BytesAt(WriteOne(files, w), at)[0] == WriteOne(files, w)[w.segment][at.offset];
  }

  lemma FreshJob(plans: map<nat, Plan>)
    ensures Above(plans.Keys) !in plans
  {
    assert Above(plans.Keys) !in plans.Keys;
  }

  function PrepareMany(job: nat, n: nat, row: nat, view: seq<Bytes>): Step {
    Prepare(job, ManyKeys(n + 1), Rows(n + 1, row), view)
  }

  /** Delete every row, store a job with enough keys, and write its last one. */
  function Reuse(keys: set<Key>, job: nat, n: nat, data: Bytes, entry: nat): seq<Step> {
    [Remove(keys), PrepareMany(job, n, 0, [data]), WritePart(job, entry, |data|)]
  }

  lemma RemoveAll(s: System)
    requires Inv(s) && !Marked(s.store.meta) && RowsTogether(s.store.meta)
    ensures Bare(Apply(s, Remove(s.store.index.Keys)))
  {
    var s' := Apply(s, Remove(s.store.index.Keys));
    assert s'.store.index.Keys == {};
    assert s'.store.cache.Keys == {};
  }

  lemma PreparedMany(s: System, per: nat, job: nat, n: nat, row: nat, view: seq<Bytes>) returns (j: nat)
    requires Bare(s) && 0 < per && s.g.segment == per * s.g.block && job !in s.plans
    requires row < |view| && |view[row]| == s.g.block
    ensures Enabled(s, PrepareMany(job, n, row, view))
    ensures var s' := Apply(s, PrepareMany(job, n, row, view));
      && s'.g == s.g && s'.store.files == s.store.files
      && Owns(s', job, j) && DataOf(s', job, j) == view[row]
      && SlotOf(s', job, j) == SegmentAccounting.SlotAt(n, s.g.shards, s.g.block, per)
  {
    j := PlannedSlot(s, per, n, row);
  }

  /** Without it there is a run, with the store open all the time, that writes over the location. */
  lemma BytesOverwritten(s: System, per: nat, at: Location) returns (steps: seq<Step>)
    requires Inv(s) && at in s.sealed && RowsTogether(s.store.meta) && !WillLast(s, at)
    requires 0 < per && s.g.segment == per * s.g.block
    ensures CanRun(s, steps) && NoReopen(steps) && !Lasts(s, After(s, steps), at)
  {
    var keys, job := s.store.index.Keys, Above(s.plans.Keys);
    FreshJob(s.plans);
    RemoveAll(s);
    steps := OverwriteBare(s, Apply(s, Remove(keys)), keys, per, job, at);
  }

  lemma OverwriteBare(s: System, s1: System, keys: set<Key>, per: nat, job: nat, at: Location) returns (steps: seq<Step>)
    requires s.g.Valid() && s1 == Apply(s, Remove(keys)) && Bare(s1) && job !in s1.plans
    requires 0 < per && s1.g.segment == per * s1.g.block
    requires Readable(s1.store.files, at) && 0 < at.length && at.offset < s1.g.segment
    ensures CanRun(s, steps) && NoReopen(steps) && !Lasts(s, After(s, steps), at)
  {
    var n, data := NumberAt(at, s1.g, per), Block(Other(BytesAt(s1.store.files, at)[0]), s1.g.block);
    var j := PreparedMany(s1, per, job, n, 0, [data]);
    steps := Reuse(keys, job, n, data, j);
    SlotHoldsByte(at, s1.g, per);
    Overwritten(Apply(s1, steps[1]), job, j, data, at);
    LastStepCounts(s, s1, Apply(s1, steps[1]), steps, at);
  }

  lemma LastStepCounts(s: System, s1: System, s2: System, steps: seq<Step>, at: Location)
    requires |steps| == 3 && s.g.Valid() && s1.g.Valid() && s2.g.Valid()
    requires Enabled(s, steps[0]) && s1 == Apply(s, steps[0])
    requires Enabled(s1, steps[1]) && s2 == Apply(s1, steps[1]) && s2.store.files == s.store.files
    requires Enabled(s2, steps[2]) && !Lasts(s2, Apply(s2, steps[2]), at)
    ensures CanRun(s, steps) && !Lasts(s, After(s, steps), at)
  {
    ThreeSteps(s, steps);
  }

  lemma Overwritten(s: System, job: nat, j: nat, data: Bytes, at: Location)
    requires s.g.Valid() && Owns(s, job, j) && DataOf(s, job, j) == data && |data| == s.g.block
    requires Readable(s.store.files, at) && 0 < at.length && data == Block(Other(BytesAt(s.store.files, at)[0]), s.g.block)
    requires var slot := SlotOf(s, job, j); slot.segment == at.segment && slot.offset <= at.offset < slot.offset + s.g.block
    ensures Enabled(s, WritePart(job, j, |data|))
    ensures var files := Apply(s, WritePart(job, j, |data|)).store.files;
      Readable(files, at) && BytesAt(files, at) != BytesAt(s.store.files, at)
  {
    var slot := SlotOf(s, job, j);
    assert data[..|data|] == data;
    WriteChangesByte(s.store.files, Write(slot.segment, slot.offset, data), at);
  }

  /** The bytes of a location last over every run of the open store if and only if the metadata has the
      allocator's marks, or the location is empty, or outside the segments in use. */
  lemma BytesLastExactly(s: System, per: nat, at: Location)
    requires Inv(s) && at in s.sealed && RowsTogether(s.store.meta) && 0 < per && s.g.segment == per * s.g.block
    ensures (forall steps :: CanRun(s, steps) && NoReopen(steps) ==> Lasts(s, After(s, steps), at)) <==> WillLast(s, at)
  {
    if WillLast(s, at) {
      forall steps | CanRun(s, steps) && NoReopen(steps) ensures Lasts(s, After(s, steps), at) {
        BytesLast(s, steps, at);
      }
    } else {
      var steps := BytesOverwritten(s, per, at);
    }
  }
}
