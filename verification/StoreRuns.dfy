/** What holds over whole runs of the store protocol. */
module StoreRuns {
  import opened Basics
  import opened Wrappers
  import opened SegmentFiles
  import opened SegmentReads
  import opened SegmentAllocation
  import opened SegmentModel
  import opened StoreProtocol

  /** Performs steps one after the other, if each is enabled where it happens. */
  ghost function Run(s: System, steps: seq<Step>): Option<System>
    decreases |steps|
  {
    if steps == [] then Some(s)
    else
      match Run(s, steps[..|steps| - 1])
      case None => None
      case Some(t) =>
        var last := steps[|steps| - 1];
        if t.g.Valid() && Enabled(t, last) then Some(Apply(t, last)) else None
  }

  ghost predicate CanRun(s: System, steps: seq<Step>) {
    Run(s, steps).Some?
  }

  ghost function After(s: System, steps: seq<Step>): System
    requires CanRun(s, steps)
  {
    Run(s, steps).value
  }

  lemma RunNext(s: System, steps: seq<Step>, step: Step)
    requires CanRun(s, steps) && After(s, steps).g.Valid() && Enabled(After(s, steps), step)
    ensures CanRun(s, steps + [step]) && After(s, steps + [step]) == Apply(After(s, steps), step)
  {
    assert (steps + [step])[..|steps|] == steps;
  }

  lemma {:induction false} RunKeeps(s: System, steps: seq<Step>)
    requires Inv(s) && CanRun(s, steps)
    ensures Inv(After(s, steps))
    decreases |steps|
  {
    if steps != [] {
      var n := |steps| - 1;
      RunKeeps(s, steps[..n]);
      StepKeeps(After(s, steps[..n]), steps[n]);
    }
  }

  /* ---- slots ---- */

  /** A store only ever adds slots, and each lies inside a segment of the size it was opened with. */
  lemma StepIssues(s: System, step: Step)
    requires Inv(s) && Enabled(s, step)
    ensures s.issued <= Apply(s, step).issued
    ensures forall slot :: slot in Apply(s, step).issued[|s.issued|..] ==>
              slot.length == s.g.block && slot.offset + slot.length <= s.g.segment
  {
    if step.Prepare? {
      HandedFacts(s, step.keys, step.blocks);
      assert Apply(s, step).issued[|s.issued|..] == Handed(s, step.keys, step.blocks);
    }
  }

  lemma {:induction false} RunIssues(s: System, steps: seq<Step>)
    requires Inv(s) && CanRun(s, steps)
    ensures s.issued <= After(s, steps).issued
    decreases |steps|
  {
    if steps != [] {
      var n := |steps| - 1;
      RunIssues(s, steps[..n]);
      RunKeeps(s, steps[..n]);
      StepIssues(After(s, steps[..n]), steps[n]);
    }
  }

  /** No two slots ever handed out share a byte: over failed writes, deletes, crashes, and reopening
      with other numbers of shards and other segment sizes. */
  lemma SlotsNeverOverlap(s: System, steps: seq<Step>, i: nat, j: nat)
    requires Initial(s) && CanRun(s, steps)
    requires i < j < |After(s, steps).issued|
    ensures After(s, steps).issued[i].Disjoint(After(s, steps).issued[j])
  {
    InitialInv(s);
    RunKeeps(s, steps);
  }

  /* ---- rows ---- */

  predicate Removes(step: Step, key: Key) {
    step.Remove? && key in step.removed
  }

  ghost predicate RowIs(s: System, key: Key, at: Location, data: Bytes) {
    && key in s.store.index && s.store.index[key] == at
    && Readable(s.store.files, at) && BytesAt(s.store.files, at) == data
  }

  /** A step that does not delete a key keeps its row and the bytes of its row. */
  lemma StepKeepsRow(s: System, step: Step, key: Key, at: Location, data: Bytes)
    requires Inv(s) && Enabled(s, step) && RowIs(s, key, at, data) && !Removes(step, key)
    ensures RowIs(Apply(s, step), key, at, data)
  {
    assert at in s.sealed;
    match step
    case WritePart(job, entry, bytes) =>
      var slot, full := SlotOf(s, job, entry), DataOf(s, job, entry);
      assert PlanValid(s, job);
      assert s.plans[job].writes[entry] in s.plans[job].writes;
      assert at.Disjoint(slot);
      PartKeeps(s.store.files, Write(slot.segment, slot.offset, full), bytes, at);
    case Publish(job, _) =>
      InsertRowsFacts(s.store.index, s.plans[job].writes, s.g.block);
    case _ =>
  }

  ghost predicate NeverRemoves(steps: seq<Step>, key: Key) {
    forall step :: step in steps ==> !Removes(step, key)
  }

  lemma {:induction false} RunKeepsRow(s: System, steps: seq<Step>, key: Key, at: Location, data: Bytes)
    requires Inv(s) && CanRun(s, steps) && RowIs(s, key, at, data) && NeverRemoves(steps, key)
    ensures RowIs(After(s, steps), key, at, data)
    decreases |steps|
  {
    if steps != [] {
      var n := |steps| - 1;
      assert NeverRemoves(steps[..n], key);
      RunKeepsRow(s, steps[..n], key, at, data);
      RunKeeps(s, steps[..n]);
      StepKeepsRow(After(s, steps[..n]), steps[n], key, at, data);
    }
  }

  /** The row that a job inserts points at the bytes the job wrote. */
  lemma PublishedRow(s: System, job: nat, cached: bool, w: SegmentWrite)
    requires Inv(s) && Enabled(s, Publish(job, cached))
    requires w in s.plans[job].writes && w.key !in s.store.index
    ensures w.block < |s.plans[job].view|
    ensures RowIs(Apply(s, Publish(job, cached)), w.key, Slot(w, s.g.block), s.plans[job].view[w.block])
  {
    var writes := s.plans[job].writes;
    assert PlanValid(s, job);
    InsertRowsFacts(s.store.index, writes, s.g.block);
    var v :| v in writes && v.key == w.key && InsertRows(s.store.index, writes, s.g.block)[w.key] == Slot(v, s.g.block);
    SameKeySameWrite(writes, v, w);
    DoneSlots(s, job, w);
  }

  lemma SameKeySameWrite(writes: seq<SegmentWrite>, v: SegmentWrite, w: SegmentWrite)
    requires DistinctKeys(writes) && v in writes && w in writes && v.key == w.key
    ensures v == w
  {
    var i :| 0 <= i < |writes| && writes[i] == v;
    var j :| 0 <= j < |writes| && writes[j] == w;
  }

  /** From the step that inserts a row until its key is deleted, through any steps of any other jobs,
      the row points at exactly the bytes that the inserting job wrote for the key. */
  lemma RowsHoldTheirJobsBytes(s: System, before: seq<Step>, job: nat, cached: bool, w: SegmentWrite, after: seq<Step>)
    requires Initial(s) && CanRun(s, before)
    requires var t := After(s, before);
      && t.g.Valid() && Enabled(t, Publish(job, cached))
      && w in t.plans[job].writes && w.key !in t.store.index
      && CanRun(Apply(t, Publish(job, cached)), after) && NeverRemoves(after, w.key)
    ensures var t := After(s, before);
      && w.block < |t.plans[job].view|
      && RowIs(After(Apply(t, Publish(job, cached)), after), w.key, Slot(w, t.g.block), t.plans[job].view[w.block])
  {
    InitialInv(s);
    RunKeeps(s, before);
    var t := After(s, before);
    PublishedRow(t, job, cached, w);
    StepKeeps(t, Publish(job, cached));
    RunKeepsRow(Apply(t, Publish(job, cached)), after, w.key, Slot(w, t.g.block), t.plans[job].view[w.block]);
  }

  /** A job that loses the race for a key leaves the winner's row alone, and the cache holds that row. */
  lemma LoserKeepsWinner(s: System, job: nat, cached: bool, w: SegmentWrite)
    requires Inv(s) && Enabled(s, Publish(job, cached))
    requires w in s.plans[job].writes && w.key in s.store.index
    ensures var s' := Apply(s, Publish(job, cached));
      && w.key in s'.store.index && s'.store.index[w.key] == s.store.index[w.key]
      && (cached ==> w.key in s'.store.cache)
      && (w.key in s'.store.cache ==> s'.store.cache[w.key] == s.store.index[w.key])
  {
    var writes := s.plans[job].writes;
    InsertRowsFacts(s.store.index, writes, s.g.block);
    PublishCache(s, job, cached);
    var i :| 0 <= i < |writes| && writes[i] == w;
    assert KeysOf(writes)[i] == w.key;
  }

  /* ---- sealed locations: what a load in flight may still read ---- */

  lemma PrepareKeepsMarked(s: System, step: Step)
    requires s.g.Valid() && MetaValid(s.store.meta) && Enabled(s, step) && step.Prepare? && Marked(s.store.meta)
    ensures Marked(Apply(s, step).store.meta)
  {
    var sources := Sources(s.store, step.keys, step.blocks);
    if sources != [] {
      AllocationStep(s.store.meta, s.store.index, s.g, |sources|);
    }
  }

  /** Once the metadata says where allocation goes on, the bytes of a location never change again, deleted
      or not. */
  lemma StepKeepsSeal(s: System, step: Step, at: Location)
    requires Inv(s) && Enabled(s, step) && at in s.sealed
    requires Marked(s.store.meta) || !step.Remove?
    ensures var s' := Apply(s, step);
      && at in s'.sealed && s'.sealed[at] == s.sealed[at]
      && (Marked(s.store.meta) ==> Marked(s'.store.meta))
      && (HasShards(s.store.meta) ==> HasShards(s'.store.meta))
  {
    var s' := Apply(s, step);
    StepKeeps(s, step);
    match step
    case Prepare(_, keys, blocks, _) =>
      HandedAvoids(s, keys, blocks, at);
      if Marked(s.store.meta) {
        PrepareKeepsMarked(s, step);
      }
    case Publish(job, _) =>
      var plan := s.plans[job];
      assert PlanValid(s, job);
      SealFacts(s.sealed, plan.writes, plan.view, s.g.block);
    case Remove(keys) =>
      assert Guarded(s.store.meta, s.store.index, at);
    case _ =>
  }

  lemma {:induction false} RunKeepsSeal(s: System, steps: seq<Step>, at: Location)
    requires Inv(s) && CanRun(s, steps) && at in s.sealed && Marked(s.store.meta)
    ensures Marked(After(s, steps).store.meta)
    ensures at in After(s, steps).sealed && After(s, steps).sealed[at] == s.sealed[at]
    decreases |steps|
  {
    if steps != [] {
      var n := |steps| - 1;
      RunKeepsSeal(s, steps[..n], at);
      RunKeeps(s, steps[..n]);
      StepKeepsSeal(After(s, steps[..n]), steps[n], at);
    }
  }

  /** The location holds the bytes that it held before. */
  ghost predicate Lasts(s: System, t: System, at: Location) {
    && Readable(s.store.files, at) && Readable(t.store.files, at)
    && BytesAt(t.store.files, at) == BytesAt(s.store.files, at)
  }

  /** So a load that took its locations from such a store reads the bytes that were there then. */
  lemma LocatedBytesLast(s: System, steps: seq<Step>, key: Key)
    requires Inv(s) && CanRun(s, steps) && Marked(s.store.meta) && key in s.store.index
    ensures Lasts(s, After(s, steps), s.store.index[key])
  {
    assert s.store.index[key] in s.sealed;
    RunKeepsSeal(s, steps, s.store.index[key]);
    RunKeeps(s, steps);
  }

  /** A delete in a store without shard rows gives up exactly the locations above its last remaining row. */
  lemma RemoveGivesUp(s: System, keys: set<Key>, at: Location)
    requires Inv(s) && at in s.sealed
    ensures at in Apply(s, Remove(keys)).sealed <==>
              HasShards(s.store.meta) || Below(at, LatestSegment(s.store.meta, s.store.index - keys))
  {
    assert Guarded(s.store.meta, s.store.index, at);
  }

  /** A store that an earlier version left with one row. */
  ghost function OneRowStore(key: Key): System {
    var at := Location(0, 0, 1);
    System(Geometry(1, 1, 1), Store(map[], map[key := at], map[], map[0 := [7]]), map[], [], map[at := [7]])
  }

  lemma OneRowInitial(key: Key)
    ensures Initial(OneRowStore(key))
  {
    var s, at := OneRowStore(key), Location(0, 0, 1);
    assert s.store.index[key] == at;
    assert at in s.store.index.Values;
    assert forall x :: x in s.store.index.Values ==> x == at;
    var files := s.store.files;
    assert BytesAt(files, at) == [7];
    var sealed := map at | at in s.store.index.Values && Readable(files, at) :: BytesAt(files, at);
    assert sealed.Keys == s.sealed.Keys;
    assert sealed == s.sealed;
  }

  function OverwritingRun(): seq<Step> {
    [Remove({Key(0)}), Prepare(0, [Key(1)], [0], [[9]]), WritePart(0, 0, 1)]
  }

  /** ... and such a location can be handed out again: after the only row of a one-stream store is
      deleted, the next job writes over the bytes that a load in flight may still be reading. */
  lemma DeletedLegacyRowOverwritten()
    ensures var s, at := OneRowStore(Key(0)), Location(0, 0, 1);
      && Initial(s) && CanRun(s, OverwritingRun()) && RowIs(s, Key(0), at, [7])
      && Readable(After(s, OverwritingRun()).store.files, at)
      && BytesAt(After(s, OverwritingRun()).store.files, at) == [9]
  {
    var s, steps := OneRowStore(Key(0)), OverwritingRun();
    OneRowInitial(Key(0));
    var s1 := Apply(s, steps[0]);
    assert s1.store.index == map[];
    LegacyPlan(s1, Key(1));
    var s2 := Apply(s1, steps[1]);
    Overwrite(s2);
    ThreeSteps(s, steps);
  }

  lemma Overwrite(s: System)
    requires s.g == Geometry(1, 1, 1) && 0 in s.plans
    requires s.plans[0] == Plan([SegmentWrite(Key(1), 0, 0, 0)], [[9]], {})
    requires s.store.files == map[0 := [7]]
    ensures Enabled(s, WritePart(0, 0, 1))
    ensures var files := Apply(s, WritePart(0, 0, 1)).store.files;
      Readable(files, Location(0, 0, 1)) && BytesAt(files, Location(0, 0, 1)) == [9]
  {
    var data := DataOf(s, 0, 0);
    assert data[..1] == data == [9];
    WriteOneReads(s.store.files, Write(0, 0, data));
  }

  lemma ThreeSteps(s: System, steps: seq<Step>)
    requires |steps| == 3 && s.g.Valid() && Enabled(s, steps[0])
    requires var s1 := Apply(s, steps[0]); s1.g.Valid() && Enabled(s1, steps[1])
    requires var s2 := Apply(Apply(s, steps[0]), steps[1]); s2.g.Valid() && Enabled(s2, steps[2])
    ensures CanRun(s, steps) && After(s, steps) == Apply(Apply(Apply(s, steps[0]), steps[1]), steps[2])
  {
    RunNext(s, [], steps[0]);
    RunNext(s, [] + [steps[0]], steps[1]);
    RunNext(s, [] + [steps[0]] + [steps[1]], steps[2]);
    assert [] + [steps[0]] + [steps[1]] + [steps[2]] == steps;
  }

  lemma LegacyPlan(s: System, key: Key)
    requires s.g == Geometry(1, 1, 1) && s.store.meta == map[] && s.store.index == map[] && s.store.cache == map[]
    ensures PrepareStore(s.store, s.g, [key], [0]).1 == [SegmentWrite(key, 0, 0, 0)]
  {
    var found := Locations(s.store, [key]);
    assert Unique([key][..0], [0 as nat][..0], found[..0]) == [];
    var sources := Unique([key], [0], found);
    assert sources == [Source(key, 0)];
    var index: Index := map[];
    assert Segments(index) == {};
    AboveUnique({0}, 1);
    assert MarksOf(map[], Mark(0, 0), 1, 0) == ([], 1);
    assert OpenMark(map[], Mark(0, 0), 0, 1) == (Mark(0, 0), 1);
    assert MarksOf(map[], Mark(0, 0), 1, 1).0 == [Mark(0, 0)];
    assert MarksOf(map[], Mark(0, 0), 1, 1) == ([Mark(0, 0)], 1);
    var a := Open(map[], index, 1);
    assert a == Allocator([Mark(0, 0)], 1, 0);
    assert Allocate(a, s.g, 0) == (a, []);
    assert Allocate(a, s.g, 1).1 == [Location(0, 0, 1)];
    var placed := Assign(sources, [Location(0, 0, 1)]);
    assert Lane(placed[..0], 0, 1, 0) == [];
    assert Lane(placed, 0, 1, 0) == placed;
    assert Lanes(placed, 0, 1, 0) == [];
    assert Lanes(placed, 0, 1, 1) == placed;
  }

  /* ---- the cache ---- */

  /** In every reachable state a lookup through the cache is a lookup in the table. */
  lemma LookupIsPlain(s: System, steps: seq<Step>, keys: seq<Key>)
    requires Initial(s) && CanRun(s, steps)
    ensures var store := After(s, steps).store;
      Locations(store, keys) == seq(|keys|, i requires 0 <= i < |keys| => Find(store.index, keys[i]))
  {
    InitialInv(s);
    RunKeeps(s, steps);
  }

  /** After a delete, or a failed load, neither the table nor the cache has any of the keys. */
  lemma RemovedEverywhere(s: System, keys: set<Key>)
    requires Inv(s)
    ensures var store := Apply(s, Remove(keys)).store;
      forall key :: key in keys ==> key !in store.index && key !in store.cache
  {
  }
}
