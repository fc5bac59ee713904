/** Whole jobs: the writes of a plan in groups and in any interleaving, and a store read back. */
module StoreRoundTrip {
  import opened Basics
  import opened Wrappers
  import opened SegmentFiles
  import opened SegmentReads
  import opened SegmentAllocation
  import opened SegmentModel
  import opened StoreProtocol
  import opened StoreRuns

  /** The bytes that a plan writes. */
  function Resolve(writes: seq<SegmentWrite>, view: seq<Bytes>): seq<Write>
    requires forall w :: w in writes ==> w.block < |view|
  {
    seq(|writes|, i requires 0 <= i < |writes| =>
      Write(writes[i].segment, writes[i].offset, view[writes[i].block]))
  }

  /* ---- groups ---- */

  predicate IsGroup(group: seq<SegmentWrite>, segment: nat) {
    group != [] && group[0].segment == segment
  }

  /** Appends a write to the group of its segment, or starts a new group at the end. */
  function AddWrite(groups: seq<seq<SegmentWrite>>, w: SegmentWrite): seq<seq<SegmentWrite>> {
    if groups == [] then [[w]]
    else if IsGroup(groups[0], w.segment) then [groups[0] + [w]] + groups[1..]
    else [groups[0]] + AddWrite(groups[1..], w)
  }

  function GroupWrites(writes: seq<SegmentWrite>): seq<seq<SegmentWrite>> {
    if writes == [] then []
    else AddWrite(GroupWrites(writes[..|writes| - 1]), writes[|writes| - 1])
  }

  function EntriesOf(writes: seq<SegmentWrite>, segment: nat): seq<SegmentWrite> {
    if writes == [] then []
    else
      var before := EntriesOf(writes[..|writes| - 1], segment);
      var last := writes[|writes| - 1];
      if last.segment == segment then before + [last] else before
  }

  /** The group of a segment, or nothing. */
  function GroupOf(groups: seq<seq<SegmentWrite>>, segment: nat): seq<SegmentWrite> {
    if groups == [] then []
    else if IsGroup(groups[0], segment) then groups[0]
    else GroupOf(groups[1..], segment)
  }

  lemma {:induction false} AddWriteGroup(groups: seq<seq<SegmentWrite>>, w: SegmentWrite, segment: nat)
    ensures GroupOf(AddWrite(groups, w), segment)
         == GroupOf(groups, segment) + (if w.segment == segment then [w] else [])
  {
    if groups != [] && !IsGroup(groups[0], w.segment) {
      AddWriteGroup(groups[1..], w, segment);
    }
  }

  /** The group of a segment holds exactly the writes to it, in their order. */
  lemma {:induction false} GroupHoldsSegment(writes: seq<SegmentWrite>, segment: nat)
    ensures GroupOf(GroupWrites(writes), segment) == EntriesOf(writes, segment)
  {
    if writes != [] {
      var n := |writes| - 1;
      GroupHoldsSegment(writes[..n], segment);
      AddWriteGroup(GroupWrites(writes[..n]), writes[n], segment);
    }
  }

  predicate OneSegment(group: seq<SegmentWrite>) {
    group != [] && forall w :: w in group ==> w.segment == group[0].segment
  }

  /** No group is empty, each is one segment's, and no two are the same segment's. */
  predicate Grouped(groups: seq<seq<SegmentWrite>>) {
    groups == [] || (
      && OneSegment(groups[0])
      && GroupOf(groups[1..], groups[0][0].segment) == []
      && Grouped(groups[1..]))
  }

  lemma {:induction false} AddWriteGrouped(groups: seq<seq<SegmentWrite>>, w: SegmentWrite)
    requires Grouped(groups)
    ensures Grouped(AddWrite(groups, w))
  {
    if groups != [] && !IsGroup(groups[0], w.segment) {
      AddWriteGrouped(groups[1..], w);
      AddWriteGroup(groups[1..], w, groups[0][0].segment);
    }
  }

  lemma {:induction false} GroupsGrouped(writes: seq<SegmentWrite>)
    ensures Grouped(GroupWrites(writes))
  {
    if writes != [] {
      GroupsGrouped(writes[..|writes| - 1]);
      AddWriteGrouped(GroupWrites(writes[..|writes| - 1]), writes[|writes| - 1]);
    }
  }

  lemma {:induction false} OfSegmentAppend(a: seq<Write>, w: Write, segment: nat)
    ensures OfSegment(a + [w], segment) == OfSegment(a, segment) + (if w.segment == segment then [w] else [])
  {
    if a != [] {
      assert (a + [w])[1..] == a[1..] + [w];
      OfSegmentAppend(a[1..], w, segment);
    } else {
      assert a + [w] == [w];
    }
  }

  lemma {:induction false} ResolveSegment(writes: seq<SegmentWrite>, view: seq<Bytes>, segment: nat)
    requires forall w :: w in writes ==> w.block < |view|
    ensures forall w :: w in EntriesOf(writes, segment) ==> w in writes
    ensures OfSegment(Resolve(writes, view), segment) == Resolve(EntriesOf(writes, segment), view)
  {
    if writes != [] {
      var n := |writes| - 1;
      ResolveSegment(writes[..n], view, segment);
      var last := Resolve(writes, view)[n];
      assert Resolve(writes, view) == Resolve(writes[..n], view) + [last];
      OfSegmentAppend(Resolve(writes[..n], view), last, segment);
    }
  }

  /** However the group tasks of one plan interleave, as long as each performs its own writes in
      order, the segment files end up as if the plan had been written entry by entry. */
  lemma GroupsInAnyOrder(files: Files, plan: seq<SegmentWrite>, view: seq<Bytes>, ws: seq<Write>)
    requires forall w :: w in plan ==> w.block < |view|
    requires forall segment: nat, w :: w in GroupOf(GroupWrites(plan), segment) ==> w.block < |view|
    requires forall segment: nat :: OfSegment(ws, segment) == Resolve(GroupOf(GroupWrites(plan), segment), view)
    ensures WriteAll(files, ws) == WriteAll(files, Resolve(plan, view))
  {
    forall segment: nat ensures OfSegment(ws, segment) == OfSegment(Resolve(plan, view), segment) {
      GroupHoldsSegment(plan, segment);
      ResolveSegment(plan, view, segment);
    }
    InterleavingIrrelevant(files, ws, Resolve(plan, view));
  }

  /* ---- a whole store ---- */

  /** Prepare, write every entry, publish. */
  ghost function StoreMany(s: Store, g: Geometry, keys: seq<Key>, blocks: seq<nat>, view: seq<Bytes>): Store
    requires 0 < g.shards && |keys| == |blocks|
    requires forall w :: w in PrepareStore(s, g, keys, blocks).1 ==> w.block < |view|
  {
    var (prepared, plan) := PrepareStore(s, g, keys, blocks);
    CompleteStore(prepared.(files := WriteAll(prepared.files, Resolve(plan, view))), plan, g.block)
  }

  /** The steps that write the first `n` entries of a job in full. */
  function Fills(job: nat, size: nat, n: nat): seq<Step> {
    if n == 0 then [] else Fills(job, size, n - 1) + [WritePart(job, n - 1, size)]
  }

  ghost predicate Filled(s: System, t: System, job: nat, n: nat)
    requires job in s.plans && n <= |s.plans[job].writes| && Sized(s.plans[job].writes, s.plans[job].view, s.g.block)
  {
    var plan := s.plans[job];
    && job in t.plans
    && t == s.(store := s.store.(files := WriteAll(s.store.files, Resolve(plan.writes[..n], plan.view))),
               plans := s.plans[job := plan.(done := t.plans[job].done)])
    && (forall i :: 0 <= i < n ==> i in t.plans[job].done)
  }

  ghost predicate Fillable(t: System, job: nat, n: nat) {
    && t.g.Valid() && job in t.plans && n <= |t.plans[job].writes|
    && Sized(t.plans[job].writes, t.plans[job].view, t.g.block)
  }

  ghost predicate FilledRun(s: System, steps: seq<Step>, t: System, job: nat, n: nat)
    requires Fillable(t, job, n)
  {
    CanRun(s, steps) && Filled(t, After(s, steps), job, n)
  }

  /** After `start` and these steps, `n` entries of the plan are written. */
  ghost predicate FillsDone(s: System, start: seq<Step>, t: System, job: nat, n: nat)
    requires Fillable(t, job, n)
  {
    FilledRun(s, start + Fills(job, t.g.block, n), t, job, n)
  }

  /** Writing a plan entry by entry is a run of the protocol. */
  lemma {:induction false} FillsRun(s: System, start: seq<Step>, t: System, job: nat, n: nat)
    requires StoreRuns.Run(s, start) == Some(t) && Fillable(t, job, n)
    ensures FillsDone(s, start, t, job, n)
  {
    if n == 0 {
      FillsNone(s, start, t, job);
    } else {
      FillsRun(s, start, t, job, n - 1);
      FillsNext(s, start, t, job, n - 1);
    }
  }

  lemma FillsNone(s: System, start: seq<Step>, t: System, job: nat)
    requires StoreRuns.Run(s, start) == Some(t) && Fillable(t, job, 0)
    ensures FillsDone(s, start, t, job, 0)
  {
    FillNone(t, job);
    FilledSame(s, start, start + Fills(job, t.g.block, 0), t, job, 0);
  }

  lemma FillsNext(s: System, start: seq<Step>, t: System, job: nat, n: nat)
    requires Fillable(t, job, n + 1) && FillsDone(s, start, t, job, n)
    ensures FillsDone(s, start, t, job, n + 1)
  {
    FillNext(s, t, start + Fills(job, t.g.block, n), job, n);
    FillsLonger(start, job, t.g.block, n);
  }

  lemma FillsLonger(start: seq<Step>, job: nat, size: nat, n: nat)
    ensures start + Fills(job, size, n) + [WritePart(job, n, size)] == start + Fills(job, size, n + 1)
  {
  }

  lemma FilledSame(s: System, steps: seq<Step>, steps': seq<Step>, t: System, job: nat, n: nat)
    requires Fillable(t, job, n) && FilledRun(s, steps, t, job, n) && steps' == steps
    ensures FilledRun(s, steps', t, job, n)
  {
  }

  lemma FillOne(s: System, t: System, job: nat, n: nat)
    requires s.g.Valid() && job in s.plans && n < |s.plans[job].writes|
    requires Sized(s.plans[job].writes, s.plans[job].view, s.g.block)
    requires Filled(s, t, job, n)
    ensures Enabled(t, WritePart(job, n, s.g.block))
    ensures Filled(s, Apply(t, WritePart(job, n, s.g.block)), job, n + 1)
  {
    var plan, w := s.plans[job], s.plans[job].writes[n];
    assert w in plan.writes;
    var t' := Apply(t, WritePart(job, n, s.g.block));
    var data := plan.view[w.block];
    assert data[..s.g.block] == data;
    var before := Resolve(plan.writes[..n], plan.view);
    assert Resolve(plan.writes[..n + 1], plan.view) == before + [Write(w.segment, w.offset, data)];
    WriteAllAppend(s.store.files, before, [Write(w.segment, w.offset, data)]);
    OneWrite(WriteAll(s.store.files, before), Write(w.segment, w.offset, data));
    assert t'.plans == s.plans[job := plan.(done := t'.plans[job].done)];
  }

  lemma FillNone(t: System, job: nat)
    requires job in t.plans && Sized(t.plans[job].writes, t.plans[job].view, t.g.block)
    ensures Filled(t, t, job, 0)
  {
    var plan := t.plans[job];
    assert t.plans[job := plan] == t.plans;
    assert Resolve(plan.writes[..0], plan.view) == [];
  }

  lemma FillNext(s: System, t: System, steps: seq<Step>, job: nat, n: nat)
    requires Fillable(t, job, n + 1) && FilledRun(s, steps, t, job, n)
    ensures FilledRun(s, steps + [WritePart(job, n, t.g.block)], t, job, n + 1)
  {
    FillOne(t, After(s, steps), job, n);
    RunNext(s, steps, WritePart(job, n, t.g.block));
  }

  lemma OneWrite(files: Files, w: Write)
    ensures WriteAll(files, [w]) == WriteOne(files, w)
  {
    assert [w][1..] == [];
  }

  /** A whole store, as a run of the protocol. */
  function StoreRun(job: nat, keys: seq<Key>, blocks: seq<nat>, view: seq<Bytes>, size: nat, n: nat): seq<Step> {
    [Prepare(job, keys, blocks, view)] + Fills(job, size, n) + [Publish(job, true)]
  }

  lemma StoreManyIsRun(s: System, job: nat, keys: seq<Key>, blocks: seq<nat>, view: seq<Bytes>)
    requires Inv(s) && Enabled(s, Prepare(job, keys, blocks, view))
    ensures forall w :: w in PrepareStore(s.store, s.g, keys, blocks).1 ==> w.block < |view|
    ensures var steps := StoreRun(job, keys, blocks, view, s.g.block, |PrepareStore(s.store, s.g, keys, blocks).1|);
      CanRun(s, steps) && After(s, steps).store == StoreMany(s.store, s.g, keys, blocks, view)
  {
    var prepare := Prepare(job, keys, blocks, view);
    var t := Apply(s, prepare);
    NewPlanValid(s, prepare);
    RunNext(s, [], prepare);
    assert [] + [prepare] == [prepare];
    var n := |t.plans[job].writes|;
    FillsRun(s, [prepare], t, job, n);
    assert t.plans[job].writes[..n] == t.plans[job].writes;
    RunNext(s, [prepare] + Fills(job, s.g.block, n), Publish(job, true));
  }

  /** What a key's row holds after a store: its earlier bytes when it was indexed, otherwise the
      bytes of its first block in the job. */
  ghost function Expected(s: Store, keys: seq<Key>, blocks: seq<nat>, view: seq<Bytes>, key: Key): Bytes
    requires |keys| == |blocks| && key in keys && (forall b :: b in blocks ==> b < |view|)
    requires key in s.index ==> Readable(s.files, s.index[key])
  {
    if key in s.index then BytesAt(s.files, s.index[key])
    else
      assert blocks[FirstIndex(keys, key)] in blocks;
      view[blocks[FirstIndex(keys, key)]]
  }

  lemma FillsRemoveNothing(job: nat, size: nat, n: nat)
    ensures forall step :: step in Fills(job, size, n) ==> step.WritePart?
  {
  }

  lemma StoreRunRemovesNothing(job: nat, keys: seq<Key>, blocks: seq<nat>, view: seq<Bytes>, size: nat, n: nat, key: Key)
    ensures NeverRemoves(StoreRun(job, keys, blocks, view, size, n), key)
  {
    FillsRemoveNothing(job, size, n);
  }

  /** A store from any reachable state leaves every indexed key's bytes as they were. */
  lemma StoreKeepsOthers(s: System, job: nat, keys: seq<Key>, blocks: seq<nat>, view: seq<Bytes>, key: Key)
    requires Inv(s) && Enabled(s, Prepare(job, keys, blocks, view)) && key in s.store.index
    ensures forall w :: w in PrepareStore(s.store, s.g, keys, blocks).1 ==> w.block < |view|
    ensures var t := StoreMany(s.store, s.g, keys, blocks, view); var at := s.store.index[key];
      && key in t.index && t.index[key] == at && Readable(s.store.files, at) && Readable(t.files, at)
      && BytesAt(t.files, at) == BytesAt(s.store.files, at)
  {
    var at, n := s.store.index[key], |PrepareStore(s.store, s.g, keys, blocks).1|;
    StoreManyIsRun(s, job, keys, blocks, view);
    StoreRunRemovesNothing(job, keys, blocks, view, s.g.block, n, key);
    assert at in s.sealed;
    RunKeepsRow(s, StoreRun(job, keys, blocks, view, s.g.block, n), key, at, BytesAt(s.store.files, at));
  }

  /** ... and gives every key of the job a readable row with the bytes it should hold. */
  lemma StoredRow(s: System, job: nat, keys: seq<Key>, blocks: seq<nat>, view: seq<Bytes>, key: Key)
    requires Inv(s) && Enabled(s, Prepare(job, keys, blocks, view)) && key in keys
    ensures key in s.store.index ==> Readable(s.store.files, s.store.index[key])
    ensures forall w :: w in PrepareStore(s.store, s.g, keys, blocks).1 ==> w.block < |view|
    ensures var t := StoreMany(s.store, s.g, keys, blocks, view);
      && key in t.index && Readable(t.files, t.index[key])
      && BytesAt(t.files, t.index[key]) == Expected(s.store, keys, blocks, view, key)
  {
    StoreManyIsRun(s, job, keys, blocks, view);
    if key in s.store.index {
      StoreKeepsOthers(s, job, keys, blocks, view, key);
    } else {
      NewRow(s, job, keys, blocks, view, key);
    }
  }

  lemma PlannedWrite(s: System, keys: seq<Key>, blocks: seq<nat>, key: Key) returns (w: SegmentWrite)
    requires Inv(s) && |keys| == |blocks| && key in keys && key !in s.store.index
    ensures w in PrepareStore(s.store, s.g, keys, blocks).1 && w.key == key
  {
    var found, sources := Locations(s.store, keys), Sources(s.store, keys, blocks);
    LocationsConsistent(s.store, keys);
    UniquePlans(keys, blocks, found);
    UniqueDistinct(keys, blocks, found);
    var i := FirstIndex(keys, key);
    assert found[i].None? && Planned(sources, keys[i]);
    var source :| source in sources && source.key == key;
    PlanComplete(s.store.(cache := CacheAfter(s.store, keys)), s.g, sources);
    w :| w in PlanOf(s.store.(cache := CacheAfter(s.store, keys)), s.g, sources) && w.key == source.key;
  }

  lemma NewRow(s: System, job: nat, keys: seq<Key>, blocks: seq<nat>, view: seq<Bytes>, key: Key)
    requires Inv(s) && Enabled(s, Prepare(job, keys, blocks, view)) && key in keys && key !in s.store.index
    requires forall w :: w in PrepareStore(s.store, s.g, keys, blocks).1 ==> w.block < |view|
    ensures var t := StoreMany(s.store, s.g, keys, blocks, view);
      && key in t.index && Readable(t.files, t.index[key])
      && BytesAt(t.files, t.index[key]) == Expected(s.store, keys, blocks, view, key)
  {
    var w := PlannedWrite(s, keys, blocks, key);
    NewWriteFacts(s, keys, blocks, w);
    var u := WrittenJob(s, job, keys, blocks, view);
    PublishedRow(u, job, true, w);
  }

  /** The state in which a whole job is written, and can be published. */
  lemma WrittenJob(s: System, job: nat, keys: seq<Key>, blocks: seq<nat>, view: seq<Bytes>) returns (u: System)
    requires Inv(s) && Enabled(s, Prepare(job, keys, blocks, view))
    requires forall w :: w in PrepareStore(s.store, s.g, keys, blocks).1 ==> w.block < |view|
    ensures Inv(u) && Enabled(u, Publish(job, true)) && u.store.index == s.store.index && u.g.block == s.g.block
    ensures u.plans[job].writes == PrepareStore(s.store, s.g, keys, blocks).1 && u.plans[job].view == view
    ensures Apply(u, Publish(job, true)).store == StoreMany(s.store, s.g, keys, blocks, view)
  {
    var prepare := Prepare(job, keys, blocks, view);
    var t := Apply(s, prepare);
    var n := |t.plans[job].writes|;
    NewPlanValid(s, prepare);
    RunNext(s, [], prepare);
    assert [] + [prepare] == [prepare];
    FillsRun(s, [prepare], t, job, n);
    var filled := [prepare] + Fills(job, s.g.block, n);
    RunKeeps(s, filled);
    u := After(s, filled);
    assert t.plans[job].writes[..n] == t.plans[job].writes;
  }

  /** Storing a job and loading its keys into distinct rows gives every row what its key should hold,
      and leaves all other rows alone. */
  lemma StoreThenLoad(s: System, job: nat, keys: seq<Key>, blocks: seq<nat>, view: seq<Bytes>,
                      rows: seq<Bytes>, rs: seq<Read>)
    requires Inv(s) && Enabled(s, Prepare(job, keys, blocks, view)) && |rs| == |keys|
    requires forall w :: w in PrepareStore(s.store, s.g, keys, blocks).1 ==> w.block < |view|
    requires var t := StoreMany(s.store, s.g, keys, blocks, view);
      forall i :: 0 <= i < |keys| ==> Locate(t, keys[i]) == Some(rs[i].at) && rs[i].block < |rows|
    requires DistinctBlocks(rs)
    ensures var t := StoreMany(s.store, s.g, keys, blocks, view);
      && CanRead(t.files, |rows|, rs)
      && (forall i :: 0 <= i < |keys| ==>
            && (keys[i] in s.store.index ==> Readable(s.store.files, s.store.index[keys[i]]))
            && ReadEach(t.files, rows, rs)[rs[i].block] == Expected(s.store, keys, blocks, view, keys[i]))
      && (forall b: nat :: b < |rows| && (forall r :: r in rs ==> r.block != b) ==>
            ReadEach(t.files, rows, rs)[b] == rows[b])
  {
    var t := StoreMany(s.store, s.g, keys, blocks, view);
    StoreManyIsRun(s, job, keys, blocks, view);
    RunKeeps(s, StoreRun(job, keys, blocks, view, s.g.block, |PrepareStore(s.store, s.g, keys, blocks).1|));
    forall i | 0 <= i < |keys|
      ensures keys[i] in s.store.index ==> Readable(s.store.files, s.store.index[keys[i]])
      ensures Readable(t.files, rs[i].at)
      ensures BytesAt(t.files, rs[i].at) == Expected(s.store, keys, blocks, view, keys[i])
    {
      StoredRow(s, job, keys, blocks, view, keys[i]);
    }
    assert CanRead(t.files, |rows|, rs);
    forall i | 0 <= i < |keys|
      ensures ReadEach(t.files, rows, rs)[rs[i].block] == BytesAt(t.files, rs[i].at)
    {
      ReadEachRow(t.files, rows, rs, i);
    }
    forall b: nat | b < |rows| && (forall r :: r in rs ==> r.block != b)
      ensures ReadEach(t.files, rows, rs)[b] == rows[b]
    {
      ReadEachKeeps(t.files, rows, rs, b);
    }
  }
}
