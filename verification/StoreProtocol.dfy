/** Every interleaving of the steps that jobs take on one store: prepare, write part of a slot,
    publish or abandon, look up, delete, and crash and reopen. */
module StoreProtocol {
  import opened Basics
  import opened Wrappers
  import opened SegmentFiles
  import opened SegmentAllocation
  import opened SegmentModel

  /** A job between its prepare and its completion: its writes, the rows of the primary view as
      they were pinned, and the entries that were written in full. */
  datatype Plan = Plan(writes: seq<SegmentWrite>, view: seq<Bytes>, done: set<nat>)

  /** The store, the jobs in flight, and two history variables: the slots ever handed out, in order,
      and the bytes of every location that a completed job left behind. */
  datatype System = System(
    g: Geometry, store: Store, plans: map<nat, Plan>, issued: seq<Location>, sealed: map<Location, Bytes>)

  datatype Step =
    | Prepare(job: nat, keys: seq<Key>, blocks: seq<nat>, view: seq<Bytes>)
    | WritePart(job: nat, entry: nat, bytes: nat)
    | Publish(job: nat, cached: bool)
    | Abandon(job: nat)
    | LookUp(keys: seq<Key>)
    | Remove(removed: set<Key>)
    | Reopen(g: Geometry)

  predicate Sized(writes: seq<SegmentWrite>, view: seq<Bytes>, size: nat) {
    forall w :: w in writes ==> w.block < |view| && |view[w.block]| == size
  }

  predicate Owns(s: System, job: nat, entry: nat) {
    job in s.plans && entry < |s.plans[job].writes| && s.plans[job].writes[entry].block < |s.plans[job].view|
  }

  function SlotOf(s: System, job: nat, entry: nat): Location
    requires Owns(s, job, entry)
  {
    Slot(s.plans[job].writes[entry], s.g.block)
  }

  function DataOf(s: System, job: nat, entry: nat): Bytes
    requires Owns(s, job, entry)
  {
    s.plans[job].view[s.plans[job].writes[entry].block]
  }

  predicate AllDone(plan: Plan) {
    forall i :: 0 <= i < |plan.writes| ==> i in plan.done
  }

  predicate Enabled(s: System, step: Step) {
    match step
    case Prepare(job, keys, blocks, view) =>
      && job !in s.plans && |keys| == |blocks|
      && (forall b :: b in blocks ==> b < |view| && |view[b]| == s.g.block)
    case WritePart(job, entry, bytes) => Owns(s, job, entry) && bytes <= |DataOf(s, job, entry)|
    case Publish(job, _) => job in s.plans && AllDone(s.plans[job])
    case Abandon(job) => job in s.plans
    case LookUp(_) => true
    case Remove(_) => true
    case Reopen(g) => g.Valid() && g.block == s.g.block
  }

  function Seal(sealed: map<Location, Bytes>, writes: seq<SegmentWrite>, view: seq<Bytes>, size: nat): map<Location, Bytes>
    requires Sized(writes, view, size)
  {
    if writes == [] then sealed
    else
      var w := writes[|writes| - 1];
      Seal(sealed, writes[..|writes| - 1], view, size)[Slot(w, size) := view[w.block]]
  }

  /** The slots that a prepare hands out. */
  ghost function Handed(s: System, keys: seq<Key>, blocks: seq<nat>): seq<Location>
    requires s.g.Valid() && |keys| == |blocks|
  {
    var sources := Unique(keys, blocks, Locations(s.store, keys));
    if sources == [] then [] else NewSlots(s.store, s.g, |sources|)
  }

  ghost function Apply(s: System, step: Step): System
    requires s.g.Valid() && Enabled(s, step)
  {
    match step
    case Prepare(job, keys, blocks, view) =>
      var (store, writes) := PrepareStore(s.store, s.g, keys, blocks);
      s.(store := store,
         plans := s.plans[job := Plan(writes, view, {})],
         issued := s.issued + Handed(s, keys, blocks))
    case WritePart(job, entry, bytes) =>
      var at, data, plan := SlotOf(s, job, entry), DataOf(s, job, entry), s.plans[job];
      s.(store := s.store.(files := WriteOne(s.store.files, Write(at.segment, at.offset, data[..bytes]))),
         plans := s.plans[job := plan.(done := if bytes == |data| then plan.done + {entry} else plan.done)])
    case Publish(job, cached) =>
      var plan := s.plans[job];
      var store := CompleteStore(s.store, plan.writes, s.g.block);
      s.(store := if cached then store else store.(cache := s.store.cache),
         plans := s.plans - {job},
         sealed := if Sized(plan.writes, plan.view, s.g.block)
                   then Seal(s.sealed, plan.writes, plan.view, s.g.block) else s.sealed)
    case Abandon(job) => s.(plans := s.plans - {job})
    case LookUp(keys) => s.(store := GetLocations(s.store, keys).0)
    case Remove(keys) =>
      var store := Delete(s.store, keys);
      s.(store := store,
         sealed := map at | at in s.sealed && Guarded(store.meta, store.index, at) :: s.sealed[at])
    case Reopen(g) =>
      s.(g := g, store := s.store.(cache := map[]), plans := map[])
  }

  /* ---- the invariant ---- */

  /** The cache only holds rows of the table. */
  ghost predicate CacheAgrees(store: Store) {
    forall key :: key in store.cache ==> key in store.index && store.cache[key] == store.index[key]
  }

  /** Sealed locations hold their bytes, and the allocator keeps away from them. */
  ghost predicate SealsHold(s: System) {
    forall at :: at in s.sealed ==>
      && Readable(s.store.files, at) && BytesAt(s.store.files, at) == s.sealed[at]
      && Guarded(s.store.meta, s.store.index, at)
  }

  ghost predicate RowsSealed(s: System) {
    forall key :: key in s.store.index ==> s.store.index[key] in s.sealed
  }

  ghost predicate IssuedCovered(s: System) {
    && PairwiseDisjoint(s.issued)
    && forall at :: at in s.issued ==> HasShards(s.store.meta) && Covered(s.store.meta, at)
  }

  ghost predicate PlanValid(s: System, job: nat)
    requires job in s.plans
  {
    var plan := s.plans[job];
    && Sized(plan.writes, plan.view, s.g.block) && DistinctKeys(plan.writes)
    && forall i :: 0 <= i < |plan.writes| ==> Slot(plan.writes[i], s.g.block) in s.issued
  }

  /** A finished entry's slot holds its data. */
  ghost predicate DoneHolds(s: System) {
    forall job, i: nat :: Owns(s, job, i) && i in s.plans[job].done ==>
      Readable(s.store.files, SlotOf(s, job, i)) && BytesAt(s.store.files, SlotOf(s, job, i)) == DataOf(s, job, i)
  }

  /** No two entries in flight share a byte, and none touches a sealed location. */
  ghost predicate EntriesApart(s: System) {
    && (forall job, i: nat, job', i': nat ::
          Owns(s, job, i) && Owns(s, job', i') && (job != job' || i != i') ==>
            SlotOf(s, job, i).Disjoint(SlotOf(s, job', i')))
    && (forall job, i: nat, at :: Owns(s, job, i) && at in s.sealed ==> at.Disjoint(SlotOf(s, job, i)))
  }

  ghost predicate Inv(s: System) {
    && s.g.Valid() && MetaValid(s.store.meta)
    && CacheAgrees(s.store)
    && IssuedCovered(s)
    && SealsHold(s) && RowsSealed(s)
    && (forall job :: job in s.plans ==> PlanValid(s, job))
    && DoneHolds(s) && EntriesApart(s)
  }

  /** A fresh store, or one that an earlier version left with a single append stream. */
  ghost predicate Initial(s: System) {
    && s.g.Valid() && s.plans == map[] && s.issued == [] && s.store.cache == map[]
    && (forall k: nat :: ShardSegment(k) !in s.store.meta && ShardOffset(k) !in s.store.meta)
    && (forall key :: key in s.store.index ==> Readable(s.store.files, s.store.index[key]))
    && (HasLegacyRows(s.store.meta) ==> forall key :: key in s.store.index ==>
          Below(s.store.index[key], Mark(s.store.meta[LegacySegment], s.store.meta[LegacyOffset])))
    && s.sealed == map at | at in s.store.index.Values && Readable(s.store.files, at) :: BytesAt(s.store.files, at)
  }

  lemma InitialInv(s: System)
    requires Initial(s)
    ensures Inv(s)
  {
    forall at | at in s.sealed ensures Guarded(s.store.meta, s.store.index, at) {
      var key :| key in s.store.index && s.store.index[key] == at;
      LatestCovers(s.store.meta, s.store.index, key);
    }
    forall key | key in s.store.index ensures s.store.index[key] in s.sealed {
      assert s.store.index[key] in s.store.index.Values;
    }
  }

  /* ---- each step keeps it ---- */

  lemma CacheAfterAgrees(store: Store, keys: seq<Key>)
    requires CacheAgrees(store)
    ensures CacheAgrees(store.(cache := CacheAfter(store, keys)))
  {
  }

  lemma LookUpKeeps(s: System, keys: seq<Key>)
    requires Inv(s)
    ensures Inv(Apply(s, LookUp(keys)))
  {
    var s' := Apply(s, LookUp(keys));
    CacheAfterAgrees(s.store, keys);
    FewerPlans(s, s');
    assert SealsHold(s') && RowsSealed(s');
  }

  lemma AbandonKeeps(s: System, job: nat)
    requires Inv(s) && Enabled(s, Abandon(job))
    ensures Inv(Apply(s, Abandon(job)))
  {
    var s' := Apply(s, Abandon(job));
    FewerPlans(s, s');
  }

  ghost predicate SamePlans(s: System, s': System) {
    && s'.g.block == s.g.block && s'.plans.Keys <= s.plans.Keys
    && forall job :: job in s'.plans ==> s'.plans[job] == s.plans[job]
  }

  lemma FewerPlans(s: System, s': System)
    requires SamePlans(s, s') && (forall job :: job in s.plans ==> PlanValid(s, job)) && DoneHolds(s) && EntriesApart(s)
    requires s'.store.files == s.store.files && s'.issued == s.issued && s'.sealed.Keys <= s.sealed.Keys
    ensures (forall job :: job in s'.plans ==> PlanValid(s', job)) && DoneHolds(s') && EntriesApart(s')
  {
    forall job, i: nat | Owns(s', job, i)
      ensures Owns(s, job, i) && SlotOf(s', job, i) == SlotOf(s, job, i) && DataOf(s', job, i) == DataOf(s, job, i)
    {
    }
    forall job | job in s'.plans ensures PlanValid(s', job) {
      assert PlanValid(s, job);
    }
  }

  lemma ReopenKeeps(s: System, g: Geometry)
    requires Inv(s) && Enabled(s, Reopen(g))
    ensures Inv(Apply(s, Reopen(g)))
  {
  }

  lemma RemoveKeeps(s: System, keys: set<Key>)
    requires Inv(s)
    ensures Inv(Apply(s, Remove(keys)))
  {
    var s' := Apply(s, Remove(keys));
    FewerPlans(s, s');
    forall key | key in s'.store.index ensures s'.store.index[key] in s'.sealed {
      assert s.store.index[key] in s.sealed;
      RemainingRowGuarded(s, s', key);
    }
  }

  lemma RemainingRowGuarded(s: System, s': System, key: Key)
    requires Inv(s) && s'.store.meta == s.store.meta && key in s'.store.index
    requires key in s.store.index && s'.store.index[key] == s.store.index[key]
    ensures Guarded(s'.store.meta, s'.store.index, s'.store.index[key])
  {
    var at := s.store.index[key];
    assert Guarded(s.store.meta, s.store.index, at);
    if !HasShards(s.store.meta) {
      if HasLegacyRows(s.store.meta) {
        assert LatestSegment(s.store.meta, s.store.index) == LatestSegment(s.store.meta, s'.store.index);
      } else {
        LatestCovers(s'.store.meta, s'.store.index, key);
      }
    }
  }

  /** Writing the first bytes of what is already there changes nothing. */
  lemma RewriteSame(files: Files, w: Write, n: nat)
    requires w.data != [] && n <= |w.data|
    requires Readable(files, w.Target()) && BytesAt(files, w.Target()) == w.data
    ensures var files' := WriteOne(files, w.(data := w.data[..n]));
      Readable(files', w.Target()) && BytesAt(files', w.Target()) == w.data
  {
    var files' := WriteOne(files, w.(data := w.data[..n]));
    forall k | 0 <= k < |w.data| ensures File(files', w.segment)[w.offset + k] == w.data[k] {
      assert files[w.segment][w.offset + k] == BytesAt(files, w.Target())[k];
    }
  }

  lemma PartKeeps(files: Files, w: Write, n: nat, at: Location)
    requires n <= |w.data| && Readable(files, at) && at.Disjoint(w.Target())
    ensures var files' := WriteOne(files, w.(data := w.data[..n]));
      Readable(files', at) && BytesAt(files', at) == BytesAt(files, at)
  {
    if n > 0 {
      WriteOneKeeps(files, w.(data := w.data[..n]), at);
    }
  }

  lemma WriteKeeps(s: System, job: nat, entry: nat, bytes: nat)
    requires Inv(s) && Enabled(s, WritePart(job, entry, bytes))
    ensures Inv(Apply(s, WritePart(job, entry, bytes)))
  {
    var s' := Apply(s, WritePart(job, entry, bytes));
    var at, data := SlotOf(s, job, entry), DataOf(s, job, entry);
    assert PlanValid(s, job);
    assert s.plans[job].writes[entry] in s.plans[job].writes;
    var w := Write(at.segment, at.offset, data);
    assert w.Target() == at;
    forall sealed | sealed in s.sealed
      ensures Readable(s'.store.files, sealed) && BytesAt(s'.store.files, sealed) == s.sealed[sealed]
    {
      assert sealed.Disjoint(SlotOf(s, job, entry));
      PartKeeps(s.store.files, w, bytes, sealed);
    }
    assert SealsHold(s');
    SameEntries(s, s');
    forall j, i: nat | Owns(s', j, i) && i in s'.plans[j].done
      ensures Readable(s'.store.files, SlotOf(s', j, i)) && BytesAt(s'.store.files, SlotOf(s', j, i)) == DataOf(s', j, i)
    {
      if j == job && i == entry {
        if bytes == |data| {
          assert data[..bytes] == data;
          WriteOneReads(s.store.files, w);
        } else {
          RewriteSame(s.store.files, w, bytes);
        }
      } else {
        assert Owns(s, j, i) && i in s.plans[j].done;
        assert SlotOf(s, j, i).Disjoint(SlotOf(s, job, entry));
        PartKeeps(s.store.files, w, bytes, SlotOf(s, j, i));
      }
    }
    assert RowsSealed(s');
  }

  /** Two states whose plans have the same entries, whatever is done of them. */
  ghost predicate SameWrites(s: System, s': System) {
    && s'.g.block == s.g.block && s'.plans.Keys == s.plans.Keys
    && forall job :: job in s'.plans ==>
         s'.plans[job].writes == s.plans[job].writes && s'.plans[job].view == s.plans[job].view
  }

  lemma SameEntries(s: System, s': System)
    requires SameWrites(s, s') && s'.issued == s.issued && s'.sealed.Keys == s.sealed.Keys
    requires (forall job :: job in s.plans ==> PlanValid(s, job)) && EntriesApart(s)
    ensures (forall job :: job in s'.plans ==> PlanValid(s', job)) && EntriesApart(s')
  {
    forall job, i: nat | Owns(s', job, i)
      ensures Owns(s, job, i) && SlotOf(s', job, i) == SlotOf(s, job, i)
    {
    }
    forall job | job in s'.plans ensures PlanValid(s', job) {
      assert PlanValid(s, job);
    }
  }

  lemma {:induction false} SealFacts(sealed: map<Location, Bytes>, writes: seq<SegmentWrite>, view: seq<Bytes>, size: nat)
    requires Sized(writes, view, size)
    ensures var after := Seal(sealed, writes, view, size);
      && (forall at :: at in sealed ==> at in after)
      && (forall w :: w in writes ==> Slot(w, size) in after)
      && (forall at :: at in after ==>
            || (at in sealed && after[at] == sealed[at])
            || exists w :: w in writes && Slot(w, size) == at && after[at] == view[w.block])
  {
    if writes != [] {
      var n := |writes| - 1;
      SealFacts(sealed, writes[..n], view, size);
      var before, after := Seal(sealed, writes[..n], view, size), Seal(sealed, writes, view, size);
      assert writes[n] in writes;
      forall at | at in after && !(at in sealed && after[at] == sealed[at])
        ensures exists w :: w in writes && Slot(w, size) == at && after[at] == view[w.block]
      {
        if at != Slot(writes[n], size) {
          var w :| w in writes[..n] && Slot(w, size) == at && before[at] == view[w.block];
          assert w in writes;
        }
      }
    }
  }

  /** A completed job's slots hold its data, and are covered by the persisted marks. */
  lemma DoneSlots(s: System, job: nat, w: SegmentWrite)
    requires Inv(s) && job in s.plans && AllDone(s.plans[job]) && w in s.plans[job].writes
    ensures var at := Slot(w, s.g.block);
      && w.block < |s.plans[job].view|
      && Readable(s.store.files, at) && BytesAt(s.store.files, at) == s.plans[job].view[w.block]
      && HasShards(s.store.meta) && Covered(s.store.meta, at)
  {
    assert PlanValid(s, job);
    var i :| 0 <= i < |s.plans[job].writes| && s.plans[job].writes[i] == w;
    assert Owns(s, job, i) && i in s.plans[job].done;
    assert Slot(s.plans[job].writes[i], s.g.block) in s.issued;
  }

  lemma PublishSeals(s: System, job: nat, cached: bool)
    requires Inv(s) && Enabled(s, Publish(job, cached))
    ensures var s' := Apply(s, Publish(job, cached)); SealsHold(s') && RowsSealed(s')
  {
    var s', plan, size := Apply(s, Publish(job, cached)), s.plans[job], s.g.block;
    assert PlanValid(s, job);
    InsertRowsFacts(s.store.index, plan.writes, size);
    SealFacts(s.sealed, plan.writes, plan.view, size);
    forall at | at in s'.sealed
      ensures Readable(s'.store.files, at) && BytesAt(s'.store.files, at) == s'.sealed[at]
      ensures Guarded(s'.store.meta, s'.store.index, at)
    {
      if plan.writes == [] {
        assert s'.store.index == s.store.index;
      } else {
        DoneSlots(s, job, plan.writes[0]);
        if !(at in s.sealed && s'.sealed[at] == s.sealed[at]) {
          var w :| w in plan.writes && Slot(w, size) == at && s'.sealed[at] == plan.view[w.block];
          DoneSlots(s, job, w);
        }
      }
    }
    forall key | key in s'.store.index ensures s'.store.index[key] in s'.sealed {
      if key in s.store.index {
        assert s.store.index[key] in s.sealed;
      } else {
        var w :| w in plan.writes && w.key == key && s'.store.index[key] == Slot(w, size);
      }
    }
  }

  lemma PublishCache(s: System, job: nat, cached: bool)
    requires Inv(s) && Enabled(s, Publish(job, cached))
    ensures CacheAgrees(Apply(s, Publish(job, cached)).store)
  {
    var writes := s.plans[job].writes;
    InsertRowsFacts(s.store.index, writes, s.g.block);
    var published := s.store.(index := InsertRows(s.store.index, writes, s.g.block));
    assert CacheAgrees(published);
    CacheAfterAgrees(published, KeysOf(writes));
  }

  lemma OthersApart(s: System, job: nat, w: SegmentWrite, j: nat, i: nat)
    requires EntriesApart(s) && job in s.plans && PlanValid(s, job)
    requires w in s.plans[job].writes && j != job && Owns(s, j, i)
    ensures Slot(w, s.g.block).Disjoint(SlotOf(s, j, i))
  {
    var k :| 0 <= k < |s.plans[job].writes| && s.plans[job].writes[k] == w;
    assert Owns(s, job, k);
    assert SlotOf(s, job, k).Disjoint(SlotOf(s, j, i));
  }

  lemma PublishApart(s: System, job: nat, cached: bool)
    requires Inv(s) && Enabled(s, Publish(job, cached))
    ensures EntriesApart(Apply(s, Publish(job, cached)))
  {
    var s', plan, size := Apply(s, Publish(job, cached)), s.plans[job], s.g.block;
    assert PlanValid(s, job);
    var sealed := Seal(s.sealed, plan.writes, plan.view, size);
    SealFacts(s.sealed, plan.writes, plan.view, size);
    forall j, i: nat, at | Owns(s', j, i) && at in sealed ensures at.Disjoint(SlotOf(s', j, i)) {
      assert Owns(s, j, i) && SlotOf(s', j, i) == SlotOf(s, j, i);
      if at !in s.sealed {
        var w :| w in plan.writes && Slot(w, size) == at;
        OthersApart(s, job, w, j, i);
      }
    }
    EntriesStillApart(s, s');
  }

  lemma PublishKeeps(s: System, job: nat, cached: bool)
    requires Inv(s) && Enabled(s, Publish(job, cached))
    ensures Inv(Apply(s, Publish(job, cached)))
  {
    var s' := Apply(s, Publish(job, cached));
    PublishSeals(s, job, cached);
    PublishCache(s, job, cached);
    PublishApart(s, job, cached);
    FewerPlans(s, s'.(sealed := s.sealed));
    assert forall j :: j in s'.plans ==> PlanValid(s', j) by {
      assert forall j :: j in s'.plans ==> PlanValid(s'.(sealed := s.sealed), j);
    }
    assert DoneHolds(s') by {
      assert DoneHolds(s'.(sealed := s.sealed));
    }
  }

  lemma EntriesStillApart(s: System, s': System)
    requires EntriesApart(s) && SamePlans(s, s')
    requires forall j, i: nat, at :: Owns(s', j, i) && at in s'.sealed ==> at.Disjoint(SlotOf(s', j, i))
    ensures EntriesApart(s')
  {
    forall job, i: nat | Owns(s', job, i)
      ensures Owns(s, job, i) && SlotOf(s', job, i) == SlotOf(s, job, i)
    {
    }
  }

  /* ---- preparing a job ---- */

  lemma NewWriteFacts(s: System, keys: seq<Key>, blocks: seq<nat>, w: SegmentWrite)
    requires s.g.Valid() && MetaValid(s.store.meta) && |keys| == |blocks|
    requires w in PrepareStore(s.store, s.g, keys, blocks).1
    ensures w.key in keys && w.block == blocks[FirstIndex(keys, w.key)] && w.block in blocks
    ensures Locate(s.store, w.key).None?
    ensures Slot(w, s.g.block) in Handed(s, keys, blocks)
  {
    var looked := s.store.(cache := CacheAfter(s.store, keys));
    var sources := Sources(s.store, keys, blocks);
    LocationsConsistent(s.store, keys);
    var i := PlanMembers(looked, s.g, sources, w);
    UniqueBlocks(keys, blocks, Locations(s.store, keys), sources[i]);
    UniquePlans(keys, blocks, Locations(s.store, keys));
    assert Planned(sources, keys[FirstIndex(keys, w.key)]);
  }

  lemma NewPlanValid(s: System, step: Step)
    requires Inv(s) && Enabled(s, step) && step.Prepare?
    ensures PlanValid(Apply(s, step), step.job)
  {
    var s' := Apply(s, step);
    var writes := s'.plans[step.job].writes;
    forall w | w in writes
      ensures w.block < |step.view| && |step.view[w.block]| == s.g.block && Slot(w, s.g.block) in s'.issued
    {
      NewWriteFacts(s, step.keys, step.blocks, w);
    }
    UniqueDistinct(step.keys, step.blocks, Locations(s.store, step.keys));
    var sources := Sources(s.store, step.keys, step.blocks);
    if sources != [] {
      PlanComplete(s.store.(cache := CacheAfter(s.store, step.keys)), s.g, sources);
    }
  }

  /** The slots handed out are disjoint from each other and from everything guarded. */
  lemma HandedFacts(s: System, keys: seq<Key>, blocks: seq<nat>)
    requires s.g.Valid() && MetaValid(s.store.meta) && |keys| == |blocks|
    ensures var meta' := PrepareStore(s.store, s.g, keys, blocks).0.meta;
      && MetaValid(meta')
      && PairwiseDisjoint(Handed(s, keys, blocks))
      && (forall slot :: slot in Handed(s, keys, blocks) ==>
            && HasShards(meta') && Covered(meta', slot)
            && slot.length == s.g.block && slot.offset + slot.length <= s.g.segment)
  {
    var sources := Sources(s.store, keys, blocks);
    if sources != [] {
      AllocationStep(s.store.meta, s.store.index, s.g, |sources|);
    }
  }

  lemma HandedAvoids(s: System, keys: seq<Key>, blocks: seq<nat>, at: Location)
    requires s.g.Valid() && MetaValid(s.store.meta) && |keys| == |blocks|
    requires Guarded(s.store.meta, s.store.index, at)
    ensures var meta' := PrepareStore(s.store, s.g, keys, blocks).0.meta;
      && Guarded(meta', s.store.index, at)
      && (HasShards(s.store.meta) ==> HasShards(meta') && Covered(meta', at))
      && forall slot :: slot in Handed(s, keys, blocks) ==> at.Disjoint(slot)
  {
    var sources := Sources(s.store, keys, blocks);
    if sources != [] {
      AllocationStep(s.store.meta, s.store.index, s.g, |sources|);
      AllocationKeeps(s.store.meta, s.store.index, s.g, |sources|, at);
    }
  }

  lemma PrepareIssues(s: System, step: Step)
    requires Inv(s) && Enabled(s, step) && step.Prepare?
    ensures IssuedCovered(Apply(s, step)) && SealsHold(Apply(s, step))
  {
    var s' := Apply(s, step);
    var handed := Handed(s, step.keys, step.blocks);
    HandedFacts(s, step.keys, step.blocks);
    forall at | at in s.issued
      ensures HasShards(s'.store.meta) && Covered(s'.store.meta, at)
      ensures forall slot :: slot in handed ==> at.Disjoint(slot)
    {
      HandedAvoids(s, step.keys, step.blocks, at);
    }
    AppendDisjoint(s.issued, handed);
    forall at | at in s.sealed ensures Guarded(s'.store.meta, s'.store.index, at) {
      HandedAvoids(s, step.keys, step.blocks, at);
    }
  }

  lemma AppendDisjoint(a: seq<Location>, b: seq<Location>)
    requires PairwiseDisjoint(a) && PairwiseDisjoint(b)
    requires forall x, y :: x in a && y in b ==> x.Disjoint(y)
    ensures PairwiseDisjoint(a + b)
  {
    forall i, j | 0 <= i < j < |a + b| ensures (a + b)[i].Disjoint((a + b)[j]) {
      if i < |a| <= j {
        assert (a + b)[i] in a && (a + b)[j] in b;
      }
    }
  }

  lemma NewEntryApart(s: System, step: Step, i: nat)
    requires Inv(s) && Enabled(s, step) && step.Prepare? && Owns(Apply(s, step), step.job, i)
    ensures var s' := Apply(s, step);
      && (forall at :: at in s.sealed ==> at.Disjoint(SlotOf(s', step.job, i)))
      && (forall j, k: nat :: Owns(s, j, k) ==> SlotOf(s, j, k).Disjoint(SlotOf(s', step.job, i)))
  {
    var s' := Apply(s, step);
    var w := s'.plans[step.job].writes[i];
    NewWriteFacts(s, step.keys, step.blocks, w);
    forall at | at in s.sealed ensures at.Disjoint(SlotOf(s', step.job, i)) {
      HandedAvoids(s, step.keys, step.blocks, at);
    }
    forall j, k: nat | Owns(s, j, k) ensures SlotOf(s, j, k).Disjoint(SlotOf(s', step.job, i)) {
      assert PlanValid(s, j);
      assert Slot(s.plans[j].writes[k], s.g.block) in s.issued;
      HandedAvoids(s, step.keys, step.blocks, SlotOf(s, j, k));
    }
  }

  lemma NewEntriesApart(s: System, step: Step, i: nat, k: nat)
    requires Inv(s) && Enabled(s, step) && step.Prepare? && i != k
    requires Owns(Apply(s, step), step.job, i) && Owns(Apply(s, step), step.job, k)
    ensures SlotOf(Apply(s, step), step.job, i).Disjoint(SlotOf(Apply(s, step), step.job, k))
  {
    var s' := Apply(s, step);
    var writes := s'.plans[step.job].writes;
    NewPlanValid(s, step);
    var looked := s.store.(cache := CacheAfter(s.store, step.keys));
    assert writes[i] in writes && writes[k] in writes;
    assert i < k ==> writes[i].key != writes[k].key;
    assert k < i ==> writes[k].key != writes[i].key;
    PlanApart(looked, s.g, Sources(s.store, step.keys, step.blocks), writes[i], writes[k]);
  }

  lemma PrepareApart(s: System, step: Step)
    requires Inv(s) && Enabled(s, step) && step.Prepare?
    ensures EntriesApart(Apply(s, step))
  {
    var s' := Apply(s, step);
    forall j, i: nat | Owns(s', j, i) && j != step.job
      ensures Owns(s, j, i) && SlotOf(s', j, i) == SlotOf(s, j, i)
    {
    }
    forall i: nat | Owns(s', step.job, i)
      ensures forall at :: at in s.sealed ==> at.Disjoint(SlotOf(s', step.job, i))
      ensures forall j, k: nat :: Owns(s, j, k) ==> SlotOf(s, j, k).Disjoint(SlotOf(s', step.job, i))
    {
      NewEntryApart(s, step, i);
    }
    forall i: nat, k: nat | i != k && Owns(s', step.job, i) && Owns(s', step.job, k)
      ensures SlotOf(s', step.job, i).Disjoint(SlotOf(s', step.job, k))
    {
      NewEntriesApart(s, step, i, k);
    }
  }

  lemma PrepareKeeps(s: System, step: Step)
    requires Inv(s) && Enabled(s, step) && step.Prepare?
    ensures Inv(Apply(s, step))
  {
    var s' := Apply(s, step);
    HandedFacts(s, step.keys, step.blocks);
    PrepareIssues(s, step);
    PrepareApart(s, step);
    NewPlanValid(s, step);
    CacheAfterAgrees(s.store, step.keys);
    forall job | job in s'.plans ensures PlanValid(s', job) {
      if job != step.job {
        assert PlanValid(s, job);
      }
    }
    forall j, i: nat | Owns(s', j, i) && i in s'.plans[j].done
      ensures Readable(s'.store.files, SlotOf(s', j, i)) && BytesAt(s'.store.files, SlotOf(s', j, i)) == DataOf(s', j, i)
    {
      assert Owns(s, j, i) && SlotOf(s', j, i) == SlotOf(s, j, i);
    }
  }

  /** The invariant holds after every step. */
  lemma StepKeeps(s: System, step: Step)
    requires Inv(s) && Enabled(s, step)
    ensures Inv(Apply(s, step))
  {
    match step
    case Prepare(_, _, _, _) => PrepareKeeps(s, step);
    case WritePart(job, entry, bytes) => WriteKeeps(s, job, entry, bytes);
    case Publish(job, cached) => PublishKeeps(s, job, cached);
    case Abandon(job) => AbandonKeeps(s, job);
    case LookUp(keys) => LookUpKeeps(s, keys);
    case Remove(keys) => RemoveKeeps(s, keys);
    case Reopen(g) => ReopenKeeps(s, g);
  }
}
