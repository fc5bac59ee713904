/** How a fresh store fills its shards, over whole runs of the store protocol. */
module StoreAccounting {
  import opened Basics
  import opened SegmentFiles
  import opened Divisions
  import opened SegmentAllocation
  import opened SegmentAccounting
  import opened SegmentModel
  import opened StoreProtocol
  import opened StoreRuns

  /** A segment holds `per` blocks. */
  predicate Holds(g: Geometry, per: nat) {
    g.Valid() && 0 < per && g.segment == per * g.block
  }

  /** A store without any block, and without the rows of an allocator. */
  ghost predicate Fresh(s: System) {
    Initial(s) && s.store.index == map[] && Plain(s.store.meta)
  }

  /** The store may crash and be opened again, but with the same shards and segments. */
  predicate SameGeometry(steps: seq<Step>, g: Geometry) {
    forall step :: step in steps && step.Reopen? ==> step.g == g
  }

  /** The allocator has handed out exactly the slots it should, and the rows say so. */
  ghost predicate Accounts(s: System, per: nat)
    requires Holds(s.g, per)
  {
    Reached(s.store.meta, s.g, |s.issued|, per) && FreshSlots(s.issued, s.g.shards, s.g.block, per)
  }

  /** Nothing is indexed before the first slot is handed out. */
  predicate NothingIndexed(s: System) {
    s.issued == [] ==> s.store.index == map[]
  }

  lemma PrepareAccounts(s: System, per: nat, step: Step)
    requires Inv(s) && Holds(s.g, per) && Accounts(s, per) && NothingIndexed(s) && Enabled(s, step) && step.Prepare?
    ensures Apply(s, step).g == s.g && Accounts(Apply(s, step), per) && NothingIndexed(Apply(s, step))
  {
    HandedIs(s, step.keys, step.blocks);
    HandedAccounts(s, per, Apply(s, step), Handed(s, step.keys, step.blocks));
  }

  lemma HandedAccounts(s: System, per: nat, s': System, handed: seq<Location>)
    requires s.g.Valid() && MetaValid(s.store.meta) && Holds(s.g, per) && Accounts(s, per) && NothingIndexed(s)
    requires s'.g == s.g && s'.issued == s.issued + handed
    requires handed == Allocate(Open(s.store.meta, s.store.index, s.g.shards), s.g, |handed|).1
    requires s'.store.meta == AllocateMeta(s.store.meta, s.store.index, s.g, |handed|)
    ensures Accounts(s', per)
  {
    ReachedNext(s.store.meta, s.store.index, |handed|, s.g, |s.issued|, per, |s'.issued|);
    SlotsJoin(s.issued, handed, s.g.shards, s.g.block, per);
  }

  lemma SlotsJoin(a: seq<Location>, b: seq<Location>, shards: nat, block: nat, perSegment: nat)
    requires 0 < shards && 0 < perSegment && FreshSlots(a, shards, block, perSegment)
    requires SlotsFrom(b, |a|, shards, block, perSegment)
    ensures FreshSlots(a + b, shards, block, perSegment)
  {
    forall i: nat | i < |a + b| ensures (a + b)[i] == SlotAt(i, shards, block, perSegment) {
      if i >= |a| {
        assert b[i - |a|] == SlotAt(|a| + (i - |a|), shards, block, perSegment);
      }
    }
  }

  lemma HandedIs(s: System, keys: seq<Key>, blocks: seq<nat>)
    requires s.g.Valid() && |keys| == |blocks|
    ensures var handed := Handed(s, keys, blocks);
      && handed == Allocate(Open(s.store.meta, s.store.index, s.g.shards), s.g, |handed|).1
      && PrepareStore(s.store, s.g, keys, blocks).0.meta == AllocateMeta(s.store.meta, s.store.index, s.g, |handed|)
  {
  }

  /** Publishing before any slot is handed out publishes nothing. */
  lemma PublishIndexes(s: System, job: nat, cached: bool)
    requires Inv(s) && NothingIndexed(s) && Enabled(s, Publish(job, cached))
    ensures NothingIndexed(Apply(s, Publish(job, cached)))
  {
    var writes := s.plans[job].writes;
    assert PlanValid(s, job);
    assert writes != [] ==> Slot(writes[0], s.g.block) in s.issued;
  }

  lemma StepAccounts(s: System, per: nat, step: Step)
    requires Inv(s) && Holds(s.g, per) && Accounts(s, per) && NothingIndexed(s) && Enabled(s, step) && (step.Reopen? ==> step.g == s.g)
    ensures Apply(s, step).g == s.g && Accounts(Apply(s, step), per) && NothingIndexed(Apply(s, step))
  {
    match step
    case Prepare(_, _, _, _) => PrepareAccounts(s, per, step);
    case Publish(job, cached) => PublishIndexes(s, job, cached);
    case _ =>
  }

  lemma {:induction false} RunAccounts(s: System, per: nat, steps: seq<Step>)
    requires Inv(s) && Holds(s.g, per) && Accounts(s, per) && NothingIndexed(s) && CanRun(s, steps) && SameGeometry(steps, s.g)
    ensures After(s, steps).g == s.g && Accounts(After(s, steps), per) && NothingIndexed(After(s, steps))
    decreases |steps|
  {
    if steps != [] {
      var n := |steps| - 1;
      assert steps[n] in steps;
      RunAccounts(s, per, steps[..n]);
      RunKeeps(s, steps[..n]);
      StepAccounts(After(s, steps[..n]), per, steps[n]);
    }
  }

  /** Over any run from a fresh store, with failed jobs, deletes and crashes, the `i`-th slot handed out is
      on shard `i % shards`, as the `i / shards`-th of that shard, which fills its segments one by one. */
  lemma SlotsInTurn(s: System, per: nat, steps: seq<Step>, i: nat)
    requires Fresh(s) && Holds(s.g, per) && CanRun(s, steps) && SameGeometry(steps, s.g) && i < |After(s, steps).issued|
    ensures After(s, steps).issued[i] == (
        SlotAt(i, s.g.shards, s.g.block, per))
  {
    InitialInv(s);
    RunAccounts(s, per, steps);
  }

  lemma SlotsAreFresh(s: System, per: nat, steps: seq<Step>)
    requires Fresh(s) && Holds(s.g, per) && CanRun(s, steps) && SameGeometry(steps, s.g)
    ensures FreshSlots(After(s, steps).issued, s.g.shards, s.g.block, per)
  {
    InitialInv(s);
    RunAccounts(s, per, steps);
  }

  /** Of the slots handed out, shard `k` has `(n + shards - 1 - k) / shards`. */
  lemma BlocksPerShard(s: System, per: nat, steps: seq<Step>, k: nat)
    requires Fresh(s) && Holds(s.g, per) && CanRun(s, steps) && SameGeometry(steps, s.g) && k < s.g.shards
    ensures var slots := After(s, steps).issued;
      CountOn(slots, s.g.shards, k) == (|slots| + s.g.shards - 1 - k) / s.g.shards
  {
    SlotsAreFresh(s, per, steps);
    CountIs(After(s, steps).issued, s.g.shards, s.g.block, per, k);
  }

  /** No shard has two slots more than another. */
  lemma ShardsBalanced(s: System, per: nat, steps: seq<Step>, j: nat, k: nat)
    requires Fresh(s) && Holds(s.g, per) && CanRun(s, steps) && SameGeometry(steps, s.g) && j < s.g.shards && k < s.g.shards
    ensures var slots := After(s, steps).issued; CountOn(slots, s.g.shards, j) <= CountOn(slots, s.g.shards, k) + 1
  {
    SlotsAreFresh(s, per, steps);
    CountsBalanced(After(s, steps).issued, s.g.shards, s.g.block, per, j, k);
  }

  /** When a shard is handed a slot of a later segment, every place of its segment before was handed out. */
  lemma SegmentsFillFirst(s: System, per: nat, steps: seq<Step>, slots: seq<Location>, i: nat, p: nat)
    requires Fresh(s) && Holds(s.g, per) && CanRun(s, steps) && SameGeometry(steps, s.g)
    requires slots == After(s, steps).issued && i < |slots| && slots[i].segment >= s.g.shards && p < per
    ensures Location(slots[i].segment - s.g.shards, p * s.g.block, s.g.block) in slots[..i]
  {
    SlotsAreFresh(s, per, steps);
    FullBeforeNext(slots, s.g.shards, s.g.block, per, i, p);
  }

  /** The persisted rows after any run: each shard's segment and offset from its number of blocks, the
      cursor, and the next segment id above all segments that the shards have opened. */
  lemma RowsOfRun(s: System, per: nat, steps: seq<Step>)
    requires Fresh(s) && Holds(s.g, per) && CanRun(s, steps) && SameGeometry(steps, s.g) && After(s, steps).issued != []
    ensures RowsAfter(After(s, steps).store.meta, |After(s, steps).issued|, s.g.shards, s.g.block, per)
  {
    InitialInv(s);
    RunAccounts(s, per, steps);
    ReachedRows(After(s, steps).store.meta, s.g, |After(s, steps).issued|, per);
  }

  /** The list of a plan's writes for one shard has its share of them, from the cursor on. */
  lemma {:induction false} LaneShare(entries: seq<SegmentWrite>, cursor: nat, shards: nat, k: nat)
    requires k < shards
    ensures |Lane(entries, cursor, shards, k)| == BlocksOf(cursor + |entries|, shards, k) - BlocksOf(cursor, shards, k)
  {
    if entries != [] {
      var n := |entries| - 1;
      LaneShare(entries[..n], cursor, shards, k);
      BlocksOfNext(cursor + n, shards, k);
    }
  }
}
