/** The file system tier: splits jobs into tasks for the pool, and answers lookups from the segment
    store first and from the block files for what it misses. */
module TierManagers {
  import opened Basics
  import opened Wrappers
  import opened SegmentFiles
  import opened SegmentAllocation
  import SegmentModel
  import StoreRoundTrip
  import opened LoadTasks
  import opened SegmentStores
  import PoolProtocol
  import opened ThreadPools
  import TierProtocol
  import LookupProtocol
  import LookupAnswers

  class FileSystemTierManager {
    const store: SegmentStore
    const pool: DualQueueThreadPool
    /** The keys that have a block file. */
    var files: set<Key>

    constructor (store: SegmentStore, pool: DualQueueThreadPool, files: set<Key>)
      ensures this.store == store && this.pool == pool && this.files == files
    {
      this.store, this.pool, this.files := store, pool, files;
    }

    /** Plans a store and enqueues one write task for each segment that it touches, or one task that
        does nothing. When planning fails, nothing is enqueued. */
    method SubmitStore(id: nat, keys: seq<Key>, blocks: seq<nat>) returns (r: Result<seq<SegmentModel.SegmentWrite>, StoreError>)
      requires store.g.Valid() && pool.Valid()
      modifies store`meta, store`cache, store`tried, pool
      ensures pool.Valid()
      ensures r.Ok? <==>
                && |keys| == |blocks|
                && (SegmentModel.Sources(old(store.State()), keys, blocks) == [] || !store.refuses(old(store.tried)))
      ensures r.Err? ==> pool.State() == old(pool.State()) && store.index == old(store.index) && store.meta == old(store.meta)
      ensures r.Ok? ==>
                && |keys| == |blocks|
                && (store.State(), r.value) == SegmentModel.PrepareStore(old(store.State()), store.g, keys, blocks)
                && pool.State() == PoolProtocol.EnqueueJob(
                     old(pool.State()), false, id, TierProtocol.GroupTasks(StoreRoundTrip.GroupWrites(r.value)), true)
    {
      r := store.PrepareStore(keys, blocks);
      if r.Err? {
        assert r.error.BadArguments? ==> r == Err(BadArguments);
        assert r.error.CommitFailed? ==> r == Err(CommitFailed);
        return;
      }
      var groups := SegmentStore.GroupWrites(r.value);
      var tasks := if groups == [] then 1 else |groups|;
      pool.EnqueueStore(id, tasks, true);
    }

    /** Splits a load, up to the shortest list: the keys found in the store by segment, the others by file. */
    method SplitLoad(keys: seq<Key>, blocks: seq<nat>, locations: seq<Option<Location>>) returns (tasks: seq<seq<LoadEntry>>)
      ensures var n := Least(Pairs(keys, blocks), |locations|); tasks == TasksFor(keys[..n], blocks[..n], locations[..n])
    {
      tasks := [];
      var groups: seq<seq<LoadEntry>> := [];
      var n := Least(Pairs(keys, blocks), |locations|);
      for i := 0 to n
        invariant (tasks, groups) == LoadTasks.Split(keys[..i], blocks[..i], locations[..i])
      {
        assert keys[..i + 1][..i] == keys[..i] && blocks[..i + 1][..i] == blocks[..i]
            && locations[..i + 1][..i] == locations[..i];
        var e := EntryOf(keys[i], blocks[i], locations[i]);
        match locations[i] {
          case Some(at) => groups := AddEntry(groups, e, at.segment);
          case None => tasks := tasks + [[e]];
        }
      }
      for i := 0 to |groups|
        invariant tasks == LoadTasks.Split(keys[..n], blocks[..n], locations[..n]).0 + groups[..i]
      {
        tasks := tasks + [groups[i]];
      }
    }

    method SubmitLoad(id: nat, keys: seq<Key>, blocks: seq<nat>) returns (tasks: seq<seq<LoadEntry>>)
      requires pool.Valid()
      modifies store`cache, pool
      ensures pool.Valid()
      ensures store.State() == SegmentModel.GetLocations(old(store.State()), keys).0
      ensures var n := Pairs(keys, blocks);
        tasks == TasksFor(keys[..n], blocks[..n], SegmentModel.Locations(old(store.State()), keys[..n]))
      ensures pool.State() == PoolProtocol.EnqueueJob(old(pool.State()), true, id, |tasks|, false)
    {
      var locations := store.GetLocations(keys);
      tasks := SplitLoad(keys, blocks, locations);
      assert locations[..Pairs(keys, blocks)] == SegmentModel.Locations(old(store.State()), keys[..Pairs(keys, blocks)]);
      pool.EnqueueLoad(id, |tasks|);
    }

    /** One answer for each key: is it in the segment store, or else in a file? */
    method BatchLookup(keys: seq<Key>) returns (hits: seq<bool>)
      modifies store`cache
      ensures store.State() == SegmentModel.GetLocations(old(store.State()), keys).0
      ensures |hits| == |keys|
      ensures forall i :: 0 <= i < |keys| ==>
                (hits[i] <==> keys[i] in old(store.cache) || keys[i] in store.index || keys[i] in files)
    {
      hits := store.ContainsMany(keys);
      ghost var first := hits;
      var missing: seq<nat> := [];
      for i := 0 to |keys|
        invariant forall m :: m in missing ==> m < i && !hits[m]
        invariant forall k: nat :: k < i && !hits[k] ==> k in missing
      {
        if !hits[i] {
          missing := missing + [i];
        }
      }
      if missing == [] {
        return;
      }
      var here := files;
      var found := seq(|missing|, j requires 0 <= j < |missing| => missing[j] < |keys| && keys[missing[j]] in here);
      for j := 0 to |missing|
        invariant |hits| == |keys|
        invariant forall m :: m in missing ==> m < |keys| && !first[m]
        invariant forall m: nat :: m < |keys| ==> (hits[m] <==> first[m] || (m in missing[..j] && keys[m] in files))
      {
        assert missing[j] in missing;
        hits := hits[missing[j] := found[j]];
        assert missing[..j + 1] == missing[..j] + [missing[j]];
      }
      assert missing[..|missing|] == missing;
    }

    /** The worker of the lookup manager asks for one group after the other. Each call returns a hit for
        each of its keys, so no answer is missing. */
    method LookUpGroups(groups: seq<LookupProtocol.Group>) returns (outcomes: seq<LookupProtocol.Outcome>)
      modifies store`cache
      ensures |outcomes| == |groups| && LookupProtocol.AllComplete(groups, outcomes)
      ensures forall i :: 0 <= i < |groups| ==> Truthful(groups[i].keys, outcomes[i], old(store.cache), store.index, files)
    {
      outcomes := [];
      for i := 0 to |groups|
        invariant |outcomes| == i && LookupProtocol.AllComplete(groups[..i], outcomes)
        invariant forall key :: key in old(store.cache) || key in store.index <==> key in store.cache || key in store.index
        invariant forall j :: 0 <= j < i ==> Truthful(groups[j].keys, outcomes[j], old(store.cache), store.index, files)
      {
        var hits := BatchLookup(groups[i].keys);
        assert (outcomes + [LookupProtocol.Hits(hits)])[..i] == outcomes;
        assert groups[..i + 1][..i] == groups[..i];
        outcomes := outcomes + [LookupProtocol.Hits(hits)];
      }
      assert groups[..|groups|] == groups;
    }
  }

  function Least(a: nat, b: nat): nat { if a < b then a else b }

  /** One hit for each key: is it cached or indexed, or has it a file? */
  predicate Truthful(keys: seq<Key>, outcome: LookupProtocol.Outcome, cache: Index, index: Index, files: set<Key>) {
    && outcome.Hits? && |outcome.hits| == |keys|
    && forall i :: 0 <= i < |keys| ==> (outcome.hits[i] <==> keys[i] in cache || keys[i] in index || keys[i] in files)
  }

  /** From the table to the scheduler: when the tier answers a batch, then after the reply and a drain the
      result of every tracked key that was asked about says whether it was cached, indexed, or in a file. */
  lemma StoredIsFound(s: LookupProtocol.System, outcomes: seq<LookupProtocol.Outcome>, cache: Index, index: Index,
                      files: set<Key>, key: Key)
    requires var groups := LookupProtocol.Regroup(s.working);
      && LookupProtocol.Enabled(s, LookupProtocol.Reply(outcomes))
      && forall i :: 0 <= i < |groups| ==> Truthful(groups[i].keys, outcomes[i], cache, index, files)
    requires LookupProtocol.AskedIn(s.working, key) && key in s.lookups.state
    ensures var u := LookupProtocol.Apply(LookupProtocol.Apply(s, LookupProtocol.Reply(outcomes)), LookupProtocol.Drain);
      key in u.lookups.state && u.lookups.state[key].result == Some(key in cache || key in index || key in files)
  {
    var truth := (k: Key) => k in cache || k in index || k in files;
    var groups := LookupProtocol.Regroup(s.working);
    forall g: nat | g < |groups| ensures LookupAnswers.TrueCall(groups[g].keys, outcomes[g], truth) {
      assert Truthful(groups[g].keys, outcomes[g], cache, index, files);
    }
    LookupAnswers.ReplyReachesScheduler(s, outcomes, truth, key);
  }
}
