/** The segment store: append-only segment files behind a block table and a location cache. */
module SegmentStores {
  import opened Basics
  import opened Wrappers
  import opened SegmentFiles
  import opened SegmentReads
  import opened SegmentAllocation
  import Divisions
  import SegmentAccounting
  import opened SegmentModel
  import StoreProtocol
  import StoreRoundTrip
  import opened Disks
  import opened SegmentIo

  /** How many keys one query of the table may name. */
  const INDEX_BATCH_SIZE := 500

  datatype StoreError = BadArguments | CommitFailed

  datatype LoadOutcome = Loaded | BadLoadArguments | NotIndexed | ReadFailed

  class SegmentStore {
    const g: Geometry
    const disk: Disk
    /** Which of its commits, and of its read-backs after a commit, the database refuses: by their number. */
    const refuses: nat -> bool
    var meta: Metadata
    var index: Index
    var cache: Index
    var tried: nat

    ghost function State(): Store
      reads this, disk
    {
      Store(meta, index, cache, disk.files)
    }

    constructor (block: nat, segmentBytes: nat, shards: nat, disk: Disk, refuses: nat -> bool, meta: Metadata, index: Index)
      requires 0 < block <= segmentBytes && 0 < shards
      ensures this.disk == disk && State() == Store(meta, index, map[], disk.files)
      ensures this.refuses == refuses && tried == 0
      ensures g.Valid() && g.block == block && g.shards == shards
      ensures g.segment <= segmentBytes < g.segment + block
    {
      WholeBlocks(segmentBytes, block);
      this.g := Geometry(block, segmentBytes / block * block, shards);
      this.disk, this.refuses, this.tried := disk, refuses, 0;
      this.meta := meta;
      this.index := index;
      this.cache := map[];
    }

    /** Asks the database for the next of its commits or read-backs. */
    method Ask() returns (ok: bool)
      modifies this`tried
      ensures tried == old(tried) + 1 && ok == !refuses(old(tried))
    {
      ok := !refuses(tried);
      tried := tried + 1;
    }

    /* ---- locations ---- */

    /** Reads the rows of some keys from the table, in batches, into the cache. */
    method QueryTable(missing: seq<Key>, found: Index) returns (all: Index)
      modifies this`cache
      ensures cache == old(cache) + RowsOf(index, missing)
      ensures all == found + RowsOf(index, missing)
    {
      var start := 0;
      all := found;
      assert RowsOf(index, missing[..0]) == map[];
      while start < |missing|
        invariant start <= |missing|
        invariant cache == old(cache) + RowsOf(index, missing[..start])
        invariant all == found + RowsOf(index, missing[..start])
      {
        var end := if start + INDEX_BATCH_SIZE < |missing| then start + INDEX_BATCH_SIZE else |missing|;
        var rows := RowsOf(index, missing[start..end]);
        RowsNext(old(cache), index, missing, start, end);
        RowsNext(found, index, missing, start, end);
        all := all + rows;
        cache := cache + rows;
        start := end;
      }
      assert missing[..start] == missing;
    }

    /** Answers from the cache, then from the table, caching what the table knew. */
    method GetLocations(keys: seq<Key>) returns (locations: seq<Option<Location>>)
      modifies this`cache
      ensures State() == SegmentModel.GetLocations(old(State()), keys).0
      ensures locations == SegmentModel.GetLocations(old(State()), keys).1
    {
      var found: Index := map[];
      var missing: seq<Key> := [];
      for i := 0 to |keys|
        invariant Split(cache, keys[..i], found, missing)
      {
        if keys[i] in cache {
          found := found[keys[i] := cache[keys[i]]];
        } else {
          missing := missing + [keys[i]];
        }
        assert keys[..i + 1] == keys[..i] + [keys[i]];
      }
      assert keys[..|keys|] == keys;
      SplitAnswers(State(), keys, found, missing);
      var all := QueryTable(missing, found);
      locations := seq(|keys|, i requires 0 <= i < |keys| => Find(all, keys[i]));
    }

    method ContainsMany(keys: seq<Key>) returns (hits: seq<bool>)
      modifies this`cache
      ensures State() == SegmentModel.GetLocations(old(State()), keys).0
      ensures |hits| == |keys|
      ensures forall i :: 0 <= i < |keys| ==> (hits[i] <==> keys[i] in old(cache) || keys[i] in index)
    {
      var locations := GetLocations(keys);
      hits := seq(|keys|, i requires 0 <= i < |keys| => locations[i].Some?);
    }

    /* ---- the allocator ---- */

    /** The append stream of a store without shard rows: from the legacy rows, or the last indexed byte. */
    method LatestStream() returns (mark: Mark)
      ensures mark == LatestSegment(meta, index)
    {
      if LegacySegment in meta && LegacyOffset in meta {
        return Mark(meta[LegacySegment], meta[LegacyOffset]);
      }
      mark := Mark(0, 0);
      var rows := index.Keys;
      var last: Option<Key> := None;
      while rows != {}
        invariant rows <= index.Keys
        invariant last.None? ==> rows == index.Keys && mark == Mark(0, 0)
        invariant last.Some? ==> last.value in index && EndsAt(index[last.value], mark)
        invariant forall key :: key in index && key !in rows ==> Below(index[key], mark)
        decreases rows
      {
        var key :| key in rows;
        rows := rows - {key};
        var at := index[key];
        if last.None? || !Below(at, mark) {
          mark := Mark(at.segment, at.offset + at.length);
          last := Some(key);
        }
      }
      LatestIs(meta, index, last, mark);
    }

    /** One above every segment that a persisted shard, or the single stream, has used. */
    method NextSegmentId(legacy: Mark) returns (next: nat)
      requires legacy == LatestSegment(meta, index)
      ensures next == FirstFree(meta, index)
    {
      var above := 0;
      if ShardSegment(0) in meta {
        var names := meta.Keys;
        while names != {}
          invariant names <= meta.Keys
          invariant forall n :: n in meta && n !in names && n.ShardSegment? ==> meta[n] < above
          invariant above > 0 ==> exists n :: n in meta && n.ShardSegment? && meta[n] == above - 1
          decreases names
        {
          var n :| n in names;
          names := names - {n};
          if n.ShardSegment? && above <= meta[n] {
            above := meta[n] + 1;
          }
        }
      } else {
        above := legacy.segment + 1;
      }
      AboveUnique(ExistingSegments(meta, index), above);
      next := Max(above, Lookup(meta, NextSegment));
    }

    /** Reads the allocator's state: the marks of the configured shards, and where new segments start. */
    method OpenAllocator() returns (a: Allocator)
      requires g.Valid()
      ensures a == Open(meta, index, g.shards)
    {
      var legacy := LatestStream();
      var next := NextSegmentId(legacy);
      ghost var first := next;
      var marks: seq<Mark> := [];
      for k := 0 to g.shards
        invariant (marks, next) == MarksOf(meta, legacy, first, k)
      {
        var (mark, after) := OpenMark(meta, legacy, k, next);
        marks, next := marks + [mark], after;
      }
      a := Allocator(marks, next, Lookup(meta, ShardCursor) % g.shards);
    }

    /** Hands out a slot to each source, going round the shards, and lists the writes shard by shard. */
    method Place(a: Allocator, sources: seq<Source>) returns (after: Allocator, plan: seq<SegmentWrite>)
      requires g.Valid() && Wellformed(a) && |a.marks| == g.shards
      ensures after == Allocate(a, g, |sources|).0
      ensures plan == Lanes(Assign(sources, Allocate(a, g, |sources|).1), a.cursor, g.shards, g.shards)
    {
      var marks, next := a.marks, a.next;
      var lanes := seq(g.shards, k => []);
      for i := 0 to |sources|
        invariant Placed(a, g, sources, i, marks, next, lanes)
      {
        var shard := (a.cursor + i) % g.shards;
        PlacedNext(a, g, sources, i, marks, next, lanes);
        var at;
        at, next := TakeSlot(marks[shard], next);
        lanes := lanes[shard := lanes[shard] + [SegmentWrite(sources[i].key, at.segment, at.offset, sources[i].block)]];
        marks := marks[shard := Mark(at.segment, at.offset + g.block)];
      }
      assert sources[..|sources|] == sources;
      plan := ListLanes(lanes, Assign(sources, Allocate(a, g, |sources|).1), a.cursor);
      after := Allocator(marks, next, (a.cursor + |sources|) % g.shards);
    }

    /** The next slot of a shard: in its segment, or at the start of a new one when that is full. */
    method TakeSlot(mark: Mark, next: nat) returns (at: Mark, after: nat)
      ensures at == if mark.offset + g.block > g.segment then Mark(next, 0) else mark
      ensures after == if mark.offset + g.block > g.segment then next + 1 else next
    {
      var segment, offset := mark.segment, mark.offset;
      after := next;
      if offset + g.block > g.segment {
        segment := after;
        after := after + 1;
        offset := 0;
      }
      at := Mark(segment, offset);
    }

    method ListLanes(lanes: seq<seq<SegmentWrite>>, ghost entries: seq<SegmentWrite>, ghost cursor: nat) returns (plan: seq<SegmentWrite>)
      requires g.Valid() && LanesAre(lanes, entries, cursor, g.shards)
      ensures plan == Lanes(entries, cursor, g.shards, g.shards)
    {
      plan := [];
      for k := 0 to g.shards
        invariant plan == Lanes(entries, cursor, g.shards, k)
      {
        plan := plan + lanes[k];
      }
    }

    /* ---- storing ---- */

    /** The keys to write: those without a location, each once, with its first block. */
    method ChooseSources(keys: seq<Key>, blocks: seq<nat>, found: seq<Option<Location>>) returns (sources: seq<Source>)
      requires |keys| == |blocks| == |found|
      ensures sources == Unique(keys, blocks, found)
    {
      sources := [];
      for i := 0 to |keys|
        invariant sources == Unique(keys[..i], blocks[..i], found[..i])
      {
        assert keys[..i + 1][..i] == keys[..i] && blocks[..i + 1][..i] == blocks[..i] && found[..i + 1][..i] == found[..i];
        if found[i].None? && !Planned(sources, keys[i]) {
          sources := sources + [Source(keys[i], blocks[i])];
        }
      }
      assert keys[..|keys|] == keys && blocks[..|keys|] == blocks && found[..|keys|] == found;
    }

    /** Plans a store: no key that is indexed, and no slot that was ever handed out before. The marks
        are committed before the plan is returned; when that fails, only the cache has changed. */
    method PrepareStore(keys: seq<Key>, blocks: seq<nat>) returns (r: Result<seq<SegmentWrite>, StoreError>)
      requires g.Valid()
      modifies this`meta, this`cache, this`tried
      ensures r == Err(BadArguments) <==> |keys| != |blocks|
      ensures r == Err(BadArguments) ==> State() == old(State())
      ensures r == Err(CommitFailed) <==>
                |keys| == |blocks| && Sources(old(State()), keys, blocks) != [] && refuses(old(tried))
      ensures tried == old(tried) + if |keys| == |blocks| && Sources(old(State()), keys, blocks) != [] then 1 else 0
      ensures r.Ok? ==> (State(), r.value) == SegmentModel.PrepareStore(old(State()), g, keys, blocks)
      ensures r == Err(CommitFailed) ==> State() == SegmentModel.GetLocations(old(State()), keys).0
    {
      if |keys| != |blocks| {
        return Err(BadArguments);
      }
      if keys == [] {
        assert CacheAfter(State(), keys) == cache;
        return Ok([]);
      }
      var found := GetLocations(keys);
      var sources := ChooseSources(keys, blocks, found);
      if sources == [] {
        return Ok([]);
      }
      var a := OpenAllocator();
      var after, plan := Place(a, sources);
      var committed := Ask();
      if !committed {
        return Err(CommitFailed);
      }
      meta := Persist(meta, after);
      r := Ok(plan);
    }

    /** Writes the rows of the view that a plan names into their slots, adjacent slots together. When a
        write fails or is short, the files hold the first entries and part of the next one, whose segment is faulty. */
    method WriteEntries(entries: seq<SegmentWrite>, view: array<Bytes>, iovMax: nat)
      returns (ok: bool, ghost done: nat, ghost rest: nat)
      requires g.Valid() && 0 < iovMax
      requires forall e :: e in entries ==> e.block < view.Length && |view[e.block]| == g.block
      modifies disk`files
      ensures ok ==> disk.files == WriteAll(old(disk.files), StoreRoundTrip.Resolve(entries, view[..]))
      ensures !ok ==>
                && done < |entries| && rest < g.block && entries[done].segment in disk.faulty
                && disk.files == WriteCut(old(disk.files), StoreRoundTrip.Resolve(entries, view[..]), done, rest)
    {
      ghost var ws := StoreRoundTrip.Resolve(entries, view[..]);
      assert Resolved(entries, view[..], ws, g.block) by {
        forall i: nat | i < |entries| ensures |ws[i].data| == g.block {
          assert entries[i] in entries;
        }
      }
      ok, done, rest := WriteResolved(entries, view, iovMax, ws);
    }

    method WriteResolved(entries: seq<SegmentWrite>, view: array<Bytes>, iovMax: nat, ghost ws: seq<Write>)
      returns (ok: bool, ghost done: nat, ghost rest: nat)
      requires g.Valid() && 0 < iovMax && Resolved(entries, view[..], ws, g.block)
      modifies disk`files
      ensures ok ==> disk.files == WriteAll(old(disk.files), ws)
      ensures !ok ==> CutAt(old(disk.files), disk.files, ws, done, rest, g.block, disk.faulty)
    {
      ok, done, rest := true, 0, 0;
      var views: seq<Bytes> := [];
      var segment: nat, offset: nat := 0, 0;
      for i := 0 to |entries|
        invariant Pending(old(disk.files), disk.files, ws, i, views, segment, offset, g.block)
      {
        var entry := entries[i];
        ok, views, segment, offset, done, rest := MakeRoom(entry, views, segment, offset, iovMax, old(disk.files), ws, i);
        if !ok {
          return;
        }
        PendingNext(old(disk.files), disk.files, ws, i, views, segment, offset, g.block);
        views := views + [view[entry.block]];
      }
      if views != [] {
        ok, done, rest := Flush(views, segment, offset, iovMax, old(disk.files), ws, |entries|);
      }
      assert ws[..|entries|] == ws;
    }

    /** Flushes the pending buffers if the next entry does not follow them, and starts anew there. */
    method MakeRoom(entry: SegmentWrite, views: seq<Bytes>, segment: nat, offset: nat, iovMax: nat,
                    ghost was: Files, ghost ws: seq<Write>, ghost i: nat)
      returns (ok: bool, views': seq<Bytes>, segment': nat, offset': nat, ghost done: nat, ghost rest: nat)
      requires g.Valid() && 0 < iovMax && i < |ws|
      requires Pending(was, disk.files, ws, i, views, segment, offset, g.block)
      requires forall w :: w in ws ==> |w.data| == g.block
      modifies disk`files
      ensures ok ==>
                && entry.segment == segment' && entry.offset == offset' + |views'| * g.block
                && (Pending(was, disk.files, ws, i, views', segment', offset', g.block)
                    || (views' == [] && disk.files == WriteAll(was, ws[..i])))
      ensures !ok ==> CutAt(was, disk.files, ws, done, rest, g.block, disk.faulty)
    {
      ok, done, rest := true, 0, 0;
      views', segment', offset' := views, segment, offset;
      var expected := offset + |views| * g.block;
      if views != [] && (entry.segment != segment || entry.offset != expected) {
        ok, done, rest := Flush(views, segment, offset, iovMax, was, ws, i);
        views' := [];
      }
      if views' == [] {
        segment', offset' := entry.segment, entry.offset;
      }
    }

    /** Writes the pending buffers in one go. */
    method Flush(views: seq<Bytes>, segment: nat, offset: nat, iovMax: nat, ghost was: Files, ghost ws: seq<Write>, ghost i: nat)
      returns (ok: bool, ghost done: nat, ghost rest: nat)
      requires g.Valid() && 0 < iovMax && i <= |ws|
      requires Pending(was, disk.files, ws, i, views, segment, offset, g.block)
      requires forall w :: w in ws ==> |w.data| == g.block
      modifies disk`files
      ensures ok ==> disk.files == WriteAll(was, ws[..i])
      ensures !ok ==> CutAt(was, disk.files, ws, done, rest, g.block, disk.faulty)
    {
      ghost var k := i - |views|;
      ghost var before := disk.files;
      ok, done, rest := PwritevAll(disk, segment, views, offset, iovMax, g.block, ws[k..i]);
      if ok {
        WholeRun(was, ws, k, i);
      } else {
        CutRun(was, before, disk.files, ws, k, i, done, rest, segment, offset, g.block, disk.faulty);
        done := k + done;
      }
    }

    /** Splits a plan by segment, the segments in the order in which the plan first names them. */
    static method GroupWrites(entries: seq<SegmentWrite>) returns (groups: seq<seq<SegmentWrite>>)
      ensures groups == StoreRoundTrip.GroupWrites(entries)
    {
      groups := [];
      for i := 0 to |entries|
        invariant groups == StoreRoundTrip.GroupWrites(entries[..i])
      {
        assert entries[..i + 1][..i] == entries[..i];
        groups := StoreRoundTrip.AddWrite(groups, entries[i]);
      }
      assert entries[..|entries|] == entries;
    }

    /** Publishes a plan once all its writes succeeded; a key that another job published meanwhile keeps
        its row. A refused commit changes nothing, a refused read-back leaves the cache behind; both raise. */
    method CompleteStore(plan: seq<SegmentWrite>, success: bool) returns (raised: bool)
      modifies this`index, this`cache, this`tried
      ensures !success || plan == [] ==> !raised && State() == old(State()) && tried == old(tried)
      ensures success && plan != [] ==> (raised <==> refuses(old(tried)) || refuses(old(tried) + 1))
      ensures success && !raised ==> State() == SegmentModel.CompleteStore(old(State()), plan, g.block)
      ensures raised ==> (State() ==
                if refuses(old(tried)) then old(State())
                else SegmentModel.CompleteStore(old(State()), plan, g.block).(cache := old(cache)))
    {
      if !success || plan == [] {
        assert CacheAfter(State(), []) == cache;
        return false;
      }
      var rows := index;
      for i := 0 to |plan|
        invariant rows == InsertRows(index, plan[..i], g.block)
      {
        assert plan[..i + 1][..i] == plan[..i];
        if plan[i].key !in rows {
          rows := rows[plan[i].key := Slot(plan[i], g.block)];
        }
      }
      assert plan[..|plan|] == plan;
      var committed := Ask();
      if !committed {
        return true;
      }
      index := rows;
      var readBack := Ask();
      if !readBack {
        return true;
      }
      var _ := GetLocations(KeysOf(plan));
      raised := false;
    }

    /** Prepare, write, publish: one call that stores a whole job. */
    method StoreMany(keys: seq<Key>, view: array<Bytes>, blocks: seq<nat>, iovMax: nat) returns (stored: bool)
      requires g.Valid() && 0 < iovMax
      requires forall b :: b in blocks ==> b < view.Length && |view[b]| == g.block
      modifies this, disk`files
      ensures stored ==>
                && |keys| == |blocks|
                && (forall w :: w in SegmentModel.PrepareStore(old(State()), g, keys, blocks).1 ==> w.block < view.Length)
                && State() == StoreRoundTrip.StoreMany(old(State()), g, keys, blocks, view[..])
      ensures !stored ==>
                || index == old(index)
                || (|keys| == |blocks| && !refuses(old(tried)) && !refuses(old(tried) + 1) && refuses(old(tried) + 2) &&
                    index == InsertRows(old(index), SegmentModel.PrepareStore(old(State()), g, keys, blocks).1, g.block))
      ensures !stored && |keys| == |blocks| ==>
                && Sources(old(State()), keys, blocks) != []
                && (|| refuses(old(tried)) || refuses(old(tried) + 1) || refuses(old(tried) + 2)
                    || exists w :: w in SegmentModel.PrepareStore(old(State()), g, keys, blocks).1 && w.segment in disk.faulty)
    {
      var planned := PrepareStore(keys, blocks);
      if planned.Err? {
        assert planned.error.BadArguments? ==> planned == Err(BadArguments);
        assert planned.error.CommitFailed? ==> planned == Err(CommitFailed);
        return false;
      }
      var plan := planned.value;
      PlanBlocks(old(State()), g, keys, blocks, plan);
      PlanOfNothing(old(State()), g, keys, blocks);
      var written, done, _ := WriteEntries(plan, view, iovMax);
      assert !written ==> plan[done] in plan;
      var raised := CompleteStore(plan, written);
      stored := written && !raised;
    }

    /* ---- loading ---- */

    /** Reads each key's block into its row: sorted by place, adjacent blocks together. Keys without a
        location fail before anything is read. A read fails only where a block is missing, of another size, or on a
        faulty segment; then the keys are deleted, unless the database refuses. */
    method LoadMany(keys: seq<Key>, view: array<Bytes>, blocks: seq<nat>, given: Option<seq<Option<Location>>>, iovMax: nat)
      returns (outcome: LoadOutcome)
      requires g.Valid() && 0 < iovMax
      requires (forall b :: b in blocks ==> b < view.Length) && RowsSized(view[..], g.block)
      modifies this`index, this`cache, this`tried, view
      ensures RowsSized(view[..], g.block) && OtherRowsKept(old(view[..]), view[..], blocks)
      ensures outcome.BadLoadArguments? <==>
                |keys| != |blocks| || (given.Some? && |keys| != |given.value|)
      ensures outcome.BadLoadArguments? || outcome.NotIndexed? ==> view[..] == old(view[..])
      ensures outcome.NotIndexed? <==>
                !outcome.BadLoadArguments? && None in Located(old(State()), keys, given)
      ensures outcome.Loaded? ==>
                && State() == LookedUp(old(State()), keys, given)
                && LoadedInto(disk.files, old(view[..]), view[..], Located(old(State()), keys, given), blocks, g.block)
      ensures outcome.ReadFailed? ==>
                && keys != []
                && !AllLoadable(disk.files, disk.faulty, Located(old(State()), keys, given), g.block)
                && State() == if refuses(old(tried)) then LookedUp(old(State()), keys, given)
                              else SegmentModel.Delete(LookedUp(old(State()), keys, given), set key | key in keys)
      ensures outcome.ReadFailed? && !refuses(old(tried)) ==>
                forall key :: key in keys ==> key !in index && (StoreProtocol.CacheAgrees(old(State())) ==> key !in cache)
      ensures !outcome.ReadFailed? && !outcome.BadLoadArguments? ==> State() == LookedUp(old(State()), keys, given)
      ensures outcome.BadLoadArguments? ==> index == old(index)
    {
      if |keys| != |blocks| {
        return BadLoadArguments;
      }
      var locations: seq<Option<Location>>;
      if given.None? {
        locations := GetLocations(keys);
      } else {
        locations := given.value;
        if |keys| != |locations| {
          return BadLoadArguments;
        }
      }
      if None in locations {
        return NotIndexed;
      }
      var rs := seq(|keys|, i requires 0 <= i < |keys| =>
        assert locations[i] in locations; Read(locations[i].value, blocks[i]));
      assert rs == ReadsOf(locations, blocks);
      ReadsBlocks(locations, blocks);
      var ok := ReadSorted(SortReads(rs), view, iovMax, blocks);
      if !ok {
        NotLoadable(disk.files, disk.faulty, view.Length, locations, blocks, g.block);
        var _ := Delete(keys);
        return ReadFailed;
      }
      SortedLoad(disk.files, old(view[..]), rs);
      outcome := Loaded;
    }

    /** Reads blocks in the given order, coalescing those that follow each other in one segment. */
    method ReadSorted(rs: seq<Read>, view: array<Bytes>, iovMax: nat, ghost blocks: seq<nat>) returns (ok: bool)
      requires g.Valid() && 0 < iovMax && RowsSized(view[..], g.block)
      requires forall r :: r in rs ==> r.block < view.Length && r.block in blocks
      modifies view
      ensures RowsSized(view[..], g.block) && OtherRowsKept(old(view[..]), view[..], blocks)
      ensures ok ==> ScatterDone(disk.files, old(view[..]), view[..], rs)
      ensures ok ==> forall r :: r in rs ==> r.at.length == g.block
      ensures !ok ==> exists r :: r in rs && !Loadable(disk.files, disk.faulty, r.at, g.block)
    {
      var views: seq<nat> := [];
      var segment: nat, offset: nat := 0, 0;
      for i := 0 to |rs|
        invariant PendingReads(disk.files, old(view[..]), view[..], rs, i, views, segment, offset, g.block)
        invariant RowsSized(view[..], g.block) && OtherRowsKept(old(view[..]), view[..], blocks)
        invariant forall r :: r in rs[..i] ==> r.at.length == g.block
      {
        var r := rs[i];
        assert r in rs;
        if r.at.length != g.block {
          return false;
        }
        var expected := offset + |views| * g.block;
        if views != [] && (r.at.segment != segment || r.at.offset != expected) {
          ok := FlushReads(views, segment, offset, view, iovMax, old(view[..]), rs, i, blocks);
          if !ok {
            return;
          }
          views := [];
        }
        if views == [] {
          segment, offset := r.at.segment, r.at.offset;
        }
        PendingReadsNext(disk.files, old(view[..]), view[..], rs, i, views, segment, offset, g.block);
        views := views + [r.block];
        assert rs[..i + 1] == rs[..i] + [r];
      }
      assert rs[..|rs|] == rs;
      ok := true;
      if views != [] {
        ok := FlushReads(views, segment, offset, view, iovMax, old(view[..]), rs, |rs|, blocks);
      }
    }

    method FlushReads(views: seq<nat>, segment: nat, offset: nat, view: array<Bytes>, iovMax: nat,
                      ghost was: seq<Bytes>, ghost rs: seq<Read>, ghost i: nat, ghost blocks: seq<nat>) returns (ok: bool)
      requires g.Valid() && 0 < iovMax && i <= |rs|
      requires PendingReads(disk.files, was, view[..], rs, i, views, segment, offset, g.block) && views != []
      requires RowsSized(view[..], g.block) && OtherRowsKept(was, view[..], blocks)
      requires forall r :: r in rs ==> r.block < view.Length && r.block in blocks
      modifies view
      ensures RowsSized(view[..], g.block) && OtherRowsKept(was, view[..], blocks)
      ensures ok ==> ScatterDone(disk.files, was, view[..], rs[..i])
      ensures !ok ==> exists r :: r in rs && !Loadable(disk.files, disk.faulty, r.at, g.block)
    {
      ghost var k := i - |views|;
      ghost var now := view[..];
      forall b | b in views ensures b < view.Length && b in blocks {
        var j :| 0 <= j < |views| && views[j] == b;
        assert rs[k..i][j] == Scatter(segment, offset, views, g.block)[j];
        assert rs[k + j] in rs;
      }
      ok := PreadvAll(disk, segment, view, views, offset, iovMax, g.block);
      if ok {
        assert rs[..i] == rs[..k] + rs[k..i];
        ReadEachAppend(disk.files, was, rs[..k], rs[k..i]);
      } else {
        RunNotLoadable(disk.files, disk.faulty, view.Length, rs, k, i, segment, offset, views, g.block);
      }
    }

    /* ---- deleting ---- */

    /** Deletes the rows of some keys and forgets them in the cache; reports the keys that had a row. */
    method Delete(keys: seq<Key>) returns (r: Result<set<Key>, StoreError>)
      modifies this`index, this`cache, this`tried
      ensures r.Ok? <==> keys == [] || !refuses(old(tried))
      ensures tried == old(tried) + if keys == [] then 0 else 1
      ensures r.Ok? ==>
                && State() == SegmentModel.Delete(old(State()), set key | key in keys)
                && r.value == (set key | key in keys && key in old(index))
      ensures r.Err? ==> State() == old(State())
    {
      if keys == [] {
        DeleteNothing(State(), keys);
        return Ok({});
      }
      var existing: set<Key> := {};
      var rows := index;
      var start := 0;
      while start < |keys|
        invariant start <= |keys|
        invariant existing == set key | key in keys[..start] && key in index
        invariant rows == index - (set key | key in keys[..start])
      {
        var end := if start + INDEX_BATCH_SIZE < |keys| then start + INDEX_BATCH_SIZE else |keys|;
        var chunk := set key | key in keys[start..end];
        existing := existing + (set key | key in chunk && key in index);
        rows := rows - chunk;
        assert keys[..end] == keys[..start] + keys[start..end];
        start := end;
      }
      assert keys[..start] == keys;
      var committed := Ask();
      if !committed {
        return Err(CommitFailed);
      }
      ghost var was := State();
      index := rows;
      cache := cache - existing;
      assert existing == (set key | key in keys) * was.index.Keys;
      r := Ok(existing);
    }
  }

  /* ---- loads ---- */

  /** The locations a load uses: the given ones, or those it looks up. */
  function Located(s: Store, keys: seq<Key>, given: Option<seq<Option<Location>>>): seq<Option<Location>> {
    if given.Some? then given.value else Locations(s, keys)
  }

  function LookedUp(s: Store, keys: seq<Key>, given: Option<seq<Option<Location>>>): Store {
    if given.Some? then s else SegmentModel.GetLocations(s, keys).0
  }

  function ReadsOf(locations: seq<Option<Location>>, blocks: seq<nat>): seq<Read>
    requires |locations| == |blocks| && None !in locations
  {
    seq(|blocks|, i requires 0 <= i < |blocks| =>
      assert locations[i] in locations; Read(locations[i].value, blocks[i]))
  }

  /** The rows after a load: as if each block had been read on its own. */
  ghost predicate LoadedInto(files: Files, before: seq<Bytes>, after: seq<Bytes>,
                             locations: seq<Option<Location>>, blocks: seq<nat>, size: nat) {
    && |locations| == |blocks| && None !in locations
    && var rs := ReadsOf(locations, blocks);
    && CanRead(files, |before|, rs)
    && (forall r :: r in rs ==> r.at.length == size)
    && CanRead(files, |before|, SortReads(rs))
    && after == ReadEach(files, before, SortReads(rs))
    && (DistinctBlocks(rs) ==> after == ReadEach(files, before, rs))
  }

  /** A block that can be read: all of it is there, of the store's size, on a segment without faults. */
  predicate Loadable(files: Files, faulty: set<nat>, at: Location, size: nat) {
    at.length == size && Readable(files, at) && at.segment !in faulty
  }

  predicate AllLoadable(files: Files, faulty: set<nat>, locations: seq<Option<Location>>, size: nat) {
    forall found :: found in locations ==> found.Some? && Loadable(files, faulty, found.value, size)
  }

  lemma NotLoadable(files: Files, faulty: set<nat>, rows: nat, locations: seq<Option<Location>>, blocks: seq<nat>, size: nat)
    requires |locations| == |blocks| && None !in locations
    requires exists r :: r in SortReads(ReadsOf(locations, blocks)) && !Loadable(files, faulty, r.at, size)
    ensures locations != [] && !AllLoadable(files, faulty, locations, size)
  {
    var r :| r in SortReads(ReadsOf(locations, blocks)) && !Loadable(files, faulty, r.at, size);
    SortMembers(ReadsOf(locations, blocks));
    var i :| 0 <= i < |blocks| && ReadsOf(locations, blocks)[i] == r;
    assert locations[i] in locations;
  }

  /** When the blocks of a run cannot all be read, one of them is at fault. */
  lemma RunNotLoadable(files: Files, faulty: set<nat>, rows: nat, rs: seq<Read>, k: nat, i: nat,
                       segment: nat, offset: nat, views: seq<nat>, size: nat)
    requires k <= i <= |rs| && rs[k..i] == Scatter(segment, offset, views, size) && views != []
    requires forall r :: r in rs ==> r.block < rows
    requires segment in faulty || !CanRead(files, rows, Scatter(segment, offset, views, size))
    ensures exists r :: r in rs && !Loadable(files, faulty, r.at, size)
  {
    if segment in faulty {
      assert rs[k..i][0].at.segment == segment;
      assert rs[k] in rs;
    } else {
      var r :| r in rs[k..i] && !(Readable(files, r.at) && r.block < rows);
      assert r in rs;
    }
  }

  lemma DeleteNothing(s: Store, keys: seq<Key>)
    requires keys == []
    ensures SegmentModel.Delete(s, set key | key in keys) == s
  {
    var none := set key | key in keys;
    assert none == {};
    assert s.index - none == s.index && s.cache - (none * s.index.Keys) == s.cache;
  }

  lemma PlanOfNothing(s: Store, g: Geometry, keys: seq<Key>, blocks: seq<nat>)
    requires g.Valid() && |keys| == |blocks|
    ensures Sources(s, keys, blocks) == [] ==> SegmentModel.PrepareStore(s, g, keys, blocks).1 == []
  {
  }

  lemma ReadsBlocks(locations: seq<Option<Location>>, blocks: seq<nat>)
    requires |locations| == |blocks| && None !in locations
    ensures forall r :: r in SortReads(ReadsOf(locations, blocks)) ==> r.block in blocks
  {
    SortMembers(ReadsOf(locations, blocks));
  }

  /** With distinct rows, reading in sorted order is reading in the order of the keys. */
  lemma SortedLoad(files: Files, rows: seq<Bytes>, rs: seq<Read>)
    requires CanRead(files, |rows|, SortReads(rs))
    ensures CanRead(files, |rows|, rs)
    ensures DistinctBlocks(rs) ==> ReadEach(files, rows, SortReads(rs)) == ReadEach(files, rows, rs)
    ensures forall r :: r in rs ==> r in SortReads(rs)
  {
    SortMembers(rs);
    if DistinctBlocks(rs) {
      SortDistinct(rs);
      ReadOrderIrrelevant(files, rows, SortReads(rs), rs);
    }
  }

  /** Everything before the pending rows is read, and the pending ones' blocks follow each other. */
  ghost predicate PendingReads(files: Files, was: seq<Bytes>, now: seq<Bytes>, rs: seq<Read>, i: nat, views: seq<nat>,
                               segment: nat, offset: nat, size: nat) {
    && |views| <= i <= |rs|
    && ScatterDone(files, was, now, rs[..i - |views|])
    && rs[i - |views|..i] == Scatter(segment, offset, views, size)
  }

  lemma PendingReadsNext(files: Files, was: seq<Bytes>, now: seq<Bytes>, rs: seq<Read>, i: nat, views: seq<nat>,
                         segment: nat, offset: nat, size: nat)
    requires i < |rs| && |views| <= i && ScatterDone(files, was, now, rs[..i - |views|])
    requires views == [] || rs[i - |views|..i] == Scatter(segment, offset, views, size)
    requires rs[i].at == Location(segment, offset + |views| * size, size)
    ensures PendingReads(files, was, now, rs, i + 1, views + [rs[i].block], segment, offset, size)
  {
    var k := i - |views|;
    assert rs[k..i + 1] == rs[k..i] + [rs[i]];
    ScatterAppend(segment, offset, views, [rs[i].block], size);
    if views == [] {
      assert rs[k..i] == [] == Scatter(segment, offset, views, size);
    }
    assert Scatter(segment, offset + |views| * size, [rs[i].block], size) == [rs[i]];
  }

  lemma PlanBlocks(s: Store, g: Geometry, keys: seq<Key>, blocks: seq<nat>, plan: seq<SegmentWrite>)
    requires g.Valid() && |keys| == |blocks|
    requires plan == SegmentModel.PrepareStore(s, g, keys, blocks).1
    ensures forall w :: w in plan ==> w.block in blocks
  {
    var looked, found := s.(cache := CacheAfter(s, keys)), Locations(s, keys);
    var sources := Unique(keys, blocks, found);
    if sources != [] {
      LocationsConsistent(s, keys);
      PlanPermutes(looked, g, sources);
      forall w | w in plan ensures w.block in blocks {
        var i :| 0 <= i < |sources| && Assign(sources, NewSlots(looked, g, |sources|))[i] == w;
        UniqueBlocks(keys, blocks, found, sources[i]);
      }
    }
  }

  /** Everything before the pending buffers is written, and the pending ones follow each other. */
  ghost predicate Pending(was: Files, files: Files, ws: seq<Write>, i: nat, views: seq<Bytes>,
                          segment: nat, offset: nat, size: nat) {
    && |views| <= i <= |ws|
    && files == WriteAll(was, ws[..i - |views|])
    && views == Datas(ws[i - |views|..i])
    && EvenRun(ws[i - |views|..i], segment, offset, size)
  }

  /** An interrupted store: the entries before `done` are written, and part of that one, on a faulty segment. */
  ghost predicate CutAt(was: Files, files: Files, ws: seq<Write>, done: nat, rest: nat, size: nat, faulty: set<nat>) {
    && done < |ws| && rest < size && rest <= |ws[done].data| && ws[done].segment in faulty
    && files == WriteCut(was, ws, done, rest)
  }

  lemma WholeRun(was: Files, ws: seq<Write>, k: nat, i: nat)
    requires k <= i <= |ws|
    ensures WriteAll(WriteAll(was, ws[..k]), ws[k..i]) == WriteAll(was, ws[..i])
  {
    WriteAllAppend(was, ws[..k], ws[k..i]);
    assert ws[..i] == ws[..k] + ws[k..i];
  }

  lemma CutRun(was: Files, before: Files, files: Files, ws: seq<Write>, k: nat, i: nat, done: nat, rest: nat,
               segment: nat, offset: nat, size: nat, faulty: set<nat>)
    requires k <= i <= |ws| && done < i - k && rest < |ws[k..i][done].data| && EvenRun(ws[k..i], segment, offset, size)
    requires before == WriteAll(was, ws[..k]) && files == WriteCut(before, ws[k..i], done, rest)
    requires segment in faulty && forall w :: w in ws ==> |w.data| == size
    ensures CutAt(was, files, ws, k + done, rest, size, faulty)
  {
    CutFurther(was, ws, k, i, done, rest);
    EvenRunAt(ws[k..i], segment, offset, size, done);
    assert ws[k..i][done] == ws[k + done];
  }

  /** What each entry writes, and that it is a whole block. */
  ghost predicate Resolved(entries: seq<SegmentWrite>, rows: seq<Bytes>, ws: seq<Write>, size: nat) {
    && |ws| == |entries|
    && (forall i: nat :: i < |ws| ==>
          && entries[i].block < |rows| && ws[i] == Write(entries[i].segment, entries[i].offset, rows[entries[i].block]))
    && (forall w :: w in ws ==> |w.data| == size)
  }

  lemma PendingNext(was: Files, files: Files, ws: seq<Write>, i: nat, views: seq<Bytes>,
                    segment: nat, offset: nat, size: nat)
    requires i < |ws| && |ws[i].data| == size
    requires Pending(was, files, ws, i, views, segment, offset, size) || (views == [] && files == WriteAll(was, ws[..i]))
    requires ws[i].segment == segment && ws[i].offset == offset + |views| * size
    ensures Pending(was, files, ws, i + 1, views + [ws[i].data], segment, offset, size)
  {
    var k := i - |views|;
    assert ws[k..i + 1] == ws[k..i] + [ws[i]];
    if views == [] {
      assert ws[k..i] == [];
    }
    EvenRunNext(ws[k..i], segment, offset, size, ws[i]);
  }

  ghost predicate LanesAre(lanes: seq<seq<SegmentWrite>>, entries: seq<SegmentWrite>, cursor: nat, shards: nat)
    requires 0 < shards
  {
    |lanes| == shards && forall k :: 0 <= k < shards ==> lanes[k] == Lane(entries, cursor, shards, k)
  }

  lemma LanesNextEntry(lanes: seq<seq<SegmentWrite>>, entries: seq<SegmentWrite>, entry: SegmentWrite, cursor: nat, shards: nat)
    requires 0 < shards && LanesAre(lanes, entries, cursor, shards)
    ensures var shard := (cursor + |entries|) % shards;
      LanesAre(lanes[shard := lanes[shard] + [entry]], entries + [entry], cursor, shards)
  {
    assert (entries + [entry])[..|entries|] == entries;
  }

  /** The first `i` sources have their slots, and are listed by shard. */
  ghost predicate Placed(a: Allocator, g: Geometry, sources: seq<Source>, i: nat, marks: seq<Mark>, next: nat, lanes: seq<seq<SegmentWrite>>)
    requires g.Valid() && Wellformed(a)
  {
    && i <= |sources| && |marks| == g.shards
    && Allocator(marks, next, (a.cursor + i) % g.shards) == Allocate(a, g, i).0
    && LanesAre(lanes, Assign(sources[..i], Allocate(a, g, i).1), a.cursor, g.shards)
  }

  lemma PlacedNext(a: Allocator, g: Geometry, sources: seq<Source>, i: nat, marks: seq<Mark>, next: nat, lanes: seq<seq<SegmentWrite>>)
    requires g.Valid() && Wellformed(a) && |a.marks| == g.shards && i < |sources|
    requires Placed(a, g, sources, i, marks, next, lanes)
    ensures var shard := (a.cursor + i) % g.shards;
      var (after, slot) := AllocateOne(Allocator(marks, next, shard), g);
      var entry := SegmentWrite(sources[i].key, slot.segment, slot.offset, sources[i].block);
      Placed(a, g, sources, i + 1, after.marks, after.next, lanes[shard := lanes[shard] + [entry]])
  {
    var shard := (a.cursor + i) % g.shards;
    var (after, slot) := AllocateOne(Allocator(marks, next, shard), g);
    PlaceNext(a, g, sources, i);
    LanesNextEntry(lanes, Assign(sources[..i], Allocate(a, g, i).1),
      SegmentWrite(sources[i].key, slot.segment, slot.offset, sources[i].block), a.cursor, g.shards);
  }

  /** Handing out slot `i`: the allocator moves on, and one more source has its place. */
  lemma PlaceNext(a: Allocator, g: Geometry, sources: seq<Source>, i: nat)
    requires g.Valid() && Wellformed(a) && |a.marks| == g.shards && i < |sources|
    requires Allocate(a, g, i).0.cursor == (a.cursor + i) % g.shards
    ensures var (before, slots) := Allocate(a, g, i); var (after, slot) := AllocateOne(before, g);
      && Allocate(a, g, i + 1) == (after, slots + [slot])
      && after.cursor == (a.cursor + (i + 1)) % g.shards
      && Assign(sources[..i + 1], slots + [slot]) ==
           Assign(sources[..i], slots) + [SegmentWrite(sources[i].key, slot.segment, slot.offset, sources[i].block)]
  {
    SegmentAccounting.NextRound(a.cursor + i, g.shards);
    var (before, slots) := Allocate(a, g, i);
    var (after, slot) := AllocateOne(before, g);
    assert sources[..i + 1][..i] == sources[..i];
  }

  /** The keys, divided into cached rows and the keys to ask the table for. */
  ghost predicate Split(cache: Index, keys: seq<Key>, found: Index, missing: seq<Key>) {
    && (forall key :: key in found <==> key in keys && key in cache)
    && (forall key :: key in found ==> found[key] == cache[key])
    && (forall key :: key in missing <==> key in keys && key !in cache)
  }

  lemma SplitAnswers(s: Store, keys: seq<Key>, found: Index, missing: seq<Key>)
    requires Split(s.cache, keys, found, missing)
    ensures s.cache + RowsOf(s.index, missing) == CacheAfter(s, keys)
    ensures forall key :: key in keys ==> Find(found + RowsOf(s.index, missing), key) == Locate(s, key)
  {
  }

  /** A query: the rows of the named keys. */
  function RowsOf(index: Index, keys: seq<Key>): Index {
    map key | key in keys && key in index :: index[key]
  }

  lemma RowsNext(base: Index, index: Index, keys: seq<Key>, a: nat, b: nat)
    requires a <= b <= |keys|
    ensures base + RowsOf(index, keys[..b]) == base + RowsOf(index, keys[..a]) + RowsOf(index, keys[a..b])
  {
    assert keys[..b] == keys[..a] + keys[a..b];
    assert RowsOf(index, keys[..b]) == RowsOf(index, keys[..a]) + RowsOf(index, keys[a..b]);
  }

  lemma WholeBlocks(bytes: nat, block: nat)
    requires 0 < block <= bytes
    ensures var whole := bytes / block * block;
      block <= whole <= bytes < whole + block && whole % block == 0
  {
    var q := bytes / block;
    assert q * block + bytes % block == bytes;
    assert q >= 1;
    assert q * block == block + (q - 1) * block;
    Divisions.DivisionIs(q * block, block, q, 0);
  }

  predicate EndsAt(at: Location, mark: Mark) {
    at.segment == mark.segment && at.offset + at.length == mark.offset
  }

  lemma LatestIs(md: Metadata, index: Index, last: Option<Key>, mark: Mark)
    requires !HasLegacyRows(md)
    requires forall key :: key in index ==> Below(index[key], mark)
    requires last.None? ==> index == map[] && mark == Mark(0, 0)
    requires last.Some? ==> last.value in index && EndsAt(index[last.value], mark)
    ensures LatestSegment(md, index) == mark
  {
    if last.Some? {
      assert index[last.value].segment in Segments(index);
      AboveUnique(Segments(index), mark.segment + 1);
      assert index[last.value].offset + index[last.value].length in Ends(index, mark.segment);
      AboveUnique(Ends(index, mark.segment), mark.offset + 1);
    } else {
      assert Segments(index) == {};
    }
  }
}
