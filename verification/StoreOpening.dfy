/** Where a store that is opened goes on: after a single append stream, or after shards of any number. */
module StoreOpening {
  import opened Basics
  import opened SegmentFiles
  import opened SegmentAllocation

  /** No shard was ever persisted, nor what goes with the shards. */
  ghost predicate SingleStream(md: Metadata) {
    NextSegment !in md && ShardCursor !in md && forall k: nat :: ShardSegment(k) !in md && ShardOffset(k) !in md
  }

  /** The allocator of a single stream that ends at `mark`: the first shard takes the stream over, and each
      other shard has a new segment. */
  ghost predicate TakesOver(a: Allocator, mark: Mark, shards: nat) {
    && |a.marks| == shards && a.cursor == 0 && a.next == mark.segment + shards
    && forall k :: 0 <= k < shards ==> a.marks[k] == if k == 0 then mark else Mark(mark.segment + k, 0)
  }

  lemma {:induction false} StreamMarks(md: Metadata, mark: Mark, n: nat)
    requires SingleStream(md)
    ensures var (marks, next) := MarksOf(md, mark, mark.segment + 1, n);
      && next == mark.segment + Max(n, 1)
      && forall k :: 0 <= k < n ==> marks[k] == if k == 0 then mark else Mark(mark.segment + k, 0)
  {
    if n > 0 {
      StreamMarks(md, mark, n - 1);
    }
  }

  lemma StreamOpens(md: Metadata, index: Index, mark: Mark, shards: nat)
    requires SingleStream(md) && LatestSegment(md, index) == mark && 0 < shards
    ensures TakesOver(Open(md, index, shards), mark, shards)
  {
    AboveUnique({mark.segment}, mark.segment + 1);
    assert FirstFree(md, index) == mark.segment + 1;
    StreamMarks(md, mark, shards);
    SmallModulo(0, shards);
  }

  /** The first round of slots: where the stream ends, if a block still fits there, and at the start of the
      other shards' segments. */
  function FirstSlot(mark: Mark, g: Geometry, i: nat): Location {
    if i > 0 then Location(mark.segment + i, 0, g.block)
    else if mark.offset + g.block <= g.segment then Location(mark.segment, mark.offset, g.block)
    else Location(mark.segment + g.shards, 0, g.block)
  }

  lemma {:induction false} FirstRound(a: Allocator, mark: Mark, g: Geometry, n: nat)
    requires g.Valid() && TakesOver(a, mark, g.shards) && n <= g.shards
    ensures var (after, slots) := Allocate(a, g, n);
      && (n < g.shards ==> after.cursor == n && forall k :: n <= k < g.shards ==> after.marks[k] == a.marks[k])
      && (n == 0 ==> after == a)
      && forall i: nat :: i < n ==> slots[i] == FirstSlot(mark, g, i)
  {
    if n > 0 {
      FirstRound(a, mark, g, n - 1);
      if n < g.shards {
        SmallModulo(n, g.shards);
      }
    }
  }

  /** A store of an earlier version with both rows of its append stream: the first slot is at the persisted
      place, or, when no block fits there, at the start of the next free segment; the other shards begin
      with segments of their own. */
  lemma LegacyStoreGoesOn(md: Metadata, index: Index, g: Geometry, n: nat, i: nat)
    requires g.Valid() && SingleStream(md) && LegacySegment in md && LegacyOffset in md && i < n <= g.shards
    ensures Allocate(Open(md, index, g.shards), g, n).1[i] ==
              if i > 0 then Location(md[LegacySegment] + i, 0, g.block)
              else if md[LegacyOffset] + g.block <= g.segment then Location(md[LegacySegment], md[LegacyOffset], g.block)
              else Location(md[LegacySegment] + g.shards, 0, g.block)
  {
    var mark := Mark(md[LegacySegment], md[LegacyOffset]);
    StreamOpens(md, index, mark, g.shards);
    FirstRound(Open(md, index, g.shards), mark, g, n);
  }

  /** ... and one without these rows goes on where the last of its blocks ends, in the highest segment. */
  lemma UnmarkedStoreGoesOn(md: Metadata, index: Index, g: Geometry, n: nat, i: nat, last: Key)
    requires g.Valid() && SingleStream(md) && !(LegacySegment in md && LegacyOffset in md) && i < n <= g.shards
    requires last in index
    requires forall key :: key in index ==>
               || index[key].segment < index[last].segment
               || (index[key].segment == index[last].segment
                   && index[key].offset + index[key].length <= index[last].offset + index[last].length)
    ensures var at := index[last];
      Allocate(Open(md, index, g.shards), g, n).1[i] ==
        if i > 0 then Location(at.segment + i, 0, g.block)
        else if at.offset + at.length + g.block <= g.segment then Location(at.segment, at.offset + at.length, g.block)
        else Location(at.segment + g.shards, 0, g.block)
  {
    var mark := Mark(index[last].segment, index[last].offset + index[last].length);
    EndOfStream(md, index, last, mark);
    StreamOpens(md, index, mark, g.shards);
    FirstRound(Open(md, index, g.shards), mark, g, n);
  }

  lemma EndOfStream(md: Metadata, index: Index, last: Key, mark: Mark)
    requires !HasLegacyRows(md) && last in index
    requires mark == Mark(index[last].segment, index[last].offset + index[last].length)
    requires forall key :: key in index ==> Below(index[key], mark)
    ensures LatestSegment(md, index) == mark
  {
    assert index[last].segment in Segments(index);
    AboveUnique(Segments(index), mark.segment + 1);
    assert index[last].offset + index[last].length in Ends(index, mark.segment);
    AboveUnique(Ends(index, mark.segment), mark.offset + 1);
  }

  /** A store with shard rows, opened with any number of shards: a shard with rows goes on where they say, the
      others begin with new segments of their own, and the round goes on at the persisted cursor. */
  lemma ShardsGoOn(md: Metadata, index: Index, shards: nat, k: nat)
    requires MetaValid(md) && ShardSegment(0) in md && k < shards
    ensures var a := Open(md, index, shards);
      && (ShardSegment(k) in md ==>
            ShardOffset(k) in md && a.marks[k] == Mark(md[ShardSegment(k)], md[ShardOffset(k)]))
      && (ShardSegment(k) !in md ==> a.marks[k].offset == 0 && md[NextSegment] <= a.marks[k].segment < a.next)
      && a.cursor == (if ShardCursor in md then md[ShardCursor] else 0) % shards
      && forall j :: 0 <= j < shards && j != k ==> a.marks[j].segment != a.marks[k].segment
  {
    var legacy, first := LatestSegment(md, index), FirstFree(md, index);
    FirstFreeFresh(md, index);
    PersistedFirstFree(md, index);
    MarksValid(md, legacy, first, shards);
    assert MarkOf(md, legacy, first, k, Open(md, index, shards).marks[k]);
  }
}
