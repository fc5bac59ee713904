/** The allocator: which byte ranges a store may write, and the high-water marks that it persists. */
module SegmentAllocation {
  import opened Basics
  import opened SegmentFiles

  /** The `blocks` table. */
  type Index = map<Key, Location>

  /** The names of the `metadata` table. */
  datatype MetaName =
    | LegacySegment | LegacyOffset
    | NextSegment | ShardCursor
    | ShardSegment(shard: nat) | ShardOffset(shard: nat)

  type Metadata = map<MetaName, nat>

  /** Where a shard appends next. */
  datatype Mark = Mark(segment: nat, offset: nat)

  datatype Allocator = Allocator(marks: seq<Mark>, next: nat, cursor: nat)

  /** The sizes of one open store: `segment` is a whole number of blocks, at least one. */
  datatype Geometry = Geometry(block: nat, segment: nat, shards: nat) {
    predicate Valid() {
      0 < block <= segment && segment % block == 0 && 0 < shards
    }
  }

  function Max(a: nat, b: nat): nat { if a < b then b else a }

  /** One above the largest member. */
  ghost function Above(ids: set<nat>): (r: nat)
    ensures forall i :: i in ids ==> i < r
    ensures r == 0 <==> ids == {}
    ensures r > 0 ==> r - 1 in ids
  {
    if ids == {} then 0
    else
      var i :| i in ids;
      var r := Above(ids - {i});
      assert ids == (ids - {i}) + {i};
      Max(i + 1, r)
  }

  lemma AboveUnique(ids: set<nat>, r: nat)
    requires forall i :: i in ids ==> i < r
    requires r > 0 ==> r - 1 in ids
    ensures Above(ids) == r
  {
  }

  ghost function Segments(index: Index): set<nat> {
    set key | key in index :: index[key].segment
  }

  ghost function Ends(index: Index, segment: nat): set<nat> {
    set key | key in index && index[key].segment == segment :: index[key].offset + index[key].length
  }

  predicate HasLegacyRows(md: Metadata) {
    LegacySegment in md && LegacyOffset in md
  }

  /** The single append stream of a store that has no shard rows yet. */
  ghost function LatestSegment(md: Metadata, index: Index): Mark {
    if HasLegacyRows(md) then Mark(md[LegacySegment], md[LegacyOffset])
    else
      var top := Above(Segments(index));
      if top == 0 then Mark(0, 0)
      else
        assert top - 1 in Segments(index);
        var key :| key in index && index[key].segment == top - 1;
        assert index[key].offset + index[key].length in Ends(index, top - 1);
        Mark(top - 1, Above(Ends(index, top - 1)) - 1)
  }

  predicate HasShards(md: Metadata) {
    ShardSegment(0) in md
  }

  ghost function ExistingSegments(md: Metadata, index: Index): set<nat> {
    if HasShards(md) then set n | n in md && n.ShardSegment? :: md[n]
    else {LatestSegment(md, index).segment}
  }

  function Lookup(md: Metadata, name: MetaName): nat {
    if name in md then md[name] else 0
  }

  ghost function FirstFree(md: Metadata, index: Index): nat {
    Max(Above(ExistingSegments(md, index)), Lookup(md, NextSegment))
  }

  /** The mark of shard `k`, when `next` is the next free segment, and the next free one after it. */
  function OpenMark(md: Metadata, legacy: Mark, k: nat, next: nat): (Mark, nat) {
    if ShardSegment(k) in md && ShardOffset(k) in md then
      (Mark(md[ShardSegment(k)], md[ShardOffset(k)]), next)
    else if k == 0 && !HasShards(md) then
      (legacy, Max(next, legacy.segment + 1))
    else (Mark(next, 0), next + 1)
  }

  /** The marks of the first `n` shards and the next free segment after them. */
  function MarksOf(md: Metadata, legacy: Mark, first: nat, n: nat): (r: (seq<Mark>, nat))
    ensures |r.0| == n
  {
    if n == 0 then ([], first)
    else
      var (marks, next) := MarksOf(md, legacy, first, n - 1);
      var (mark, after) := OpenMark(md, legacy, n - 1, next);
      (marks + [mark], after)
  }

  ghost function Open(md: Metadata, index: Index, shards: nat): (a: Allocator)
    requires 0 < shards
    ensures |a.marks| == shards && a.cursor < shards
  {
    var (marks, next) := MarksOf(md, LatestSegment(md, index), FirstFree(md, index), shards);
    Allocator(marks, next, Lookup(md, ShardCursor) % shards)
  }

  predicate Wellformed(a: Allocator) {
    a.cursor < |a.marks|
  }

  /** Hands out one block on the shard at the cursor, in a new segment when its own one is full. */
  function AllocateOne(a: Allocator, g: Geometry): (r: (Allocator, Location))
    requires Wellformed(a)
    ensures Wellformed(r.0) && |r.0.marks| == |a.marks|
  {
    var mark := a.marks[a.cursor];
    var full := mark.offset + g.block > g.segment;
    var at := if full then Mark(a.next, 0) else mark;
    (Allocator(a.marks[a.cursor := Mark(at.segment, at.offset + g.block)],
               if full then a.next + 1 else a.next,
               (a.cursor + 1) % |a.marks|),
     Location(at.segment, at.offset, g.block))
  }

  function Allocate(a: Allocator, g: Geometry, n: nat): (r: (Allocator, seq<Location>))
    requires Wellformed(a)
    ensures Wellformed(r.0) && |r.0.marks| == |a.marks| && |r.1| == n
  {
    if n == 0 then (a, [])
    else
      var (before, slots) := Allocate(a, g, n - 1);
      var (after, slot) := AllocateOne(before, g);
      (after, slots + [slot])
  }

  function SegmentRows(marks: seq<Mark>): (rows: Metadata)
    ensures forall n :: n in rows <==> n.ShardSegment? && n.shard < |marks|
    ensures forall k: nat :: k < |marks| ==> rows[ShardSegment(k)] == marks[k].segment
  {
    map k | 0 <= k < |marks| :: ShardSegment(k) := marks[k].segment
  }

  function OffsetRows(marks: seq<Mark>): (rows: Metadata)
    ensures forall n :: n in rows <==> n.ShardOffset? && n.shard < |marks|
    ensures forall k: nat :: k < |marks| ==> rows[ShardOffset(k)] == marks[k].offset
  {
    map k | 0 <= k < |marks| :: ShardOffset(k) := marks[k].offset
  }

  function Persist(md: Metadata, a: Allocator): Metadata {
    md[NextSegment := a.next][ShardCursor := a.cursor] + SegmentRows(a.marks) + OffsetRows(a.marks)
  }

  /** The metadata after a store that allocated `n` blocks: one without new keys persists nothing. */
  ghost function AllocateMeta(md: Metadata, index: Index, g: Geometry, n: nat): Metadata
    requires 0 < g.shards
  {
    if n == 0 then md else Persist(md, Allocate(Open(md, index, g.shards), g, n).0)
  }

  /* ---- what every run keeps ---- */

  /** Shard rows come in pairs, name distinct segments, and lie below the next free one. */
  ghost predicate MetaValid(md: Metadata) {
    if HasShards(md) then
      && NextSegment in md
      && (forall k: nat :: ShardSegment(k) in md <==> ShardOffset(k) in md)
      && (forall k: nat :: ShardSegment(k) in md ==> md[ShardSegment(k)] < md[NextSegment])
      && (forall j: nat, k: nat :: j != k && ShardSegment(j) in md && ShardSegment(k) in md ==>
            md[ShardSegment(j)] != md[ShardSegment(k)])
    else
      forall k: nat :: ShardSegment(k) !in md && ShardOffset(k) !in md
  }

  /** No persisted shard, configured or not, will ever be handed `at` again. */
  ghost predicate Covered(md: Metadata, at: Location) {
    && NextSegment in md && at.segment < md[NextSegment]
    && forall k: nat :: ShardSegment(k) in md && ShardOffset(k) in md && md[ShardSegment(k)] == at.segment ==>
         at.offset + at.length <= md[ShardOffset(k)]
  }

  predicate Below(at: Location, mark: Mark) {
    at.segment < mark.segment || (at.segment == mark.segment && at.offset + at.length <= mark.offset)
  }

  /** The next store to open will not be handed `at`. */
  ghost predicate Guarded(md: Metadata, index: Index, at: Location) {
    if HasShards(md) then Covered(md, at) else Below(at, LatestSegment(md, index))
  }

  /** The metadata says where allocation goes on, whatever the table holds. */
  predicate Marked(md: Metadata) {
    HasShards(md) || HasLegacyRows(md)
  }

  /** The shards that the open store does not use. */
  ghost predicate Parked(md: Metadata, shards: nat, segment: nat) {
    exists k: nat :: shards <= k && ShardSegment(k) in md && md[ShardSegment(k)] == segment
  }

  ghost predicate AllocatorValid(a: Allocator, md: Metadata) {
    && Wellformed(a)
    && (forall k :: 0 <= k < |a.marks| ==> a.marks[k].segment < a.next)
    && (forall j, k :: 0 <= j < k < |a.marks| ==> a.marks[j].segment != a.marks[k].segment)
    && (forall k :: 0 <= k < |a.marks| ==> !Parked(md, |a.marks|, a.marks[k].segment))
    && (forall k: nat :: |a.marks| <= k && ShardSegment(k) in md ==> md[ShardSegment(k)] < a.next)
  }

  /** The allocator cannot hand out any byte of `at`. */
  ghost predicate OutOfReach(a: Allocator, at: Location) {
    && at.segment < a.next
    && forall k :: 0 <= k < |a.marks| && a.marks[k].segment == at.segment ==>
         at.offset + at.length <= a.marks[k].offset
  }

  lemma LatestCovers(md: Metadata, index: Index, key: Key)
    requires key in index
    requires HasLegacyRows(md) ==> Below(index[key], Mark(md[LegacySegment], md[LegacyOffset]))
    ensures Below(index[key], LatestSegment(md, index))
  {
    if !HasLegacyRows(md) {
      var at := index[key];
      assert at.segment in Segments(index);
      var top := Above(Segments(index));
      if at.segment == top - 1 {
        assert at.offset + at.length in Ends(index, top - 1);
      }
    }
  }

  /** `first` lies above every persisted shard and above the stream of a store without shards. */
  ghost predicate Fresh(md: Metadata, legacy: Mark, first: nat) {
    && (forall k: nat :: ShardSegment(k) in md ==> md[ShardSegment(k)] < first)
    && (!HasShards(md) ==> legacy.segment < first)
  }

  lemma FirstFreeFresh(md: Metadata, index: Index)
    requires MetaValid(md)
    ensures Fresh(md, LatestSegment(md, index), FirstFree(md, index))
  {
    forall k: nat | ShardSegment(k) in md ensures md[ShardSegment(k)] < FirstFree(md, index) {
      assert md[ShardSegment(k)] in ExistingSegments(md, index);
    }
    if !HasShards(md) {
      assert LatestSegment(md, index).segment in ExistingSegments(md, index);
    }
  }

  /** What the mark of shard `k` is when a store opens. */
  ghost predicate MarkOf(md: Metadata, legacy: Mark, first: nat, k: nat, mark: Mark) {
    if ShardSegment(k) in md then ShardOffset(k) in md && mark == Mark(md[ShardSegment(k)], md[ShardOffset(k)])
    else if k == 0 then !HasShards(md) && mark == legacy
    else first <= mark.segment && mark.offset == 0
  }

  ghost predicate MarksGood(md: Metadata, legacy: Mark, first: nat, marks: seq<Mark>, next: nat) {
    && first <= next
    && (forall k :: 0 <= k < |marks| ==> marks[k].segment < next && MarkOf(md, legacy, first, k, marks[k]))
    && (forall j, k :: 0 <= j < k < |marks| ==> marks[j].segment != marks[k].segment)
  }

  lemma OpenMarkGood(md: Metadata, legacy: Mark, first: nat, marks: seq<Mark>, next: nat)
    requires MetaValid(md) && Fresh(md, legacy, first) && MarksGood(md, legacy, first, marks, next)
    ensures var (mark, after) := OpenMark(md, legacy, |marks|, next);
      MarksGood(md, legacy, first, marks + [mark], after)
  {
    var (mark, after) := OpenMark(md, legacy, |marks|, next);
    assert MarkOf(md, legacy, first, |marks|, mark);
    forall j | 0 <= j < |marks| ensures marks[j].segment != mark.segment {
      assert MarkOf(md, legacy, first, j, marks[j]);
    }
  }

  /** The marks a store opens with, shard by shard. */
  lemma {:induction false} MarksValid(md: Metadata, legacy: Mark, first: nat, n: nat)
    requires MetaValid(md) && Fresh(md, legacy, first)
    ensures var (marks, next) := MarksOf(md, legacy, first, n); MarksGood(md, legacy, first, marks, next)
  {
    if n > 0 {
      MarksValid(md, legacy, first, n - 1);
      var (marks, next) := MarksOf(md, legacy, first, n - 1);
      OpenMarkGood(md, legacy, first, marks, next);
    }
  }

  /** A store opens with a valid allocator, whatever its number of shards was before. */
  lemma OpenValid(md: Metadata, index: Index, shards: nat)
    requires 0 < shards && MetaValid(md)
    ensures AllocatorValid(Open(md, index, shards), md)
  {
    var legacy, first := LatestSegment(md, index), FirstFree(md, index);
    FirstFreeFresh(md, index);
    MarksValid(md, legacy, first, shards);
    GoodIsValid(md, legacy, first, Open(md, index, shards));
  }

  lemma GoodIsValid(md: Metadata, legacy: Mark, first: nat, a: Allocator)
    requires MetaValid(md) && Fresh(md, legacy, first) && Wellformed(a)
    requires MarksGood(md, legacy, first, a.marks, a.next)
    ensures AllocatorValid(a, md)
  {
    forall k | 0 <= k < |a.marks| ensures !Parked(md, |a.marks|, a.marks[k].segment) {
      assert MarkOf(md, legacy, first, k, a.marks[k]);
    }
  }

  /** ... that cannot reach a guarded location. */
  lemma GuardedOutOfReach(md: Metadata, index: Index, shards: nat, at: Location)
    requires 0 < shards && MetaValid(md) && Guarded(md, index, at)
    ensures OutOfReach(Open(md, index, shards), at)
  {
    var legacy, first := LatestSegment(md, index), FirstFree(md, index);
    FirstFreeFresh(md, index);
    MarksValid(md, legacy, first, shards);
    if HasShards(md) {
      PersistedFirstFree(md, index);
    }
    GoodIsOut(md, legacy, first, Open(md, index, shards), at);
  }

  lemma GoodIsOut(md: Metadata, legacy: Mark, first: nat, a: Allocator, at: Location)
    requires MetaValid(md) && Fresh(md, legacy, first)
    requires MarksGood(md, legacy, first, a.marks, a.next)
    requires if HasShards(md) then Covered(md, at) && at.segment < first else Below(at, legacy)
    ensures OutOfReach(a, at) || |a.marks| == 0
  {
    forall k | 0 <= k < |a.marks| && a.marks[k].segment == at.segment
      ensures at.offset + at.length <= a.marks[k].offset
    {
      assert MarkOf(md, legacy, first, k, a.marks[k]);
      assert MarkOf(md, legacy, first, 0, a.marks[0]);
    }
  }

  lemma PersistedFirstFree(p: Metadata, index: Index)
    requires HasShards(p) && MetaValid(p)
    ensures FirstFree(p, index) == p[NextSegment]
  {
    forall id | id in ExistingSegments(p, index) ensures id < p[NextSegment] {
      var n :| n in p && n.ShardSegment? && p[n] == id;
      assert p[ShardSegment(n.shard)] < p[NextSegment];
    }
  }

  lemma AllocateOneValid(a: Allocator, g: Geometry, md: Metadata)
    requires g.Valid() && AllocatorValid(a, md)
    ensures var (after, slot) := AllocateOne(a, g);
      && AllocatorValid(after, md)
      && OutOfReach(after, slot)
      && slot.offset + g.block <= g.segment
      && !Parked(md, |a.marks|, slot.segment)
  {
    var (after, slot) := AllocateOne(a, g);
    assert forall k :: 0 <= k < |a.marks| && k != a.cursor ==> after.marks[k] == a.marks[k];
  }

  lemma AllocateOneAvoids(a: Allocator, g: Geometry, md: Metadata, at: Location)
    requires g.Valid() && AllocatorValid(a, md) && OutOfReach(a, at)
    ensures var (after, slot) := AllocateOne(a, g);
      OutOfReach(after, at) && at.Disjoint(slot)
  {
    var (after, slot) := AllocateOne(a, g);
    assert forall k :: 0 <= k < |a.marks| && k != a.cursor ==> after.marks[k] == a.marks[k];
  }

  lemma AllocateNext(before: Allocator, slots: seq<Location>, g: Geometry, md: Metadata)
    requires g.Valid() && AllocatorValid(before, md) && PairwiseDisjoint(slots)
    requires forall slot :: slot in slots ==> OutOfReach(before, slot)
    ensures var (after, last) := AllocateOne(before, g);
      && AllocatorValid(after, md) && PairwiseDisjoint(slots + [last])
      && (forall slot :: slot in slots ==> OutOfReach(after, slot))
      && OutOfReach(after, last) && last.offset + g.block <= g.segment && !Parked(md, |before.marks|, last.segment)
  {
    AllocateOneValid(before, g, md);
    forall slot | slot in slots
      ensures var (after, last) := AllocateOne(before, g); OutOfReach(after, slot) && slot.Disjoint(last)
    {
      AllocateOneAvoids(before, g, md, slot);
    }
    AppendApart(slots, AllocateOne(before, g).1);
  }

  lemma AppendApart(slots: seq<Location>, last: Location)
    requires PairwiseDisjoint(slots) && forall slot :: slot in slots ==> slot.Disjoint(last)
    ensures PairwiseDisjoint(slots + [last])
  {
    forall i, j | 0 <= i < j < |slots + [last]| ensures (slots + [last])[i].Disjoint((slots + [last])[j]) {
      if j == |slots| {
        assert slots[i] in slots;
      }
    }
  }

  /** A batch of slots is pairwise disjoint, inside its segments, and out of reach afterwards. */
  lemma {:induction false} AllocateValid(a: Allocator, g: Geometry, md: Metadata, n: nat)
    requires g.Valid() && AllocatorValid(a, md)
    ensures var (after, slots) := Allocate(a, g, n);
      && AllocatorValid(after, md)
      && PairwiseDisjoint(slots)
      && forall slot :: slot in slots ==>
           && OutOfReach(after, slot)
           && slot.length == g.block && slot.offset + g.block <= g.segment
           && !Parked(md, |a.marks|, slot.segment)
  {
    if n > 0 {
      AllocateValid(a, g, md, n - 1);
      var (before, slots) := Allocate(a, g, n - 1);
      AllocateNext(before, slots, g, md);
    }
  }

  lemma {:induction false} AllocateAvoids(a: Allocator, g: Geometry, md: Metadata, n: nat, at: Location)
    requires g.Valid() && AllocatorValid(a, md) && OutOfReach(a, at)
    ensures var (after, slots) := Allocate(a, g, n);
      && OutOfReach(after, at)
      && forall slot :: slot in slots ==> at.Disjoint(slot)
  {
    if n > 0 {
      AllocateAvoids(a, g, md, n - 1, at);
      AllocateValid(a, g, md, n - 1);
      AllocateOneAvoids(Allocate(a, g, n - 1).0, g, md, at);
    }
  }

  /** `p` is `md` with the rows of `a` written over it. */
  ghost predicate Persisted(p: Metadata, md: Metadata, a: Allocator) {
    && NextSegment in p && p[NextSegment] == a.next
    && ShardCursor in p && p[ShardCursor] == a.cursor
    && (forall k :: 0 <= k < |a.marks| ==>
          && ShardSegment(k) in p && p[ShardSegment(k)] == a.marks[k].segment
          && ShardOffset(k) in p && p[ShardOffset(k)] == a.marks[k].offset)
    && (forall k: nat :: |a.marks| <= k ==>
          && (ShardSegment(k) in p <==> ShardSegment(k) in md)
          && (ShardSegment(k) in md ==> p[ShardSegment(k)] == md[ShardSegment(k)])
          && (ShardOffset(k) in p <==> ShardOffset(k) in md)
          && (ShardOffset(k) in md ==> p[ShardOffset(k)] == md[ShardOffset(k)]))
  }

  lemma PersistRows(md: Metadata, a: Allocator)
    ensures Persisted(Persist(md, a), md, a)
  {
    var p := Persist(md, a);
    forall k: nat ensures PersistedAt(p, md, a, k) {
      PersistRow(md, a, k);
    }
    RowsPersisted(p, md, a);
  }

  lemma RowsPersisted(p: Metadata, md: Metadata, a: Allocator)
    requires NextSegment in p && p[NextSegment] == a.next && ShardCursor in p && p[ShardCursor] == a.cursor
    requires forall k: nat :: PersistedAt(p, md, a, k)
    ensures Persisted(p, md, a)
  {
    forall k: nat ensures k >= |a.marks| ==>
      && (ShardSegment(k) in p <==> ShardSegment(k) in md)
      && (ShardSegment(k) in md ==> p[ShardSegment(k)] == md[ShardSegment(k)])
      && (ShardOffset(k) in p <==> ShardOffset(k) in md)
      && (ShardOffset(k) in md ==> p[ShardOffset(k)] == md[ShardOffset(k)])
    {
      assert PersistedAt(p, md, a, k);
    }
    forall k: nat | k < |a.marks|
      ensures ShardSegment(k) in p && p[ShardSegment(k)] == a.marks[k].segment
      ensures ShardOffset(k) in p && p[ShardOffset(k)] == a.marks[k].offset
    {
      assert PersistedAt(p, md, a, k);
    }
  }

  ghost predicate PersistedAt(p: Metadata, md: Metadata, a: Allocator, k: nat) {
    if k < |a.marks| then
      && ShardSegment(k) in p && p[ShardSegment(k)] == a.marks[k].segment
      && ShardOffset(k) in p && p[ShardOffset(k)] == a.marks[k].offset
    else
      && (ShardSegment(k) in p <==> ShardSegment(k) in md)
      && (ShardSegment(k) in md ==> p[ShardSegment(k)] == md[ShardSegment(k)])
      && (ShardOffset(k) in p <==> ShardOffset(k) in md)
      && (ShardOffset(k) in md ==> p[ShardOffset(k)] == md[ShardOffset(k)])
  }

  lemma PersistRow(md: Metadata, a: Allocator, k: nat)
    ensures PersistedAt(Persist(md, a), md, a, k)
  {
    var heads := md[NextSegment := a.next][ShardCursor := a.cursor];
    assert Persist(md, a) == heads + SegmentRows(a.marks) + OffsetRows(a.marks);
    assert ShardSegment(k) in heads <==> ShardSegment(k) in md;
    assert ShardOffset(k) in heads <==> ShardOffset(k) in md;
  }

  lemma PersistedValid(p: Metadata, md: Metadata, a: Allocator)
    requires MetaValid(md) && AllocatorValid(a, md) && Persisted(p, md, a)
    ensures HasShards(p) && MetaValid(p)
  {
    assert ShardSegment(0) in p;
    forall j: nat, k: nat | j < k && ShardSegment(j) in p && ShardSegment(k) in p
      ensures p[ShardSegment(j)] != p[ShardSegment(k)]
    {
      if j < |a.marks| <= k {
        assert !Parked(md, |a.marks|, a.marks[j].segment);
      }
    }
    forall k: nat | ShardSegment(k) in p ensures p[ShardSegment(k)] < a.next {
      if k < |a.marks| {
        assert a.marks[k].segment < a.next;
      }
    }
  }

  lemma PersistValid(md: Metadata, a: Allocator)
    requires MetaValid(md) && AllocatorValid(a, md)
    ensures HasShards(Persist(md, a)) && MetaValid(Persist(md, a))
  {
    PersistRows(md, a);
    PersistedValid(Persist(md, a), md, a);
  }

  /** Persisting the marks covers everything that is out of the allocator's reach. */
  lemma PersistCovers(md: Metadata, a: Allocator, at: Location)
    requires MetaValid(md) && OutOfReach(a, at)
    requires (HasShards(md) && Covered(md, at)) || !Parked(md, |a.marks|, at.segment)
    ensures Covered(Persist(md, a), at)
  {
    PersistRows(md, a);
  }

  lemma {:induction false} MarksOfRows(p: Metadata, legacy: Mark, md: Metadata, a: Allocator, n: nat)
    requires n <= |a.marks| && Persisted(p, md, a)
    ensures MarksOf(p, legacy, a.next, n) == (a.marks[..n], a.next)
  {
    if n > 0 {
      MarksOfRows(p, legacy, md, a, n - 1);
      assert a.marks[..n] == a.marks[..n - 1] + [a.marks[n - 1]];
    }
  }

  lemma PersistedOpens(p: Metadata, md: Metadata, a: Allocator, index: Index)
    requires Wellformed(a) && HasShards(p) && MetaValid(p) && Persisted(p, md, a)
    ensures Open(p, index, |a.marks|) == a
  {
    PersistedFirstFree(p, index);
    MarksOfRows(p, LatestSegment(p, index), md, a, |a.marks|);
    assert a.marks[..|a.marks|] == a.marks;
    SmallModulo(a.cursor, |a.marks|);
  }

  lemma SmallModulo(x: nat, d: nat)
    requires x < d
    ensures x % d == x
  {
  }

  /** Persisting an allocator and opening the store again gives the same allocator. */
  lemma PersistRoundTrip(md: Metadata, a: Allocator, index: Index)
    requires MetaValid(md) && AllocatorValid(a, md)
    ensures Open(Persist(md, a), index, |a.marks|) == a
  {
    PersistRows(md, a);
    PersistValid(md, a);
    PersistedOpens(Persist(md, a), md, a, index);
  }

  /* ---- one store's worth of slots ---- */

  /** The slots handed out to one store are disjoint, inside their segments and covered by the new rows. */
  lemma AllocationStep(md: Metadata, index: Index, g: Geometry, n: nat)
    requires g.Valid() && MetaValid(md) && 0 < n
    ensures var p, slots := AllocateMeta(md, index, g, n), Allocate(Open(md, index, g.shards), g, n).1;
      && MetaValid(p) && HasShards(p)
      && PairwiseDisjoint(slots)
      && forall slot :: slot in slots ==>
           Covered(p, slot) && slot.length == g.block && slot.offset + g.block <= g.segment
  {
    var a := Open(md, index, g.shards);
    var (after, slots) := Allocate(a, g, n);
    OpenValid(md, index, g.shards);
    AllocateValid(a, g, md, n);
    PersistValid(md, after);
    forall slot | slot in slots ensures Covered(AllocateMeta(md, index, g, n), slot) {
      PersistCovers(md, after, slot);
    }
  }

  /** A guarded location is disjoint from them and stays guarded. */
  lemma AllocationKeeps(md: Metadata, index: Index, g: Geometry, n: nat, at: Location)
    requires g.Valid() && MetaValid(md) && 0 < n && Guarded(md, index, at)
    ensures Covered(AllocateMeta(md, index, g, n), at)
    ensures forall slot :: slot in Allocate(Open(md, index, g.shards), g, n).1 ==> at.Disjoint(slot)
  {
    var a := Open(md, index, g.shards);
    OpenValid(md, index, g.shards);
    GuardedOutOfReach(md, index, g.shards, at);
    AllocateAvoids(a, g, md, n, at);
    AllocateValid(a, g, md, n);
    PersistCovers(md, Allocate(a, g, n).0, at);
  }
}
