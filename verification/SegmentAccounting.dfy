/** How evenly a fresh store fills its shards: the allocator's state in closed form. */
module SegmentAccounting {
  import opened SegmentFiles
  import opened SegmentAllocation
  import opened Divisions

  /** How many of the first `total` blocks shard `k` of `shards` gets. */
  function BlocksOf(total: nat, shards: nat, k: nat): nat
    requires k < shards
  {
    (total + shards - 1 - k) / shards
  }

  /** How many segments shard `k` opens after its first one, for `blocks` blocks of `perSegment` a segment. */
  function Rollovers(blocks: nat, perSegment: nat): nat
    requires 0 < perSegment
  {
    if blocks == 0 then 0 else (blocks - 1) / perSegment
  }

  /** How many blocks lie in the segment that the shard writes to. */
  function InSegment(blocks: nat, perSegment: nat): nat
    requires 0 < perSegment
  {
    if blocks == 0 then 0 else (blocks - 1) % perSegment + 1
  }

  function RolloversBelow(total: nat, shards: nat, perSegment: nat, n: nat): nat
    requires n <= shards && 0 < perSegment
  {
    if n == 0 then 0
    else
      var last := Rollovers(BlocksOf(total, shards, n - 1), perSegment);
      RolloversBelow(total, shards, perSegment, n - 1) + last
  }

  /** Blocks go round the shards: shard `k` has one block more than the rest of its round allows. */
  lemma BlocksOfRound(total: nat, shards: nat, k: nat)
    requires k < shards
    ensures BlocksOf(total, shards, k) == total / shards + (if k < total % shards then 1 else 0)
  {
    var q, r := total / shards, total % shards;
    assert total == q * shards + r;
    if k < r {
      assert (q + 1) * shards == q * shards + shards;
      DivisionIs(total + shards - 1 - k, shards, q + 1, r - 1 - k);
    } else {
      DivisionIs(total + shards - 1 - k, shards, q, r + shards - 1 - k);
    }
  }

  lemma NextRound(total: nat, shards: nat)
    requires 0 < shards
    ensures var r := total % shards;
      if r + 1 < shards then
        (total + 1) / shards == total / shards && (total + 1) % shards == r + 1 && (r + 1) % shards == r + 1
      else
        (total + 1) / shards == total / shards + 1 && (total + 1) % shards == 0 && (r + 1) % shards == 0
  {
    var q, r := total / shards, total % shards;
    if r + 1 < shards {
      DivisionIs(total + 1, shards, q, r + 1);
      DivisionIs(r + 1, shards, 0, r + 1);
    } else {
      assert (q + 1) * shards == q * shards + shards;
      DivisionIs(total + 1, shards, q + 1, 0);
      DivisionIs(shards, shards, 1, 0);
    }
  }

  /** One more block goes to the shard at the cursor and to no other. */
  lemma BlocksOfNext(total: nat, shards: nat, k: nat)
    requires k < shards
    ensures BlocksOf(total + 1, shards, k) == BlocksOf(total, shards, k) + (if k == total % shards then 1 else 0)
    ensures (total + 1) % shards == (total % shards + 1) % shards
  {
    NextRound(total, shards);
    BlocksOfRound(total, shards, k);
    BlocksOfRound(total + 1, shards, k);
  }

  lemma InSegmentNext(blocks: nat, perSegment: nat)
    requires 0 < perSegment
    ensures InSegment(blocks, perSegment) <= perSegment
    ensures if InSegment(blocks, perSegment) == perSegment then
              && Rollovers(blocks + 1, perSegment) == Rollovers(blocks, perSegment) + 1
              && InSegment(blocks + 1, perSegment) == 1
            else
              && Rollovers(blocks + 1, perSegment) == Rollovers(blocks, perSegment)
              && InSegment(blocks + 1, perSegment) == InSegment(blocks, perSegment) + 1
  {
    if blocks == 0 {
      DivisionIs(0, perSegment, 0, 0);
    } else {
      var q, r := (blocks - 1) / perSegment, (blocks - 1) % perSegment;
      if r + 1 == perSegment {
        assert (q + 1) * perSegment == q * perSegment + perSegment;
        DivisionIs(blocks, perSegment, q + 1, 0);
      } else {
        DivisionIs(blocks, perSegment, q, r + 1);
      }
    }
  }

  lemma {:induction false} RolloversBelowNext(total: nat, shards: nat, perSegment: nat, n: nat)
    requires 0 < shards && n <= shards && 0 < perSegment
    ensures var k := total % shards;
      RolloversBelow(total + 1, shards, perSegment, n) == RolloversBelow(total, shards, perSegment, n)
        + (if k < n && InSegment(BlocksOf(total, shards, k), perSegment) == perSegment then 1 else 0)
  {
    if n > 0 {
      RolloversBelowNext(total, shards, perSegment, n - 1);
      BlocksOfNext(total, shards, n - 1);
      InSegmentNext(BlocksOf(total, shards, n - 1), perSegment);
    }
  }

  /** Where a shard is after `blocks` blocks: its segments are `k`, `shards + k`, `2 * shards + k` and so on. */
  function MarkOf(blocks: nat, shards: nat, block: nat, perSegment: nat, k: nat): Mark
    requires 0 < perSegment
  {
    Mark(Rollovers(blocks, perSegment) * shards + k, InSegment(blocks, perSegment) * block)
  }

  /** The `i`-th slot of all: shards take turns, and each fills a segment before it opens the next. */
  function SlotAt(i: nat, shards: nat, block: nat, perSegment: nat): Location
    requires 0 < shards && 0 < perSegment
  {
    var m := i / shards;
    Location(m / perSegment * shards + i % shards, m % perSegment * block, block)
  }

  /** The slots are those that come next after the first `total`. */
  ghost predicate SlotsFrom(slots: seq<Location>, total: nat, shards: nat, block: nat, perSegment: nat)
    requires 0 < shards && 0 < perSegment
  {
    forall i: nat :: i < |slots| ==> slots[i] == SlotAt(total + i, shards, block, perSegment)
  }

  /** The state of the allocator after `total` blocks from a fresh start, `perSegment` to a segment. */
  ghost predicate FilledTo(a: Allocator, total: nat, shards: nat, block: nat, perSegment: nat)
    requires 0 < shards && 0 < perSegment
  {
    && |a.marks| == shards
    && a.cursor == total % shards
    && a.next == shards + RolloversBelow(total, shards, perSegment, shards)
    && forall k :: 0 <= k < shards ==> a.marks[k] == MarkOf(BlocksOf(total, shards, k), shards, block, perSegment, k)
  }

  /** The place of the next block of a shard that has `m`. */
  lemma NextPlace(m: nat, perSegment: nat)
    requires 0 < perSegment
    ensures if InSegment(m, perSegment) == perSegment
            then m == (Rollovers(m, perSegment) + 1) * perSegment
                 && m / perSegment == Rollovers(m, perSegment) + 1 && m % perSegment == 0
            else m / perSegment == Rollovers(m, perSegment) && m % perSegment == InSegment(m, perSegment)
  {
    if m == 0 {
      DivisionIs(0, perSegment, 0, 0);
    } else {
      var q, r := (m - 1) / perSegment, (m - 1) % perSegment;
      assert m - 1 == q * perSegment + r;
      Distribute(perSegment, q, 1);
      if r + 1 == perSegment {
        DivisionIs(m, perSegment, q + 1, 0);
      } else {
        DivisionIs(m, perSegment, q, r + 1);
      }
    }
  }

  /** When the shard at the cursor has filled its `r`-th segment, the shards before it have opened `r` more
      segments each, and it and those behind it one less. */
  lemma {:induction false} RolloversSum(total: nat, shards: nat, perSegment: nat, r: nat, n: nat)
    requires 0 < shards && n <= shards && 0 < perSegment && 0 < r && total / shards == r * perSegment
    ensures var k := total % shards;
      RolloversBelow(total, shards, perSegment, n) == if n <= k then n * r else k * r + (n - k) * (r - 1)
  {
    if n > 0 {
      var k, j := total % shards, n - 1;
      RolloversSum(total, shards, perSegment, r, n - 1);
      BlocksOfRound(total, shards, j);
      Distribute(perSegment, r - 1, 1);
      DivisionIs(r * perSegment, perSegment, r, 0);
      DivisionIs(r * perSegment - 1, perSegment, r - 1, perSegment - 1);
      Distribute(r, j, 1);
      Distribute(r - 1, n - 1 - k, 1);
    }
  }

  /** ... so the segment that it opens next is the one after its last in its own series. */
  lemma NextSegmentOfShard(total: nat, shards: nat, perSegment: nat, r: nat)
    requires 0 < shards && 0 < perSegment && 0 < r && total / shards == r * perSegment
    ensures shards + RolloversBelow(total, shards, perSegment, shards) == r * shards + total % shards
  {
    var k := total % shards;
    RolloversSum(total, shards, perSegment, r, shards);
    Distribute(r - 1, k, shards - k);
    Distribute(k, r - 1, 1);
    Distribute(shards, r - 1, 1);
  }

  lemma FullExactly(blocks: nat, block: nat, perSegment: nat)
    requires blocks <= perSegment && 0 < block
    ensures blocks * block + block > perSegment * block <==> blocks == perSegment
  {
    assert perSegment * block == blocks * block + (perSegment - blocks) * block;
    if blocks < perSegment {
      assert (perSegment - blocks) * block == block + (perSegment - blocks - 1) * block;
    }
  }

  lemma AfterOne(a: Allocator, total: nat, g: Geometry, perSegment: nat)
    requires g.Valid() && 0 < perSegment && g.segment == perSegment * g.block
    requires FilledTo(a, total, g.shards, g.block, perSegment)
    ensures FilledTo(AllocateOne(a, g).0, total + 1, g.shards, g.block, perSegment)
    ensures AllocateOne(a, g).1 == SlotAt(total, g.shards, g.block, perSegment)
  {
    var k := a.cursor;
    var blocks := BlocksOf(total, g.shards, k);
    var (after, slot) := AllocateOne(a, g);
    BlocksOfRound(total, g.shards, k);
    InSegmentNext(blocks, perSegment);
    FullExactly(InSegment(blocks, perSegment), g.block, perSegment);
    RolloversBelowNext(total, g.shards, perSegment, g.shards);
    BlocksOfNext(total, g.shards, k);
    NextPlace(blocks, perSegment);
    Successor(InSegment(blocks, perSegment), g.block);
    if InSegment(blocks, perSegment) == perSegment {
      NextSegmentOfShard(total, g.shards, perSegment, Rollovers(blocks, perSegment) + 1);
    }
    assert after.marks[k] == MarkOf(BlocksOf(total + 1, g.shards, k), g.shards, g.block, perSegment, k);
    forall j | 0 <= j < g.shards && j != k
      ensures after.marks[j] == MarkOf(BlocksOf(total + 1, g.shards, j), g.shards, g.block, perSegment, j)
    {
      BlocksOfNext(total, g.shards, j);
    }
  }

  lemma Successor(n: nat, size: nat)
    ensures (n + 1) * size == n * size + size && 1 * size == size
  {
  }

  lemma {:induction false} AfterMany(a: Allocator, total: nat, g: Geometry, perSegment: nat, n: nat, sum: nat)
    requires g.Valid() && 0 < perSegment && g.segment == perSegment * g.block
    requires FilledTo(a, total, g.shards, g.block, perSegment) && sum == total + n
    ensures Wellformed(a) && FilledTo(Allocate(a, g, n).0, sum, g.shards, g.block, perSegment)
    ensures SlotsFrom(Allocate(a, g, n).1, total, g.shards, g.block, perSegment)
  {
    if n > 0 {
      AfterMany(a, total, g, perSegment, n - 1, sum - 1);
      AfterOne(Allocate(a, g, n - 1).0, sum - 1, g, perSegment);
    } else {
      assert sum == total;
    }
  }

  /* ---- the rows of a fresh store ---- */

  /** What the rows say once `total` blocks were allocated. */
  ghost predicate RowsAfter(md: Metadata, total: nat, shards: nat, block: nat, perSegment: nat)
    requires 0 < shards && 0 < perSegment
  {
    && NextSegment in md
    && md[NextSegment] == shards + RolloversBelow(total, shards, perSegment, shards)
    && ShardCursor in md && md[ShardCursor] == total % shards
    && forall k: nat :: k < shards ==>
         && ShardSegment(k) in md && ShardOffset(k) in md
         && Mark(md[ShardSegment(k)], md[ShardOffset(k)]) == MarkOf(BlocksOf(total, shards, k), shards, block, perSegment, k)
  }

  lemma {:induction false} NothingYet(shards: nat, perSegment: nat, n: nat)
    requires 0 < shards && n <= shards && 0 < perSegment
    ensures RolloversBelow(0, shards, perSegment, n) == 0
    ensures forall k :: 0 <= k < n ==> BlocksOf(0, shards, k) == 0
  {
    if n > 0 {
      NothingYet(shards, perSegment, n - 1);
      DivisionIs(shards - n, shards, 0, shards - n);
    }
  }

  lemma {:induction false} FreshMarks(md: Metadata, n: nat)
    requires Plain(md)
    ensures var (marks, next) := MarksOf(md, Mark(0, 0), 1, n);
      && next == Max(n, 1)
      && forall k :: 0 <= k < n ==> marks[k] == Mark(k, 0)
  {
    if n > 0 {
      FreshMarks(md, n - 1);
    }
  }

  /** No row of an allocator: neither shards, nor a single stream, nor what goes with the shards. */
  ghost predicate Plain(md: Metadata) {
    && !HasLegacyRows(md) && NextSegment !in md && ShardCursor !in md
    && (forall k: nat :: ShardSegment(k) !in md && ShardOffset(k) !in md)
  }

  lemma FreshOpen(md: Metadata, shards: nat, block: nat, perSegment: nat)
    requires 0 < shards && 0 < perSegment && Plain(md)
    ensures FilledTo(Open(md, map[], shards), 0, shards, block, perSegment)
  {
    var index: Index := map[];
    assert Segments(index) == {};
    AboveUnique({0}, 1);
    assert FirstFree(md, index) == 1;
    FreshMarks(md, shards);
    NothingYet(shards, perSegment, shards);
    DivisionIs(0, shards, 0, 0);
  }

  ghost predicate RowsOf(md: Metadata, was: Metadata, a: Allocator, g: Geometry, total: nat, perSegment: nat)
    requires 0 < g.shards && 0 < perSegment
  {
    && MetaValid(md) && HasShards(md) && AllocatorValid(a, was) && Persisted(md, was, a)
    && |a.marks| == g.shards && FilledTo(a, total, g.shards, g.block, perSegment)
  }

  lemma RowsOfAllocator(md: Metadata, was: Metadata, a: Allocator, g: Geometry, total: nat, perSegment: nat)
    requires 0 < g.shards && 0 < perSegment
    requires Persisted(md, was, a) && FilledTo(a, total, g.shards, g.block, perSegment)
    ensures RowsAfter(md, total, g.shards, g.block, perSegment)
  {
    forall k: nat | k < g.shards
      ensures ShardSegment(k) in md && ShardOffset(k) in md
      ensures Mark(md[ShardSegment(k)], md[ShardOffset(k)]) == MarkOf(BlocksOf(total, g.shards, k), g.shards, g.block, perSegment, k)
    {
      assert md[ShardOffset(k)] == a.marks[k].offset;
    }
  }

  /** The metadata of a store that was fresh, once `total` blocks were allocated. */
  ghost predicate Reached(md: Metadata, g: Geometry, total: nat, perSegment: nat)
    requires 0 < g.shards && 0 < perSegment
  {
    if total == 0 then Plain(md)
    else exists was: Metadata, a: Allocator :: RowsOf(md, was, a, g, total, perSegment)
  }

  lemma ReachedRows(md: Metadata, g: Geometry, total: nat, perSegment: nat)
    requires 0 < g.shards && 0 < perSegment && 0 < total && Reached(md, g, total, perSegment)
    ensures MetaValid(md) && RowsAfter(md, total, g.shards, g.block, perSegment)
  {
    var was: Metadata, a: Allocator :| RowsOf(md, was, a, g, total, perSegment);
    RowsOfAllocator(md, was, a, g, total, perSegment);
  }

  /** One more allocation, of `n` blocks: it goes on where the last one ended. */
  lemma ReachedNext(md: Metadata, index: Index, n: nat, g: Geometry, total: nat, perSegment: nat, sum: nat)
    requires g.Valid() && 0 < perSegment && g.segment == perSegment * g.block
    requires MetaValid(md) && Reached(md, g, total, perSegment) && (total == 0 ==> index == map[]) && sum == total + n
    ensures Reached(AllocateMeta(md, index, g, n), g, sum, perSegment)
    ensures SlotsFrom(Allocate(Open(md, index, g.shards), g, n).1, total, g.shards, g.block, perSegment)
  {
    if n > 0 {
      var a := Open(md, index, g.shards);
      OpensAfter(md, index, g, total, perSegment);
      OpenValid(md, index, g.shards);
      AfterMany(a, total, g, perSegment, n, sum);
      ReachedPersist(md, a, g, n, perSegment, sum);
    }
  }

  lemma ReachedPersist(md: Metadata, a: Allocator, g: Geometry, n: nat, perSegment: nat, sum: nat)
    requires g.Valid() && 0 < perSegment && 0 < n && 0 < sum
    requires MetaValid(md) && AllocatorValid(a, md) && |a.marks| == g.shards
    requires FilledTo(Allocate(a, g, n).0, sum, g.shards, g.block, perSegment)
    ensures Reached(Persist(md, Allocate(a, g, n).0), g, sum, perSegment)
  {
    var after := Allocate(a, g, n).0;
    AllocateValid(a, g, md, n);
    PersistRows(md, after);
    PersistedValid(Persist(md, after), md, after);
    assert RowsOf(Persist(md, after), md, after, g, sum, perSegment);
  }

  lemma OpensAfter(md: Metadata, index: Index, g: Geometry, total: nat, perSegment: nat)
    requires 0 < g.shards && 0 < perSegment
    requires Reached(md, g, total, perSegment) && (total == 0 ==> index == map[])
    ensures FilledTo(Open(md, index, g.shards), total, g.shards, g.block, perSegment)
  {
    if total == 0 {
      FreshOpen(md, g.shards, g.block, perSegment);
    } else {
      var was: Metadata, a: Allocator :| RowsOf(md, was, a, g, total, perSegment);
      PersistedOpens(md, was, a, index);
    }
  }

  /* ---- counting a shard's blocks ---- */

  /** The shard that a slot lies on: the segments of a fresh store belong to the shards in turn. */
  function ShardOf(slot: Location, shards: nat): nat
    requires 0 < shards
  {
    slot.segment % shards
  }

  function CountOn(slots: seq<Location>, shards: nat, k: nat): nat
    requires 0 < shards
  {
    if slots == [] then 0
    else CountOn(slots[..|slots| - 1], shards, k) + (if ShardOf(slots[|slots| - 1], shards) == k then 1 else 0)
  }

  /** The slots are the first ones of a fresh store. */
  ghost predicate FreshSlots(slots: seq<Location>, shards: nat, block: nat, perSegment: nat)
    requires 0 < shards && 0 < perSegment
  {
    forall i: nat :: i < |slots| ==> slots[i] == SlotAt(i, shards, block, perSegment)
  }

  lemma SlotOnShard(i: nat, shards: nat, block: nat, perSegment: nat)
    requires 0 < shards && 0 < perSegment
    ensures ShardOf(SlotAt(i, shards, block, perSegment), shards) == i % shards
  {
    var q, r, k := i / shards / perSegment, i / shards % perSegment, i % shards;
    NumberOfSlot(i, shards, perSegment);
    SlotOfNumber(q, r, k, shards, block, perSegment);
    DivisionIs(q * shards + k, shards, q, k);
  }

  /** Of `n` slots, shard `k` has `(n + shards - 1 - k) / shards`. */
  lemma {:induction false} CountIs(slots: seq<Location>, shards: nat, block: nat, perSegment: nat, k: nat)
    requires k < shards && 0 < perSegment && FreshSlots(slots, shards, block, perSegment)
    ensures CountOn(slots, shards, k) == BlocksOf(|slots|, shards, k)
  {
    if slots == [] {
      DivisionIs(shards - 1 - k, shards, 0, shards - 1 - k);
    } else {
      var n := |slots| - 1;
      CountIs(slots[..n], shards, block, perSegment, k);
      SlotOnShard(n, shards, block, perSegment);
      BlocksOfNext(n, shards, k);
    }
  }

  /** Two shards never differ by more than one slot. */
  lemma CountsBalanced(slots: seq<Location>, shards: nat, block: nat, perSegment: nat, j: nat, k: nat)
    requires j < shards && k < shards && 0 < perSegment && FreshSlots(slots, shards, block, perSegment)
    ensures CountOn(slots, shards, j) <= CountOn(slots, shards, k) + 1
  {
    CountIs(slots, shards, block, perSegment, j);
    CountIs(slots, shards, block, perSegment, k);
    BlocksOfRound(|slots|, shards, j);
    BlocksOfRound(|slots|, shards, k);
  }

  /** The number of the slot at place `p` of the `q`-th segment of shard `k`. */
  function NumberOf(q: nat, p: nat, k: nat, shards: nat, perSegment: nat): nat {
    (q * perSegment + p) * shards + k
  }

  lemma SlotOfNumber(q: nat, p: nat, k: nat, shards: nat, block: nat, perSegment: nat)
    requires p < perSegment && k < shards
    ensures SlotAt(NumberOf(q, p, k, shards, perSegment), shards, block, perSegment) == Location(q * shards + k, p * block, block)
  {
    DivisionIs(NumberOf(q, p, k, shards, perSegment), shards, q * perSegment + p, k);
    DivisionIs(q * perSegment + p, perSegment, q, p);
  }

  lemma NumberOfSlot(i: nat, shards: nat, perSegment: nat)
    requires 0 < shards && 0 < perSegment
    ensures i == NumberOf(i / shards / perSegment, i / shards % perSegment, i % shards, shards, perSegment)
  {
    assert i / shards == i / shards / perSegment * perSegment + i / shards % perSegment;
  }

  lemma NumbersGrow(q: nat, p: nat, q': nat, p': nat, k: nat, shards: nat, perSegment: nat)
    requires q < q' && p < perSegment && 0 < shards
    ensures NumberOf(q, p, k, shards, perSegment) < NumberOf(q', p', k, shards, perSegment)
  {
    Times(q', q + 1, perSegment);
    Distribute(perSegment, q, 1);
    var a, b := q * perSegment + p, q' * perSegment + p';
    Times(b, a + 1, shards);
    Distribute(shards, a, 1);
  }

  /** The slot at any place of the shard's segment before comes before. */
  lemma EarlierSlot(i: nat, p: nat, shards: nat, block: nat, perSegment: nat) returns (j: nat)
    requires 0 < shards && 0 < perSegment && p < perSegment
    requires SlotAt(i, shards, block, perSegment).segment >= shards
    ensures j < i
    ensures SlotAt(j, shards, block, perSegment).segment + shards == SlotAt(i, shards, block, perSegment).segment
    ensures SlotAt(j, shards, block, perSegment).offset == p * block && SlotAt(j, shards, block, perSegment).length == block
  {
    var q, r, k := i / shards / perSegment, i / shards % perSegment, i % shards;
    NumberOfSlot(i, shards, perSegment);
    SlotOfNumber(q, r, k, shards, block, perSegment);
    assert q == 0 ==> q * shards == 0;
    j := NumberOf(q - 1, p, k, shards, perSegment);
    SlotOfNumber(q - 1, p, k, shards, block, perSegment);
    NumbersGrow(q - 1, p, q, r, k, shards, perSegment);
    Distribute(shards, q - 1, 1);
  }

  /** A segment is full, place by place, before its shard opens another. */
  lemma FullBeforeNext(slots: seq<Location>, shards: nat, block: nat, perSegment: nat, i: nat, p: nat)
    requires 0 < shards && 0 < perSegment && FreshSlots(slots, shards, block, perSegment)
    requires i < |slots| && slots[i].segment >= shards && p < perSegment
    ensures Location(slots[i].segment - shards, p * block, block) in slots[..i]
  {
    var j := EarlierSlot(i, p, shards, block, perSegment);
    assert slots[..i][j] == SlotAt(j, shards, block, perSegment);
  }
}
