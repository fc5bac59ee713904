/** The store's operations as functions on its four pieces of state: metadata table, block
    table, location cache and segment files. */
module SegmentModel {
  import opened Basics
  import opened Wrappers
  import opened SegmentFiles
  import opened SegmentAllocation

  datatype Store = Store(meta: Metadata, index: Index, cache: Index, files: Files)

  /** A planned write: the key, its slot, and the row of the primary view that it copies. */
  datatype SegmentWrite = SegmentWrite(key: Key, segment: nat, offset: nat, block: nat)

  /* ---- locations ---- */

  function Find(rows: Index, key: Key): Option<Location> {
    if key in rows then Some(rows[key]) else None
  }

  function Locate(s: Store, key: Key): Option<Location> {
    if key in s.cache then Some(s.cache[key]) else Find(s.index, key)
  }

  function Locations(s: Store, keys: seq<Key>): seq<Option<Location>> {
    seq(|keys|, i requires 0 <= i < |keys| => Locate(s, keys[i]))
  }

  /** A lookup caches every row that it had to read from the table. */
  function CacheAfter(s: Store, keys: seq<Key>): Index {
    s.cache + map key | key in keys && key !in s.cache && key in s.index :: s.index[key]
  }

  function GetLocations(s: Store, keys: seq<Key>): (Store, seq<Option<Location>>) {
    (s.(cache := CacheAfter(s, keys)), Locations(s, keys))
  }

  /* ---- planning a store ---- */

  datatype Source = Source(key: Key, block: nat)

  predicate Planned(sources: seq<Source>, key: Key) {
    exists source :: source in sources && source.key == key
  }

  /** The keys to write: the ones without a location, each with its first block. */
  function Unique(keys: seq<Key>, blocks: seq<nat>, found: seq<Option<Location>>): seq<Source>
    requires |keys| == |blocks| == |found|
  {
    if keys == [] then []
    else
      var n := |keys| - 1;
      var before := Unique(keys[..n], blocks[..n], found[..n]);
      if found[n].None? && !Planned(before, keys[n]) then before + [Source(keys[n], blocks[n])] else before
  }

  function Assign(sources: seq<Source>, slots: seq<Location>): seq<SegmentWrite>
    requires |sources| == |slots|
  {
    seq(|sources|, i requires 0 <= i < |sources| =>
      SegmentWrite(sources[i].key, slots[i].segment, slots[i].offset, sources[i].block))
  }

  /** The entries whose slot lies on shard `k`, in order. */
  function Lane(entries: seq<SegmentWrite>, cursor: nat, shards: nat, k: nat): seq<SegmentWrite>
    requires 0 < shards
  {
    if entries == [] then []
    else
      var n := |entries| - 1;
      var before := Lane(entries[..n], cursor, shards, k);
      if (cursor + n) % shards == k then before + [entries[n]] else before
  }

  /** The plan lists the entries shard by shard. */
  function Lanes(entries: seq<SegmentWrite>, cursor: nat, shards: nat, n: nat): seq<SegmentWrite>
    requires 0 < shards
  {
    if n == 0 then [] else Lanes(entries, cursor, shards, n - 1) + Lane(entries, cursor, shards, n - 1)
  }

  /** The slots of a plan in the order in which they were handed out. */
  ghost function NewSlots(s: Store, g: Geometry, n: nat): seq<Location>
    requires 0 < g.shards
  {
    Allocate(Open(s.meta, s.index, g.shards), g, n).1
  }

  ghost function PlanOf(s: Store, g: Geometry, sources: seq<Source>): seq<SegmentWrite>
    requires 0 < g.shards
  {
    var a := Open(s.meta, s.index, g.shards);
    Lanes(Assign(sources, NewSlots(s, g, |sources|)), a.cursor, g.shards, g.shards)
  }

  ghost function PrepareStore(s: Store, g: Geometry, keys: seq<Key>, blocks: seq<nat>): (Store, seq<SegmentWrite>)
    requires 0 < g.shards && |keys| == |blocks|
  {
    var (looked, found) := GetLocations(s, keys);
    var sources := Unique(keys, blocks, found);
    if sources == [] then (looked, [])
    else
      (looked.(meta := AllocateMeta(looked.meta, looked.index, g, |sources|)), PlanOf(looked, g, sources))
  }

  /* ---- publishing and deleting ---- */

  function Slot(e: SegmentWrite, size: nat): Location {
    Location(e.segment, e.offset, size)
  }

  function KeysOf(plan: seq<SegmentWrite>): seq<Key> {
    seq(|plan|, i requires 0 <= i < |plan| => plan[i].key)
  }

  /** Inserts the rows of a plan; a key that is already there keeps its row. */
  function InsertRows(index: Index, plan: seq<SegmentWrite>, size: nat): Index {
    if plan == [] then index
    else
      var n := |plan| - 1;
      var before := InsertRows(index, plan[..n], size);
      if plan[n].key in before then before else before[plan[n].key := Slot(plan[n], size)]
  }

  /** Publishes a plan and caches the rows that are in the table afterwards. */
  function CompleteStore(s: Store, plan: seq<SegmentWrite>, size: nat): Store {
    var published := s.(index := InsertRows(s.index, plan, size));
    GetLocations(published, KeysOf(plan)).0
  }

  function Delete(s: Store, keys: set<Key>): Store {
    s.(index := s.index - keys, cache := s.cache - (keys * s.index.Keys))
  }

  /* ---- lemmas about plans ---- */

  predicate DistinctSources(sources: seq<Source>) {
    forall i, j :: 0 <= i < j < |sources| ==> sources[i].key != sources[j].key
  }

  predicate DistinctKeys(plan: seq<SegmentWrite>) {
    forall i, j :: 0 <= i < j < |plan| ==> plan[i].key != plan[j].key
  }

  /** The first place of a key in a list. */
  function FirstIndex(keys: seq<Key>, key: Key): nat
    requires key in keys
    ensures FirstIndex(keys, key) < |keys| && keys[FirstIndex(keys, key)] == key
    ensures key !in keys[..FirstIndex(keys, key)]
  {
    if keys[0] == key then 0
    else
      assert key in keys[1..];
      var i := FirstIndex(keys[1..], key) + 1;
      assert keys[..i] == [keys[0]] + keys[1..][..i - 1];
      i
  }

  lemma FirstIndexIs(keys: seq<Key>, i: nat)
    requires i < |keys| && keys[i] !in keys[..i]
    ensures FirstIndex(keys, keys[i]) == i
  {
    var j := FirstIndex(keys, keys[i]);
  }

  lemma FirstIndexPrefix(keys: seq<Key>, n: nat, key: Key)
    requires n <= |keys| && key in keys[..n]
    ensures key in keys && FirstIndex(keys, key) == FirstIndex(keys[..n], key)
  {
    var i := FirstIndex(keys[..n], key);
    assert keys[..n][..i] == keys[..i];
    FirstIndexIs(keys, i);
  }

  /** Equal keys were found at equal places. */
  predicate Consistent(keys: seq<Key>, found: seq<Option<Location>>) {
    |keys| == |found| && forall i, j :: 0 <= i < j < |keys| && keys[i] == keys[j] ==> found[i] == found[j]
  }

  lemma {:induction false} UniqueDistinct(keys: seq<Key>, blocks: seq<nat>, found: seq<Option<Location>>)
    requires |keys| == |blocks| == |found|
    ensures DistinctSources(Unique(keys, blocks, found))
  {
    if keys != [] {
      var n := |keys| - 1;
      UniqueDistinct(keys[..n], blocks[..n], found[..n]);
    }
  }

  /** A key is planned exactly when it was asked for and not found. */
  lemma {:induction false} UniquePlans(keys: seq<Key>, blocks: seq<nat>, found: seq<Option<Location>>)
    requires |keys| == |blocks| && Consistent(keys, found)
    ensures forall i :: 0 <= i < |keys| ==> (Planned(Unique(keys, blocks, found), keys[i]) <==> found[i].None?)
    ensures forall source :: source in Unique(keys, blocks, found) ==> source.key in keys
  {
    if keys != [] {
      var n := |keys| - 1;
      UniquePlans(keys[..n], blocks[..n], found[..n]);
      var before, sources := Unique(keys[..n], blocks[..n], found[..n]), Unique(keys, blocks, found);
      forall i | 0 <= i < n ensures Planned(sources, keys[i]) <==> found[i].None? {
        assert Planned(before, keys[..n][i]) <==> found[..n][i].None?;
      }
      if source :| source in before && source.key == keys[n] {
        var i :| 0 <= i < n && keys[..n][i] == keys[n];
        assert Planned(before, keys[..n][i]) <==> found[..n][i].None?;
      }
      assert sources != before ==> Source(keys[n], blocks[n]) in sources;
    }
  }

  /** ... with its first block. */
  lemma {:induction false} UniqueBlocks(keys: seq<Key>, blocks: seq<nat>, found: seq<Option<Location>>, source: Source)
    requires |keys| == |blocks| && Consistent(keys, found)
    requires source in Unique(keys, blocks, found)
    ensures source.key in keys && source.block == blocks[FirstIndex(keys, source.key)]
  {
    var n := |keys| - 1;
    var before := Unique(keys[..n], blocks[..n], found[..n]);
    if source in before {
      UniqueBlocks(keys[..n], blocks[..n], found[..n], source);
      FirstIndexPrefix(keys, n, source.key);
    } else {
      UniquePlans(keys[..n], blocks[..n], found[..n]);
      forall i | 0 <= i < n ensures keys[i] != keys[n] {
        assert Planned(before, keys[..n][i]) <==> found[..n][i].None?;
      }
      FirstIndexIs(keys, n);
    }
  }

  /** Listing the entries shard by shard only reorders them. */
  lemma {:induction false} LanesPermute(entries: seq<SegmentWrite>, cursor: nat, shards: nat)
    requires 0 < shards
    ensures multiset(Lanes(entries, cursor, shards, shards)) == multiset(entries)
    decreases |entries|
  {
    if entries == [] {
      LanesOfNothing(cursor, shards, shards);
    } else {
      var m := |entries| - 1;
      LanesPermute(entries[..m], cursor, shards);
      LanesNext(entries, cursor, shards, shards);
      assert (cursor + m) % shards < shards;
      assert entries == entries[..m] + [entries[m]];
    }
  }

  lemma {:induction false} LanesOfNothing(cursor: nat, shards: nat, n: nat)
    requires 0 < shards
    ensures Lanes([], cursor, shards, n) == []
  {
    if n > 0 {
      LanesOfNothing(cursor, shards, n - 1);
    }
  }

  lemma {:induction false} LanesNext(entries: seq<SegmentWrite>, cursor: nat, shards: nat, n: nat)
    requires 0 < shards && n <= shards && entries != []
    ensures var m := |entries| - 1;
      multiset(Lanes(entries, cursor, shards, n)) == multiset(Lanes(entries[..m], cursor, shards, n))
        + (if (cursor + m) % shards < n then multiset{entries[m]} else multiset{})
    decreases n
  {
    if n > 0 {
      LanesNext(entries, cursor, shards, n - 1);
    }
  }

  ghost predicate SamePlan(a: seq<SegmentWrite>, b: seq<SegmentWrite>) {
    |a| == |b| && forall e :: e in a <==> e in b
  }

  lemma PermutedPlan(a: seq<SegmentWrite>, b: seq<SegmentWrite>)
    requires multiset(a) == multiset(b)
    ensures SamePlan(a, b)
    ensures DistinctKeys(a) ==> DistinctKeys(b)
  {
    assert |a| == |multiset(a)| == |multiset(b)| == |b|;
    forall e ensures e in a <==> e in b {
      assert e in a <==> e in multiset(a);
      assert e in b <==> e in multiset(b);
    }
    if DistinctKeys(a) {
      forall i, j | 0 <= i < j < |b| ensures b[i].key != b[j].key {
        if b[i] == b[j] {
          TwiceInSequence(b, i, j);
          OnceInSequence(a, b[i]);
        }
        assert b[i] in a && b[j] in a;
      }
    }
  }

  lemma TwiceInSequence(b: seq<SegmentWrite>, i: nat, j: nat)
    requires i < j < |b| && b[i] == b[j]
    ensures multiset(b)[b[i]] >= 2
  {
    assert b == b[..j] + b[j..];
    assert b[j..] == [b[j]] + b[j + 1..];
    assert b[..j][i] == b[i];
    assert b[i] in multiset(b[..j]);
  }

  lemma {:induction false} OnceInSequence(a: seq<SegmentWrite>, e: SegmentWrite)
    requires DistinctKeys(a)
    ensures multiset(a)[e] <= 1
  {
    if a != [] {
      var n := |a| - 1;
      OnceInSequence(a[..n], e);
      assert a == a[..n] + [a[n]];
      if a[n] == e {
        assert e !in a[..n];
      }
    }
  }

  /* ---- publishing ---- */

  /** Publishing keeps every row and adds one for every new key. */
  lemma {:induction false} InsertRowsFacts(index: Index, plan: seq<SegmentWrite>, size: nat)
    ensures var after := InsertRows(index, plan, size);
      && (forall key :: key in index ==> key in after && after[key] == index[key])
      && (forall w :: w in plan ==> w.key in after)
      && (forall key :: key in after && key !in index ==>
            exists w :: w in plan && w.key == key && after[key] == Slot(w, size))
  {
    if plan != [] {
      var n := |plan| - 1;
      InsertRowsFacts(index, plan[..n], size);
      var before, after := InsertRows(index, plan[..n], size), InsertRows(index, plan, size);
      forall key | key in after && key !in index
        ensures exists w :: w in plan && w.key == key && after[key] == Slot(w, size)
      {
        if key in before {
          var w :| w in plan[..n] && w.key == key && before[key] == Slot(w, size);
          assert w in plan;
        } else {
          assert plan[n] in plan;
        }
      }
    }
  }

  /* ---- preparing ---- */

  lemma LocationsConsistent(s: Store, keys: seq<Key>)
    ensures Consistent(keys, Locations(s, keys))
  {
  }

  ghost function Sources(s: Store, keys: seq<Key>, blocks: seq<nat>): seq<Source>
    requires |keys| == |blocks|
  {
    Unique(keys, blocks, Locations(s, keys))
  }

  lemma PlanPermutes(s: Store, g: Geometry, sources: seq<Source>)
    requires g.Valid()
    ensures var placed := Assign(sources, NewSlots(s, g, |sources|));
      && SamePlan(placed, PlanOf(s, g, sources))
      && (DistinctKeys(placed) ==> DistinctKeys(PlanOf(s, g, sources)))
  {
    var placed := Assign(sources, NewSlots(s, g, |sources|));
    LanesPermute(placed, Open(s.meta, s.index, g.shards).cursor, g.shards);
    PermutedPlan(placed, PlanOf(s, g, sources));
  }

  /** Every planned write stands for one source in one handed-out slot. */
  lemma PlanMembers(s: Store, g: Geometry, sources: seq<Source>, w: SegmentWrite) returns (i: nat)
    requires g.Valid() && MetaValid(s.meta) && sources != []
    requires w in PlanOf(s, g, sources)
    ensures i < |sources|
    ensures w.key == sources[i].key && w.block == sources[i].block
    ensures Slot(w, g.block) == NewSlots(s, g, |sources|)[i]
  {
    var slots := NewSlots(s, g, |sources|);
    PlanPermutes(s, g, sources);
    i :| 0 <= i < |sources| && Assign(sources, slots)[i] == w;
    AllocationStep(s.meta, s.index, g, |sources|);
    assert slots[i] in slots;
  }

  /** ... every source is planned, once. */
  lemma PlanComplete(s: Store, g: Geometry, sources: seq<Source>)
    requires g.Valid() && DistinctSources(sources)
    ensures DistinctKeys(PlanOf(s, g, sources)) && |PlanOf(s, g, sources)| == |sources|
    ensures forall source :: source in sources ==> exists w :: w in PlanOf(s, g, sources) && w.key == source.key
  {
    var placed := Assign(sources, NewSlots(s, g, |sources|));
    PlanPermutes(s, g, sources);
    forall source | source in sources ensures exists w :: w in PlanOf(s, g, sources) && w.key == source.key {
      var i :| 0 <= i < |sources| && sources[i] == source;
      assert placed[i] in placed && placed[i].key == source.key;
    }
  }

  lemma DisjointAt(ats: seq<Location>, i: nat, j: nat)
    requires PairwiseDisjoint(ats) && i < |ats| && j < |ats| && i != j
    ensures ats[i].Disjoint(ats[j])
  {
    assert i < j || ats[j].Disjoint(ats[i]);
  }

  /** Two planned writes with different keys have disjoint slots. */
  lemma PlanApart(s: Store, g: Geometry, sources: seq<Source>, v: SegmentWrite, w: SegmentWrite)
    requires g.Valid() && MetaValid(s.meta) && sources != []
    requires v in PlanOf(s, g, sources) && w in PlanOf(s, g, sources) && v.key != w.key
    ensures Slot(v, g.block).Disjoint(Slot(w, g.block))
  {
    var i := PlanMembers(s, g, sources, v);
    var j := PlanMembers(s, g, sources, w);
    AllocationStep(s.meta, s.index, g, |sources|);
    DisjointAt(NewSlots(s, g, |sources|), i, j);
  }
}
