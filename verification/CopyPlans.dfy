/** Which sub-block of which CPU block each device block of a transfer goes with. */
module CopyPlans {
  import opened Wrappers
  import opened Divisions

  /** One layer's data of a cache group, and how many bytes of it a block has. */
  datatype Ref = Ref(layer: nat, size: nat)

  /** The device blocks of a transfer, group after group; a group's first block has an absolute logical index. */
  datatype DeviceSpec = DeviceSpec(blocks: seq<int>, sizes: seq<int>, logical: seq<int>)

  datatype Item = Item(layer: nat, device: int, cpu: int, sub: nat, size: nat)

  datatype PlanError = BadFactorOrGroups | NegativeSize | ListTooShort | UnusedBlocks

  /* ---- arithmetic ---- */

  /** How many CPU blocks hold `size` sub-blocks when the first `skip` of the first one are passed over. */
  function Chunks(size: nat, skip: nat, factor: nat): nat
    requires 0 < factor
  {
    if size == 0 then 0 else (size + skip + factor - 1) / factor
  }

  /** ... enough for each of them, and no more. */
  lemma ChunksCover(size: nat, skip: nat, factor: nat, i: nat)
    requires 0 < factor && i < size
    ensures (skip + i) / factor < Chunks(size, skip, factor)
  {
    var all, q := size + skip + factor - 1, (skip + i) / factor;
    assert skip + i == q * factor + (skip + i) % factor;
    assert all == all / factor * factor + all % factor;
    if all / factor <= q {
      Times(q, all / factor, factor);
    }
  }

  /** The chunk, counted from the group's first, and the sub-block of the `i`-th block. */
  function ChunkAt(size: nat, skip: nat, factor: nat, i: nat): (c: nat)
    requires 0 < factor && i < size
    ensures c < Chunks(size, skip, factor)
  {
    ChunksCover(size, skip, factor, i);
    (skip + i) / factor
  }

  function SubAt(skip: nat, factor: nat, i: nat): (s: nat)
    requires 0 < factor
    ensures s < factor
  {
    (skip + i) % factor
  }

  lemma ChunksUsed(size: nat, skip: nat, factor: nat, c: nat) returns (i: nat)
    requires skip < factor && c < Chunks(size, skip, factor)
    ensures i < size && ChunkAt(size, skip, factor, i) == c
  {
    if c == 0 {
      i := 0;
      DivisionIs(skip, factor, 0, skip);
    } else {
      var all := size + skip + factor - 1;
      assert all == all / factor * factor + all % factor;
      Times(all / factor, c + 1, factor);
      Times(c, 1, factor);
      assert (c + 1) * factor == c * factor + factor;
      i := c * factor - skip;
      DivisionIs(skip + i, factor, c, 0);
    }
  }

  /** An absolute logical block always goes to the same chunk and sub-block, wherever a transfer starts. */
  lemma LogicalAddress(start: nat, i: nat, factor: nat)
    requires 0 < factor
    ensures (start % factor + i) / factor == (start + i) / factor - start / factor
    ensures (start % factor + i) % factor == (start + i) % factor
  {
    var L := start + i;
    var q, r := L / factor, L % factor;
    var c := start / factor;
    assert start == c * factor + start % factor;
    assert L == q * factor + r;
    if q < c {
      assert (q + 1) * factor == q * factor + factor;
      Times(c, q + 1, factor);
    }
    assert (q - c) * factor == q * factor - c * factor;
    DivisionIs(start % factor + i, factor, q - c, r);
  }

  lemma SubApart(size: nat, skip: nat, factor: nat, i: nat, j: nat)
    requires 0 < factor && i < size && j < size && i != j
    ensures ChunkAt(size, skip, factor, i) != ChunkAt(size, skip, factor, j) || SubAt(skip, factor, i) != SubAt(skip, factor, j)
  {
    var a, b := skip + i, skip + j;
    assert a == a / factor * factor + a % factor;
    assert b == b / factor * factor + b % factor;
  }

  /* ---- the groups of a transfer ---- */

  function DeviceOffset(spec: DeviceSpec, g: nat): int
    requires g <= |spec.sizes|
  {
    if g == 0 then 0 else DeviceOffset(spec, g - 1) + spec.sizes[g - 1]
  }

  predicate Counted(spec: DeviceSpec, n: nat) {
    && n <= |spec.sizes| && n <= |spec.logical|
    && forall g :: 0 <= g < n ==> spec.sizes[g] >= 0 && spec.logical[g] >= 0
  }

  function ChunksOf(spec: DeviceSpec, g: nat, factor: nat): nat
    requires 0 < factor && Counted(spec, g + 1)
  {
    Chunks(spec.sizes[g], spec.logical[g] % factor, factor)
  }

  function CpuOffset(spec: DeviceSpec, g: nat, factor: nat): nat
    requires 0 < factor && Counted(spec, g)
  {
    if g == 0 then 0 else CpuOffset(spec, g - 1, factor) + ChunksOf(spec, g - 1, factor)
  }

  /** The transfers that have a plan: every listed block belongs to a group, and every group has its blocks. */
  predicate Plannable(spec: DeviceSpec, cpu: seq<int>, refs: seq<seq<Ref>>, factor: int) {
    && 0 < factor && |spec.sizes| == |refs| == |spec.logical|
    && Counted(spec, |refs|)
    && DeviceOffset(spec, |refs|) == |spec.blocks|
    && CpuOffset(spec, |refs|, factor) == |cpu|
  }

  lemma {:induction false} OffsetsGrow(spec: DeviceSpec, g: nat, h: nat, factor: nat)
    requires 0 < factor && g <= h && Counted(spec, h)
    ensures 0 <= DeviceOffset(spec, g) <= DeviceOffset(spec, h)
    ensures CpuOffset(spec, g, factor) <= CpuOffset(spec, h, factor)
    decreases h
  {
    if g < h {
      OffsetsGrow(spec, g, h - 1, factor);
    } else if h > 0 {
      OffsetsGrow(spec, h - 1, h - 1, factor);
    }
  }

  predicate Fits(spec: DeviceSpec, cpu: seq<int>, g: nat, factor: nat) {
    && 0 < factor && Counted(spec, g + 1) && 0 <= DeviceOffset(spec, g)
    && DeviceOffset(spec, g + 1) <= |spec.blocks| && CpuOffset(spec, g + 1, factor) <= |cpu|
  }

  lemma PlannableFits(spec: DeviceSpec, cpu: seq<int>, refs: seq<seq<Ref>>, factor: int, g: nat)
    requires Plannable(spec, cpu, refs, factor) && g < |refs|
    ensures Fits(spec, cpu, g, factor)
  {
    OffsetsGrow(spec, g, g + 1, factor);
    OffsetsGrow(spec, g + 1, |refs|, factor);
  }

  /** The `i`-th block of a group, for one of its layers. */
  function ItemAt(spec: DeviceSpec, cpu: seq<int>, ref: Ref, g: nat, i: nat, factor: nat): Item
    requires Fits(spec, cpu, g, factor) && i < spec.sizes[g]
  {
    var skip := spec.logical[g] % factor;
    Item(ref.layer, spec.blocks[DeviceOffset(spec, g) + i],
         cpu[CpuOffset(spec, g, factor) + ChunkAt(spec.sizes[g], skip, factor, i)], SubAt(skip, factor, i), ref.size)
  }

  function RefItems(spec: DeviceSpec, cpu: seq<int>, ref: Ref, g: nat, n: nat, factor: nat): seq<Item>
    requires Fits(spec, cpu, g, factor) && n <= spec.sizes[g]
  {
    if n == 0 then [] else RefItems(spec, cpu, ref, g, n - 1, factor) + [ItemAt(spec, cpu, ref, g, n - 1, factor)]
  }

  function GroupItems(spec: DeviceSpec, cpu: seq<int>, refs: seq<Ref>, g: nat, factor: nat): seq<Item>
    requires Fits(spec, cpu, g, factor)
  {
    if refs == [] then []
    else
      GroupItems(spec, cpu, refs[..|refs| - 1], g, factor)
      + RefItems(spec, cpu, refs[|refs| - 1], g, spec.sizes[g], factor)
  }

  /** The plan of the first `n` groups. */
  function PlanItems(spec: DeviceSpec, cpu: seq<int>, refs: seq<seq<Ref>>, n: nat, factor: nat): seq<Item>
    requires n <= |refs| && forall g: nat :: g < n ==> Fits(spec, cpu, g, factor)
  {
    if n == 0 then []
    else PlanItems(spec, cpu, refs, n - 1, factor) + GroupItems(spec, cpu, refs[n - 1], n - 1, factor)
  }

  function Plan(spec: DeviceSpec, cpu: seq<int>, refs: seq<seq<Ref>>, factor: int): seq<Item>
    requires Plannable(spec, cpu, refs, factor)
  {
    assert forall g: nat :: g < |refs| ==> Fits(spec, cpu, g, factor) by {
      forall g: nat | g < |refs| ensures Fits(spec, cpu, g, factor) {
        PlannableFits(spec, cpu, refs, factor, g);
      }
    }
    PlanItems(spec, cpu, refs, |refs|, factor)
  }

  /* ---- what is in a plan ---- */

  predicate InRef(spec: DeviceSpec, cpu: seq<int>, ref: Ref, g: nat, n: nat, factor: nat, item: Item)
    requires Fits(spec, cpu, g, factor) && n <= spec.sizes[g]
  {
    exists i: nat :: i < n && item == ItemAt(spec, cpu, ref, g, i, factor)
  }

  lemma {:induction false} RefMembers(spec: DeviceSpec, cpu: seq<int>, ref: Ref, g: nat, n: nat, factor: nat, item: Item)
    requires Fits(spec, cpu, g, factor) && n <= spec.sizes[g]
    ensures item in RefItems(spec, cpu, ref, g, n, factor) <==> InRef(spec, cpu, ref, g, n, factor, item)
  {
    if n > 0 {
      RefMembers(spec, cpu, ref, g, n - 1, factor, item);
      assert item == ItemAt(spec, cpu, ref, g, n - 1, factor) ==> InRef(spec, cpu, ref, g, n, factor, item);
    }
  }

  predicate InGroup(spec: DeviceSpec, cpu: seq<int>, refs: seq<Ref>, g: nat, factor: nat, item: Item)
    requires Fits(spec, cpu, g, factor)
  {
    exists ref :: ref in refs && InRef(spec, cpu, ref, g, spec.sizes[g], factor, item)
  }

  lemma {:induction false} GroupMembers(spec: DeviceSpec, cpu: seq<int>, refs: seq<Ref>, g: nat, factor: nat, item: Item)
    requires Fits(spec, cpu, g, factor)
    ensures item in GroupItems(spec, cpu, refs, g, factor) <==> InGroup(spec, cpu, refs, g, factor, item)
  {
    if refs != [] {
      var n := |refs| - 1;
      GroupMembers(spec, cpu, refs[..n], g, factor, item);
      RefMembers(spec, cpu, refs[n], g, spec.sizes[g], factor, item);
      if InRef(spec, cpu, refs[n], g, spec.sizes[g], factor, item) {
        assert refs[n] in refs;
      }
      if ref :| ref in refs[..n] && InRef(spec, cpu, ref, g, spec.sizes[g], factor, item) {
        assert ref in refs;
      }
    }
  }

  ghost predicate InPlan(spec: DeviceSpec, cpu: seq<int>, refs: seq<seq<Ref>>, n: nat, factor: nat, item: Item)
    requires n <= |refs| && forall g: nat :: g < n ==> Fits(spec, cpu, g, factor)
  {
    exists g: nat :: g < n && InGroup(spec, cpu, refs[g], g, factor, item)
  }

  lemma {:induction false} PlanMembers(spec: DeviceSpec, cpu: seq<int>, refs: seq<seq<Ref>>, n: nat, factor: nat, item: Item)
    requires n <= |refs| && forall g: nat :: g < n ==> Fits(spec, cpu, g, factor)
    ensures item in PlanItems(spec, cpu, refs, n, factor) <==> InPlan(spec, cpu, refs, n, factor, item)
  {
    if n > 0 {
      PlanMembers(spec, cpu, refs, n - 1, factor, item);
      GroupMembers(spec, cpu, refs[n - 1], n - 1, factor, item);
    }
  }

  /** Every device block of a group is used, if the group has a layer at all. */
  lemma DeviceBlockUsed(spec: DeviceSpec, cpu: seq<int>, refs: seq<seq<Ref>>, factor: int, g: nat, i: nat)
    requires Plannable(spec, cpu, refs, factor) && g < |refs| && refs[g] != [] && i < spec.sizes[g]
    ensures 0 <= DeviceOffset(spec, g) + i < |spec.blocks|
    ensures exists item :: item in Plan(spec, cpu, refs, factor) && item.device == spec.blocks[DeviceOffset(spec, g) + i]
  {
    PlanHas(spec, cpu, refs, factor, g, refs[g][0], i);
  }

  /** ... and so is every CPU block of it. */
  lemma CpuBlockUsed(spec: DeviceSpec, cpu: seq<int>, refs: seq<seq<Ref>>, factor: int, g: nat, c: nat)
    requires Plannable(spec, cpu, refs, factor) && g < |refs| && refs[g] != []
    requires Counted(spec, g + 1) && c < ChunksOf(spec, g, factor)
    ensures CpuOffset(spec, g, factor) + c < |cpu|
    ensures exists item :: item in Plan(spec, cpu, refs, factor) && item.cpu == cpu[CpuOffset(spec, g, factor) + c]
  {
    PlannableFits(spec, cpu, refs, factor, g);
    var i := ChunksUsed(spec.sizes[g], spec.logical[g] % factor, factor, c);
    PlanHas(spec, cpu, refs, factor, g, refs[g][0], i);
  }

  lemma PlanHas(spec: DeviceSpec, cpu: seq<int>, refs: seq<seq<Ref>>, factor: int, g: nat, ref: Ref, i: nat)
    requires Plannable(spec, cpu, refs, factor) && g < |refs| && ref in refs[g] && i < spec.sizes[g]
    ensures Fits(spec, cpu, g, factor) && ItemAt(spec, cpu, ref, g, i, factor) in Plan(spec, cpu, refs, factor)
  {
    PlannableFits(spec, cpu, refs, factor, g);
    var item := ItemAt(spec, cpu, ref, g, i, factor);
    assert InRef(spec, cpu, ref, g, spec.sizes[g], factor, item);
    assert InGroup(spec, cpu, refs[g], g, factor, item);
    forall h: nat | h < |refs| ensures Fits(spec, cpu, h, factor) {
      PlannableFits(spec, cpu, refs, factor, h);
    }
    PlanMembers(spec, cpu, refs, |refs|, factor, item);
  }

  /* ---- how many bytes ---- */

  function Bytes(items: seq<Item>): nat {
    if items == [] then 0 else Bytes(items[..|items| - 1]) + items[|items| - 1].size
  }

  function RefBytes(refs: seq<Ref>): nat {
    if refs == [] then 0 else RefBytes(refs[..|refs| - 1]) + refs[|refs| - 1].size
  }

  function TotalBytes(spec: DeviceSpec, refs: seq<seq<Ref>>, n: nat): int
    requires n <= |refs| && n <= |spec.sizes|
  {
    if n == 0 then 0 else TotalBytes(spec, refs, n - 1) + spec.sizes[n - 1] * RefBytes(refs[n - 1])
  }

  lemma {:induction false} BytesAppend(a: seq<Item>, b: seq<Item>)
    ensures Bytes(a + b) == Bytes(a) + Bytes(b)
  {
    if b == [] {
      assert a + b == a;
    } else {
      BytesAppend(a, b[..|b| - 1]);
      assert (a + b)[..|a + b| - 1] == a + b[..|b| - 1];
    }
  }

  lemma {:induction false} RefItemsBytes(spec: DeviceSpec, cpu: seq<int>, ref: Ref, g: nat, n: nat, factor: nat)
    requires Fits(spec, cpu, g, factor) && n <= spec.sizes[g]
    ensures Bytes(RefItems(spec, cpu, ref, g, n, factor)) == n * ref.size
  {
    if n > 0 {
      RefItemsBytes(spec, cpu, ref, g, n - 1, factor);
      var before, last := RefItems(spec, cpu, ref, g, n - 1, factor), ItemAt(spec, cpu, ref, g, n - 1, factor);
      assert (before + [last])[..|before|] == before;
      Distribute(ref.size, n - 1, 1);
    }
  }

  lemma {:induction false} GroupItemsBytes(spec: DeviceSpec, cpu: seq<int>, refs: seq<Ref>, g: nat, factor: nat)
    requires Fits(spec, cpu, g, factor)
    ensures Bytes(GroupItems(spec, cpu, refs, g, factor)) == spec.sizes[g] * RefBytes(refs)
  {
    if refs != [] {
      var n := |refs| - 1;
      GroupItemsBytes(spec, cpu, refs[..n], g, factor);
      RefItemsBytes(spec, cpu, refs[n], g, spec.sizes[g], factor);
      BytesAppend(GroupItems(spec, cpu, refs[..n], g, factor), RefItems(spec, cpu, refs[n], g, spec.sizes[g], factor));
      Distribute(spec.sizes[g], RefBytes(refs[..n]), refs[n].size);
    }
  }

  /** A transfer moves, for each group, its number of blocks times the bytes of its layers. */
  lemma {:induction false} PlanBytes(spec: DeviceSpec, cpu: seq<int>, refs: seq<seq<Ref>>, n: nat, factor: nat)
    requires n <= |refs| && n <= |spec.sizes| && forall g: nat :: g < n ==> Fits(spec, cpu, g, factor)
    ensures Bytes(PlanItems(spec, cpu, refs, n, factor)) == TotalBytes(spec, refs, n)
  {
    if n > 0 {
      PlanBytes(spec, cpu, refs, n - 1, factor);
      GroupItemsBytes(spec, cpu, refs[n - 1], n - 1, factor);
      BytesAppend(PlanItems(spec, cpu, refs, n - 1, factor), GroupItems(spec, cpu, refs[n - 1], n - 1, factor));
    }
  }

  /* ---- no two items share a sub-block ---- */

  /** Where an item's bytes live on the CPU: an allocation, a block, and a sub-block of it. */
  datatype Slot = Slot(allocation: nat, cpu: int, sub: nat)

  /** `place` names each layer's allocation. */
  function SlotOf(place: seq<nat>, item: Item): Slot {
    Slot(if item.layer < |place| then place[item.layer] else 0, item.cpu, item.sub)
  }

  predicate Apart(place: seq<nat>, items: seq<Item>) {
    forall i, j :: 0 <= i < j < |items| ==> SlotOf(place, items[i]) != SlotOf(place, items[j])
  }

  predicate NoneShared(place: seq<nat>, a: seq<Item>, b: seq<Item>) {
    forall x, y :: x in a && y in b ==> SlotOf(place, x) != SlotOf(place, y)
  }

  lemma AppendApart(place: seq<nat>, a: seq<Item>, b: seq<Item>)
    requires Apart(place, a) && Apart(place, b) && NoneShared(place, a, b)
    ensures Apart(place, a + b)
  {
    forall i, j | 0 <= i < j < |a + b| ensures SlotOf(place, (a + b)[i]) != SlotOf(place, (a + b)[j]) {
      if i < |a| <= j {
        assert (a + b)[i] in a && (a + b)[j] in b;
      }
    }
  }

  predicate DistinctIds(ids: seq<int>) {
    forall i, j :: 0 <= i < j < |ids| ==> ids[i] != ids[j]
  }

  /** The layers of a group have allocations of their own. */
  predicate OwnAllocations(place: seq<nat>, refs: seq<Ref>) {
    && (forall ref :: ref in refs ==> ref.layer < |place|)
    && forall i, j :: 0 <= i < j < |refs| ==> refs[i].layer < |place| && refs[j].layer < |place| && place[refs[i].layer] != place[refs[j].layer]
  }

  lemma ItemsApart(spec: DeviceSpec, cpu: seq<int>, ref: Ref, g: nat, i: nat, j: nat, factor: nat)
    requires Fits(spec, cpu, g, factor) && DistinctIds(cpu) && i < spec.sizes[g] && j < spec.sizes[g] && i != j
    ensures var a, b := ItemAt(spec, cpu, ref, g, i, factor), ItemAt(spec, cpu, ref, g, j, factor); a.cpu != b.cpu || a.sub != b.sub
  {
    var size, skip, base := spec.sizes[g], spec.logical[g] % factor, CpuOffset(spec, g, factor);
    SubApart(size, skip, factor, i, j);
    var p, q := ChunkAt(size, skip, factor, i), ChunkAt(size, skip, factor, j);
    if p != q {
      DistinctAt(cpu, base + p, base + q);
    }
  }

  lemma DistinctAt(ids: seq<int>, p: nat, q: nat)
    requires DistinctIds(ids) && p < |ids| && q < |ids| && p != q
    ensures ids[p] != ids[q]
  {
    assert p < q || q < p;
  }

  lemma {:induction false} RefItemsApart(place: seq<nat>, spec: DeviceSpec, cpu: seq<int>, ref: Ref, g: nat, n: nat, factor: nat)
    requires Fits(spec, cpu, g, factor) && DistinctIds(cpu) && n <= spec.sizes[g]
    ensures Apart(place, RefItems(spec, cpu, ref, g, n, factor))
  {
    if n > 0 {
      var last := ItemAt(spec, cpu, ref, g, n - 1, factor);
      RefItemsApart(place, spec, cpu, ref, g, n - 1, factor);
      forall x | x in RefItems(spec, cpu, ref, g, n - 1, factor) ensures SlotOf(place, x) != SlotOf(place, last) {
        RefMembers(spec, cpu, ref, g, n - 1, factor, x);
        var i: nat :| i < n - 1 && x == ItemAt(spec, cpu, ref, g, i, factor);
        ItemsApart(spec, cpu, ref, g, i, n - 1, factor);
      }
      AppendApart(place, RefItems(spec, cpu, ref, g, n - 1, factor), [last]);
    }
  }

  lemma {:induction false} GroupItemsApart(place: seq<nat>, spec: DeviceSpec, cpu: seq<int>, refs: seq<Ref>, g: nat, factor: nat)
    requires Fits(spec, cpu, g, factor) && DistinctIds(cpu) && OwnAllocations(place, refs)
    ensures Apart(place, GroupItems(spec, cpu, refs, g, factor))
  {
    if refs != [] {
      var n := |refs| - 1;
      var a, b := GroupItems(spec, cpu, refs[..n], g, factor), RefItems(spec, cpu, refs[n], g, spec.sizes[g], factor);
      GroupItemsApart(place, spec, cpu, refs[..n], g, factor);
      RefItemsApart(place, spec, cpu, refs[n], g, spec.sizes[g], factor);
      forall x, y | x in a && y in b ensures SlotOf(place, x) != SlotOf(place, y) {
        GroupMembers(spec, cpu, refs[..n], g, factor, x);
        RefMembers(spec, cpu, refs[n], g, spec.sizes[g], factor, y);
        var ref :| ref in refs[..n] && InRef(spec, cpu, ref, g, spec.sizes[g], factor, x);
        var k :| 0 <= k < n && refs[..n][k] == ref;
        assert place[refs[k].layer] != place[refs[n].layer];
      }
      AppendApart(place, a, b);
    }
  }

  /** A group's items lie in the CPU blocks that are its own. */
  lemma GroupCpuBlocks(spec: DeviceSpec, cpu: seq<int>, refs: seq<Ref>, g: nat, factor: nat, item: Item) returns (k: nat)
    requires Fits(spec, cpu, g, factor) && item in GroupItems(spec, cpu, refs, g, factor)
    ensures CpuOffset(spec, g, factor) <= k < CpuOffset(spec, g + 1, factor) && item.cpu == cpu[k]
  {
    GroupMembers(spec, cpu, refs, g, factor, item);
    var ref :| ref in refs && InRef(spec, cpu, ref, g, spec.sizes[g], factor, item);
    var i: nat :| i < spec.sizes[g] && item == ItemAt(spec, cpu, ref, g, i, factor);
    k := CpuOffset(spec, g, factor) + ChunkAt(spec.sizes[g], spec.logical[g] % factor, factor, i);
  }

  lemma GroupsApart(spec: DeviceSpec, cpu: seq<int>, refs: seq<Ref>, refs': seq<Ref>, g: nat, h: nat, factor: nat, x: Item, y: Item)
    requires g < h && Fits(spec, cpu, g, factor) && Fits(spec, cpu, h, factor) && DistinctIds(cpu)
    requires x in GroupItems(spec, cpu, refs, g, factor) && y in GroupItems(spec, cpu, refs', h, factor)
    ensures x.cpu != y.cpu
  {
    var k := GroupCpuBlocks(spec, cpu, refs, g, factor, x);
    var l := GroupCpuBlocks(spec, cpu, refs', h, factor, y);
    GroupOrder(spec, g, h, factor, k, l);
    DistinctAt(cpu, k, l);
  }

  lemma GroupOrder(spec: DeviceSpec, g: nat, h: nat, factor: nat, k: nat, l: nat)
    requires 0 < factor && g < h && Counted(spec, h)
    requires k < CpuOffset(spec, g + 1, factor) && CpuOffset(spec, h, factor) <= l
    ensures k < l
  {
    OffsetsGrow(spec, g + 1, h, factor);
  }

  lemma {:induction false} PlanItemsApart(place: seq<nat>, spec: DeviceSpec, cpu: seq<int>, refs: seq<seq<Ref>>, n: nat, factor: nat)
    requires n <= |refs| && forall g: nat :: g < n ==> Fits(spec, cpu, g, factor)
    requires DistinctIds(cpu) && forall g :: 0 <= g < |refs| ==> OwnAllocations(place, refs[g])
    ensures Apart(place, PlanItems(spec, cpu, refs, n, factor))
  {
    if n > 0 {
      var a, b := PlanItems(spec, cpu, refs, n - 1, factor), GroupItems(spec, cpu, refs[n - 1], n - 1, factor);
      PlanItemsApart(place, spec, cpu, refs, n - 1, factor);
      GroupItemsApart(place, spec, cpu, refs[n - 1], n - 1, factor);
      forall x, y | x in a && y in b ensures SlotOf(place, x) != SlotOf(place, y) {
        PlanMembers(spec, cpu, refs, n - 1, factor, x);
        var g: nat :| g < n - 1 && InGroup(spec, cpu, refs[g], g, factor, x);
        GroupMembers(spec, cpu, refs[g], g, factor, x);
        GroupsApart(spec, cpu, refs[g], refs[n - 1], g, n - 1, factor, x, y);
      }
      AppendApart(place, a, b);
    }
  }

  /** No two items of a transfer lie in the same sub-block, if its CPU blocks are distinct and the
      layers of each group have allocations of their own. */
  lemma PlanApart(place: seq<nat>, spec: DeviceSpec, cpu: seq<int>, refs: seq<seq<Ref>>, factor: int)
    requires Plannable(spec, cpu, refs, factor) && DistinctIds(cpu)
    requires forall g :: 0 <= g < |refs| ==> OwnAllocations(place, refs[g])
    ensures Apart(place, Plan(spec, cpu, refs, factor))
  {
    forall g: nat | g < |refs| ensures Fits(spec, cpu, g, factor) {
      PlannableFits(spec, cpu, refs, factor, g);
    }
    PlanItemsApart(place, spec, cpu, refs, |refs|, factor);
  }
}
