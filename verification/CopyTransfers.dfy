/** Copying along spans, out to the CPU and back: what was stored is restored, and nothing else changes. */
module CopyTransfers {
  import opened Wrappers
  import opened Divisions
  import opened CopyPlans
  import opened CopySpans

  type Device = map<Row, Data>
  type Cpu = map<CpuBlock, Data>

  /* ---- copying ---- */

  predicate SpanFits(device: Device, cpu: Cpu, span: Span) {
    && span.row in device && |device[span.row]| == span.width
    && span.cpu in cpu && span.offset + span.width <= |cpu[span.cpu]|
  }

  predicate SpansFit(device: Device, cpu: Cpu, spans: seq<Span>) {
    forall span :: span in spans ==> SpanFits(device, cpu, span)
  }

  function Splice(data: Data, offset: nat, piece: Data): Data
    requires offset + |piece| <= |data|
  {
    data[..offset] + piece + data[offset + |piece|..]
  }

  function SliceOf(cpu: Cpu, span: Span): Data
    requires span.cpu in cpu && span.offset + span.width <= |cpu[span.cpu]|
  {
    cpu[span.cpu][span.offset..span.offset + span.width]
  }

  function StoreOne(device: Device, cpu: Cpu, span: Span): Cpu
    requires SpanFits(device, cpu, span)
  {
    cpu[span.cpu := Splice(cpu[span.cpu], span.offset, device[span.row])]
  }

  /** The same blocks of the same sizes. */
  predicate SameShape(cpu: Cpu, cpu': Cpu) {
    cpu'.Keys == cpu.Keys && forall b :: b in cpu ==> |cpu'[b]| == |cpu[b]|
  }

  function Store(device: Device, cpu: Cpu, spans: seq<Span>): (cpu': Cpu)
    requires SpansFit(device, cpu, spans)
    ensures SameShape(cpu, cpu')
  {
    if spans == [] then cpu
    else
      var last := spans[|spans| - 1];
      assert last in spans;
      var before := Store(device, cpu, spans[..|spans| - 1]);
      StoreOne(device, before, last)
  }

  function LoadOne(device: Device, cpu: Cpu, span: Span): Device
    requires SpanFits(device, cpu, span)
  {
    device[span.row := SliceOf(cpu, span)]
  }

  predicate SameRows(device: Device, device': Device) {
    device'.Keys == device.Keys && forall r :: r in device ==> |device'[r]| == |device[r]|
  }

  function Load(device: Device, cpu: Cpu, spans: seq<Span>): (device': Device)
    requires SpansFit(device, cpu, spans)
    ensures SameRows(device, device')
  {
    if spans == [] then device
    else
      var last := spans[|spans| - 1];
      assert last in spans;
      LoadOne(Load(device, cpu, spans[..|spans| - 1]), cpu, last)
  }

  /* ---- storing ---- */

  lemma StoreOneReads(device: Device, cpu: Cpu, span: Span)
    requires SpanFits(device, cpu, span)
    ensures SliceOf(StoreOne(device, cpu, span), span) == device[span.row]
  {
  }

  lemma StoreOneKeeps(device: Device, cpu: Cpu, span: Span, other: Span)
    requires SpanFits(device, cpu, span) && Disjoint(span, other)
    requires other.cpu in cpu && other.offset + other.width <= |cpu[other.cpu]|
    ensures SliceOf(StoreOne(device, cpu, span), other) == SliceOf(cpu, other)
  {
    if other.cpu == span.cpu {
      var a, b := SliceOf(StoreOne(device, cpu, span), other), SliceOf(cpu, other);
      forall i | 0 <= i < other.width ensures a[i] == b[i] {
      }
    }
  }

  /** Bytes that no span of a store covers stay as they were. */
  lemma {:induction false} StoreKeeps(device: Device, cpu: Cpu, spans: seq<Span>, other: Span)
    requires SpansFit(device, cpu, spans) && forall span :: span in spans ==> Disjoint(span, other)
    requires other.cpu in cpu && other.offset + other.width <= |cpu[other.cpu]|
    ensures SliceOf(Store(device, cpu, spans), other) == SliceOf(cpu, other)
  {
    if spans != [] {
      var n := |spans| - 1;
      assert spans[n] in spans;
      StoreKeeps(device, cpu, spans[..n], other);
      StoreOneKeeps(device, Store(device, cpu, spans[..n]), spans[n], other);
    }
  }

  /** After a store whose spans do not overlap, every span holds its row. */
  lemma {:induction false} StoreReads(device: Device, cpu: Cpu, spans: seq<Span>, span: Span)
    requires SpansFit(device, cpu, spans) && AllDisjoint(spans) && span in spans
    ensures SliceOf(Store(device, cpu, spans), span) == device[span.row]
  {
    var n := |spans| - 1;
    assert spans[n] in spans;
    var before := Store(device, cpu, spans[..n]);
    if span == spans[n] {
      StoreOneReads(device, before, span);
    } else {
      assert span in spans[..n];
      StoreReads(device, cpu, spans[..n], span);
      var i :| 0 <= i < n && spans[i] == span;
      assert Disjoint(spans[i], spans[n]);
      StoreOneKeeps(device, before, spans[n], span);
    }
  }

  /* ---- loading ---- */

  predicate RowsDistinct(spans: seq<Span>) {
    forall i, j :: 0 <= i < j < |spans| ==> spans[i].row != spans[j].row
  }

  /** Rows that no span of a load names stay as they were. */
  lemma {:induction false} LoadKeeps(device: Device, cpu: Cpu, spans: seq<Span>, row: Row)
    requires SpansFit(device, cpu, spans) && row in device && forall span :: span in spans ==> span.row != row
    ensures Load(device, cpu, spans)[row] == device[row]
  {
    if spans != [] {
      assert spans[|spans| - 1] in spans;
      LoadKeeps(device, cpu, spans[..|spans| - 1], row);
    }
  }

  /** After a load into distinct rows, every row holds its span. */
  lemma {:induction false} LoadReads(device: Device, cpu: Cpu, spans: seq<Span>, span: Span)
    requires SpansFit(device, cpu, spans) && RowsDistinct(spans) && span in spans
    ensures Load(device, cpu, spans)[span.row] == SliceOf(cpu, span)
  {
    var n := |spans| - 1;
    assert spans[n] in spans;
    if span != spans[n] {
      assert span in spans[..n];
      LoadReads(device, cpu, spans[..n], span);
      var i :| 0 <= i < n && spans[i] == span;
      assert spans[i].row != spans[n].row;
    }
  }

  /* ---- the rows of a load are distinct ---- */

  predicate BlocksApart(items: seq<Item>) {
    forall i, j :: 0 <= i < j < |items| ==> items[i].layer != items[j].layer || items[i].device != items[j].device
  }

  predicate NoBlockShared(a: seq<Item>, b: seq<Item>) {
    forall x, y :: x in a && y in b ==> x.layer != y.layer || x.device != y.device
  }

  lemma AppendBlocksApart(a: seq<Item>, b: seq<Item>)
    requires BlocksApart(a) && BlocksApart(b) && NoBlockShared(a, b)
    ensures BlocksApart(a + b)
  {
    forall i, j | 0 <= i < j < |a + b|
      ensures (a + b)[i].layer != (a + b)[j].layer || (a + b)[i].device != (a + b)[j].device
    {
      if i < |a| <= j {
        assert (a + b)[i] in a && (a + b)[j] in b;
      }
    }
  }

  /** A group's device blocks are distinct. */
  predicate OwnBlocks(spec: DeviceSpec, g: nat) {
    && g < |spec.sizes| && 0 <= DeviceOffset(spec, g) <= DeviceOffset(spec, g + 1) <= |spec.blocks|
    && DistinctIds(spec.blocks[DeviceOffset(spec, g)..DeviceOffset(spec, g + 1)])
  }

  lemma BlockOf(spec: DeviceSpec, cpu: seq<int>, ref: Ref, g: nat, i: nat, factor: nat)
    requires Fits(spec, cpu, g, factor) && i < spec.sizes[g] && DeviceOffset(spec, g) <= DeviceOffset(spec, g + 1)
    ensures ItemAt(spec, cpu, ref, g, i, factor).device == spec.blocks[DeviceOffset(spec, g)..DeviceOffset(spec, g + 1)][i]
  {
  }

  lemma {:induction false} RefBlocksApart(spec: DeviceSpec, cpu: seq<int>, ref: Ref, g: nat, n: nat, factor: nat)
    requires Fits(spec, cpu, g, factor) && OwnBlocks(spec, g) && n <= spec.sizes[g]
    ensures BlocksApart(RefItems(spec, cpu, ref, g, n, factor))
  {
    if n > 0 {
      var before, last := RefItems(spec, cpu, ref, g, n - 1, factor), ItemAt(spec, cpu, ref, g, n - 1, factor);
      RefBlocksApart(spec, cpu, ref, g, n - 1, factor);
      forall x | x in before ensures x.device != last.device {
        RefMembers(spec, cpu, ref, g, n - 1, factor, x);
        var i: nat :| i < n - 1 && x == ItemAt(spec, cpu, ref, g, i, factor);
        BlockOf(spec, cpu, ref, g, i, factor);
        BlockOf(spec, cpu, ref, g, n - 1, factor);
      }
      AppendBlocksApart(before, [last]);
    }
  }

  lemma {:induction false} GroupBlocksApart(place: seq<nat>, spec: DeviceSpec, cpu: seq<int>, refs: seq<Ref>, g: nat, factor: nat)
    requires Fits(spec, cpu, g, factor) && OwnBlocks(spec, g) && OwnAllocations(place, refs)
    ensures BlocksApart(GroupItems(spec, cpu, refs, g, factor))
  {
    if refs != [] {
      var n := |refs| - 1;
      var a, b := GroupItems(spec, cpu, refs[..n], g, factor), RefItems(spec, cpu, refs[n], g, spec.sizes[g], factor);
      GroupBlocksApart(place, spec, cpu, refs[..n], g, factor);
      RefBlocksApart(spec, cpu, refs[n], g, spec.sizes[g], factor);
      forall x, y | x in a && y in b ensures x.layer != y.layer {
        GroupMembers(spec, cpu, refs[..n], g, factor, x);
        RefMembers(spec, cpu, refs[n], g, spec.sizes[g], factor, y);
        var ref :| ref in refs[..n] && InRef(spec, cpu, ref, g, spec.sizes[g], factor, x);
        var k :| 0 <= k < n && refs[..n][k] == ref;
        assert place[refs[k].layer] != place[refs[n].layer];
      }
      AppendBlocksApart(a, b);
    }
  }

  lemma {:induction false} PlanBlocksApart(layout: Layout, spec: DeviceSpec, cpu: seq<int>, n: nat, factor: nat)
    requires Valid(layout) && n <= |layout.refs| && forall g: nat :: g < n ==> Fits(spec, cpu, g, factor) && OwnBlocks(spec, g)
    ensures BlocksApart(PlanItems(spec, cpu, layout.refs, n, factor))
  {
    if n > 0 {
      var refs := layout.refs;
      var a, b := PlanItems(spec, cpu, refs, n - 1, factor), GroupItems(spec, cpu, refs[n - 1], n - 1, factor);
      PlanBlocksApart(layout, spec, cpu, n - 1, factor);
      GroupsOwnAllocations(layout);
      GroupBlocksApart(Place(layout), spec, cpu, refs[n - 1], n - 1, factor);
      forall x, y | x in a && y in b ensures x.layer != y.layer {
        PlanMembers(spec, cpu, refs, n - 1, factor, x);
        GroupMembers(spec, cpu, refs[n - 1], n - 1, factor, y);
        var g: nat :| g < n - 1 && InGroup(spec, cpu, refs[g], g, factor, x);
        assert LayersApart(refs[g], refs[n - 1]);
      }
      AppendBlocksApart(a, b);
    }
  }

  lemma AppendRowsDistinct(a: seq<Span>, b: seq<Span>)
    requires RowsDistinct(a) && RowsDistinct(b) && forall x, y :: x in a && y in b ==> x.row != y.row
    ensures RowsDistinct(a + b)
  {
    forall i, j | 0 <= i < j < |a + b| ensures (a + b)[i].row != (a + b)[j].row {
      if i < |a| <= j {
        assert (a + b)[i] in a && (a + b)[j] in b;
      }
    }
  }

  lemma {:induction false} ItemRowsDistinct(layout: Layout, item: Item, n: nat)
    requires item.layer < |layout.layers| && layout.layers[item.layer].allocation < |layout.pages|
    requires n <= |layout.layers[item.layer].widths|
    ensures RowsDistinct(ItemSpans(layout, item, n))
  {
    if n > 0 {
      ItemRowsDistinct(layout, item, n - 1);
      forall x | x in ItemSpans(layout, item, n - 1) ensures x.row != SpanAt(layout, item, n - 1).row {
        ItemSpanMembers(layout, item, n - 1, x);
      }
      AppendRowsDistinct(ItemSpans(layout, item, n - 1), [SpanAt(layout, item, n - 1)]);
    }
  }

  lemma {:induction false} SpanRowsDistinct(layout: Layout, shapes: seq<nat>, factor: nat, items: seq<Item>)
    requires AllFit(layout, shapes, factor, items) && BlocksApart(items)
    ensures RowsDistinct(Spans(layout, shapes, factor, items))
  {
    if items != [] {
      var n := |items| - 1;
      var last := items[n];
      assert last in items;
      var a, b := Spans(layout, shapes, factor, items[..n]), ItemSpans(layout, last, Views(layout, last));
      SpanRowsDistinct(layout, shapes, factor, items[..n]);
      ItemRowsDistinct(layout, last, Views(layout, last));
      forall x, y | x in a && y in b ensures x.row != y.row {
        SpanMembers(layout, shapes, factor, items[..n], x);
        ItemSpanMembers(layout, last, Views(layout, last), y);
        var item :| item in items[..n] && SpanOfItem(layout, shapes, factor, item, x);
        var i :| 0 <= i < n && items[..n][i] == item;
        assert items[i].layer != items[n].layer || items[i].device != items[n].device;
      }
      AppendRowsDistinct(a, b);
    }
  }

  /* ---- restoring ---- */

  /** A transfer that the worker accepts: it has a plan, and every span lies inside the caches. */
  ghost predicate Accepted(layout: Layout, shapes: seq<nat>, factor: nat, spec: DeviceSpec, cpu: seq<int>) {
    && Plannable(spec, cpu, layout.refs, factor)
    && AllFit(layout, shapes, factor, Plan(spec, cpu, layout.refs, factor))
  }

  function SpansOf(layout: Layout, shapes: seq<nat>, factor: nat, spec: DeviceSpec, cpu: seq<int>): seq<Span>
    requires Accepted(layout, shapes, factor, spec, cpu)
  {
    Spans(layout, shapes, factor, Plan(spec, cpu, layout.refs, factor))
  }

  /** The span of the `i`-th block of a group, for one view of one of its layers. */
  function SpanOf(layout: Layout, shapes: seq<nat>, factor: nat, spec: DeviceSpec, cpu: seq<int>, g: nat, ref: Ref, i: nat, view: nat): Span
    requires Fits(spec, cpu, g, factor) && i < spec.sizes[g]
    requires ref.layer < |layout.layers| && layout.layers[ref.layer].allocation < |layout.pages|
    requires view < |layout.layers[ref.layer].widths|
  {
    SpanAt(layout, ItemAt(spec, cpu, ref, g, i, factor), view)
  }

  lemma SpanIsThere(layout: Layout, shapes: seq<nat>, factor: nat, spec: DeviceSpec, cpu: seq<int>, g: nat, ref: Ref, i: nat, view: nat)
    requires Valid(layout) && Accepted(layout, shapes, factor, spec, cpu)
    requires g < |layout.refs| && ref in layout.refs[g] && i < spec.sizes[g]
    requires ref.layer < |layout.layers| && view < |layout.layers[ref.layer].widths|
    ensures Fits(spec, cpu, g, factor) && layout.layers[ref.layer].allocation < |layout.pages|
    ensures SpanOf(layout, shapes, factor, spec, cpu, g, ref, i, view) in SpansOf(layout, shapes, factor, spec, cpu)
  {
    PlanHas(spec, cpu, layout.refs, factor, g, ref, i);
    var item := ItemAt(spec, cpu, ref, g, i, factor);
    var items := Plan(spec, cpu, layout.refs, factor);
    assert ItemFits(layout, shapes, factor, item);
    assert SpanOfItem(layout, shapes, factor, item, SpanAt(layout, item, view));
    SpanMembers(layout, shapes, factor, items, SpanAt(layout, item, view));
  }

  /** The CPU block that a transfer uses for chunk `c` of a group, chunks counted from logical block zero. */
  predicate ChunkIs(spec: DeviceSpec, cpu: seq<int>, g: nat, factor: nat, c: nat, block: int) {
    && Fits(spec, cpu, g, factor)
    && var first := spec.logical[g] / factor;
    && first <= c < first + ChunksOf(spec, g, factor)
    && cpu[CpuOffset(spec, g, factor) + (c - first)] == block
  }

  /** The two transfers use the same CPU block for each chunk that both of them touch. */
  ghost predicate SameChunks(s: DeviceSpec, cpuS: seq<int>, l: DeviceSpec, cpuL: seq<int>, g: nat, factor: nat) {
    forall c: nat, x, y :: ChunkIs(s, cpuS, g, factor, c, x) && ChunkIs(l, cpuL, g, factor, c, y) ==> x == y
  }

  /** The logical block lies in a transfer's range of the group. */
  predicate Covers(spec: DeviceSpec, g: nat, L: nat) {
    g < |spec.sizes| && g < |spec.logical| && 0 <= spec.logical[g] <= L < spec.logical[g] + spec.sizes[g]
  }

  /** The row that a transfer names for a logical block, in one view of a layer. */
  function RowOf(spec: DeviceSpec, g: nat, ref: Ref, view: nat, L: nat): Row
    requires Covers(spec, g, L)
  {
    var at := DeviceOffset(spec, g) + (L - spec.logical[g]);
    Row(ref.layer, view, if 0 <= at < |spec.blocks| then spec.blocks[at] else 0)
  }

  /** A logical block is in the chunk of its number divided by the factor, at the remainder. */
  lemma ItemOfLogical(spec: DeviceSpec, cpu: seq<int>, g: nat, factor: nat, ref: Ref, L: nat)
    requires Fits(spec, cpu, g, factor) && Covers(spec, g, L)
    ensures var item := ItemAt(spec, cpu, ref, g, L - spec.logical[g], factor);
      item.sub == L % factor && ChunkIs(spec, cpu, g, factor, L / factor, item.cpu)
  {
    var start, i := spec.logical[g], L - spec.logical[g];
    LogicalAddress(start, i, factor);
    var c := ChunkAt(spec.sizes[g], start % factor, factor, i);
    assert c == L / factor - start / factor;
  }

  /** So two transfers put a logical block that both cover into the same bytes. */
  lemma SameBytes(layout: Layout, shapes: seq<nat>, factor: nat, s: DeviceSpec, cpuS: seq<int>, l: DeviceSpec, cpuL: seq<int>,
                  g: nat, ref: Ref, L: nat, view: nat)
    requires Fits(s, cpuS, g, factor) && Fits(l, cpuL, g, factor) && SameChunks(s, cpuS, l, cpuL, g, factor)
    requires Covers(s, g, L) && Covers(l, g, L)
    requires ref.layer < |layout.layers| && layout.layers[ref.layer].allocation < |layout.pages|
    requires view < |layout.layers[ref.layer].widths|
    ensures var a := SpanOf(layout, shapes, factor, s, cpuS, g, ref, L - s.logical[g], view);
      var b := SpanOf(layout, shapes, factor, l, cpuL, g, ref, L - l.logical[g], view);
      b == a.(row := b.row)
  {
    ItemOfLogical(s, cpuS, g, factor, ref, L);
    ItemOfLogical(l, cpuL, g, factor, ref, L);
  }

  /** Store a range of logical blocks; later load any part of it, starting wherever it likes and into other
      device blocks, while the CPU blocks of the store hold what they held: each view of each layer gets
      back, for each logical block, exactly the bytes it had when it was stored. */
  lemma StoreThenLoad(layout: Layout, shapes: seq<nat>, factor: nat, s: DeviceSpec, cpuS: seq<int>, l: DeviceSpec, cpuL: seq<int>,
                      device: Device, cpu: Cpu, device2: Device, cpu2: Cpu, g: nat, ref: Ref, L: nat, view: nat)
    requires Valid(layout) && Accepted(layout, shapes, factor, s, cpuS) && Accepted(layout, shapes, factor, l, cpuL)
    requires DistinctIds(cpuS) && (forall h: nat :: h < |layout.refs| ==> OwnBlocks(l, h))
    requires SpansFit(device, cpu, SpansOf(layout, shapes, factor, s, cpuS))
    requires SpansFit(device2, cpu2, SpansOf(layout, shapes, factor, l, cpuL))
    requires forall b :: b in cpu2 && b.block in cpuS ==>
               b in cpu && cpu2[b] == Store(device, cpu, SpansOf(layout, shapes, factor, s, cpuS))[b]
    requires g < |layout.refs| && ref in layout.refs[g] && ref.layer < |layout.layers| && view < |layout.layers[ref.layer].widths|
    requires Covers(s, g, L) && Covers(l, g, L) && SameChunks(s, cpuS, l, cpuL, g, factor)
    ensures var after := Load(device2, cpu2, SpansOf(layout, shapes, factor, l, cpuL));
      && RowOf(s, g, ref, view, L) in device && RowOf(l, g, ref, view, L) in after
      && after[RowOf(l, g, ref, view, L)] == device[RowOf(s, g, ref, view, L)]
  {
    var a := SpanForLogical(layout, shapes, factor, s, cpuS, g, ref, L, view);
    var b := SpanForLogical(layout, shapes, factor, l, cpuL, g, ref, L, view);
    SameBytes(layout, shapes, factor, s, cpuS, l, cpuL, g, ref, L, view);
    StoreSpansDisjoint(layout, shapes, factor, s, cpuS);
    LoadRowsDistinct(layout, shapes, factor, l, cpuL);
    Restored(device, cpu, SpansOf(layout, shapes, factor, s, cpuS), a, device2, cpu2, SpansOf(layout, shapes, factor, l, cpuL), b);
  }

  lemma StoreSpansDisjoint(layout: Layout, shapes: seq<nat>, factor: nat, s: DeviceSpec, cpuS: seq<int>)
    requires Valid(layout) && Accepted(layout, shapes, factor, s, cpuS) && DistinctIds(cpuS)
    ensures AllDisjoint(SpansOf(layout, shapes, factor, s, cpuS))
  {
    TransferSpans(layout, shapes, factor, s, cpuS);
  }

  lemma SpanForLogical(layout: Layout, shapes: seq<nat>, factor: nat, spec: DeviceSpec, cpu: seq<int>, g: nat, ref: Ref, L: nat, view: nat)
    returns (span: Span)
    requires Valid(layout) && Accepted(layout, shapes, factor, spec, cpu)
    requires g < |layout.refs| && ref in layout.refs[g] && Covers(spec, g, L)
    requires ref.layer < |layout.layers| && view < |layout.layers[ref.layer].widths|
    ensures Fits(spec, cpu, g, factor) && layout.layers[ref.layer].allocation < |layout.pages|
    ensures span == SpanOf(layout, shapes, factor, spec, cpu, g, ref, L - spec.logical[g], view)
    ensures span in SpansOf(layout, shapes, factor, spec, cpu)
    ensures span.row == RowOf(spec, g, ref, view, L) && span.cpu.block in cpu
  {
    SpanIsThere(layout, shapes, factor, spec, cpu, g, ref, L - spec.logical[g], view);
    span := SpanOf(layout, shapes, factor, spec, cpu, g, ref, L - spec.logical[g], view);
  }

  /** A span that was stored, and is loaded from the same bytes. */
  lemma Restored(device: Device, cpu: Cpu, stored: seq<Span>, a: Span, device2: Device, cpu2: Cpu, loaded: seq<Span>, b: Span)
    requires SpansFit(device, cpu, stored) && SpansFit(device2, cpu2, loaded)
    requires AllDisjoint(stored) && RowsDistinct(loaded) && a in stored && b in loaded && b == a.(row := b.row)
    requires a.cpu in cpu2 && cpu2[a.cpu] == Store(device, cpu, stored)[a.cpu]
    ensures Load(device2, cpu2, loaded)[b.row] == device[a.row]
  {
    StoreReads(device, cpu, stored, a);
    LoadReads(device2, cpu2, loaded, b);
  }

  lemma LoadRowsDistinct(layout: Layout, shapes: seq<nat>, factor: nat, l: DeviceSpec, cpuL: seq<int>)
    requires Valid(layout) && Accepted(layout, shapes, factor, l, cpuL)
    requires forall h: nat :: h < |layout.refs| ==> OwnBlocks(l, h)
    ensures RowsDistinct(SpansOf(layout, shapes, factor, l, cpuL))
  {
    forall h: nat | h < |layout.refs| ensures Fits(l, cpuL, h, factor) {
      PlannableFits(l, cpuL, layout.refs, factor, h);
    }
    PlanBlocksApart(layout, l, cpuL, |layout.refs|, factor);
    SpanRowsDistinct(layout, shapes, factor, Plan(l, cpuL, layout.refs, factor));
  }

  /** A load changes no row but those of the layers of its groups at its own device blocks. */
  lemma LoadTouchesOnly(layout: Layout, shapes: seq<nat>, factor: nat, l: DeviceSpec, cpuL: seq<int>, device: Device, cpu: Cpu, row: Row)
    requires Accepted(layout, shapes, factor, l, cpuL) && SpansFit(device, cpu, SpansOf(layout, shapes, factor, l, cpuL))
    requires row in device && Load(device, cpu, SpansOf(layout, shapes, factor, l, cpuL))[row] != device[row]
    ensures exists g: nat, i: nat :: OfGroup(layout.refs, l, g, i, row.layer, row.block)
  {
    var spans, items := SpansOf(layout, shapes, factor, l, cpuL), Plan(l, cpuL, layout.refs, factor);
    if forall span :: span in spans ==> span.row != row {
      LoadKeeps(device, cpu, spans, row);
    }
    var span :| span in spans && span.row == row;
    SpanMembers(layout, shapes, factor, items, span);
    var item :| item in items && SpanOfItem(layout, shapes, factor, item, span);
    ItemOrigin(l, cpuL, layout.refs, factor, item);
  }

  lemma ItemOrigin(spec: DeviceSpec, cpu: seq<int>, refs: seq<seq<Ref>>, factor: int, item: Item)
    requires Plannable(spec, cpu, refs, factor) && item in Plan(spec, cpu, refs, factor)
    ensures item.cpu in cpu
    ensures exists g: nat, i: nat :: OfGroup(refs, spec, g, i, item.layer, item.device)
  {
    forall h: nat | h < |refs| ensures Fits(spec, cpu, h, factor) {
      PlannableFits(spec, cpu, refs, factor, h);
    }
    PlanMembers(spec, cpu, refs, |refs|, factor, item);
    var g: nat :| g < |refs| && InGroup(spec, cpu, refs[g], g, factor, item);
    var i := GroupOrigin(spec, cpu, refs[g], g, factor, item);
    assert OfGroup(refs, spec, g, i, item.layer, item.device);
  }

  /** The layer is one of group `g`, and the block is the `i`-th device block of that same group. */
  predicate OfGroup(refs: seq<seq<Ref>>, spec: DeviceSpec, g: nat, i: nat, layer: nat, block: int) {
    && g < |refs| && g < |spec.sizes| && i < spec.sizes[g] && HasLayer(refs[g], layer)
    && 0 <= DeviceOffset(spec, g) + i < |spec.blocks| && block == spec.blocks[DeviceOffset(spec, g) + i]
  }

  predicate HasLayer(refs: seq<Ref>, layer: nat) {
    exists ref :: ref in refs && ref.layer == layer
  }

  lemma GroupOrigin(spec: DeviceSpec, cpu: seq<int>, refs: seq<Ref>, g: nat, factor: nat, item: Item) returns (i: nat)
    requires Fits(spec, cpu, g, factor) && InGroup(spec, cpu, refs, g, factor, item)
    ensures item.cpu in cpu && HasLayer(refs, item.layer)
    ensures i < spec.sizes[g] && 0 <= DeviceOffset(spec, g) + i < |spec.blocks|
    ensures item.device == spec.blocks[DeviceOffset(spec, g) + i]
  {
    var ref :| ref in refs && InRef(spec, cpu, ref, g, spec.sizes[g], factor, item);
    i :| i < spec.sizes[g] && item == ItemAt(spec, cpu, ref, g, i, factor);
  }

  /** A store changes no CPU block but its own, and in those no byte outside its spans. */
  lemma StoreTouchesOnly(layout: Layout, shapes: seq<nat>, factor: nat, s: DeviceSpec, cpuS: seq<int>, device: Device, cpu: Cpu, b: CpuBlock)
    requires Accepted(layout, shapes, factor, s, cpuS) && SpansFit(device, cpu, SpansOf(layout, shapes, factor, s, cpuS))
    requires b in cpu && b.block !in cpuS
    ensures Store(device, cpu, SpansOf(layout, shapes, factor, s, cpuS))[b] == cpu[b]
  {
    var spans, items := SpansOf(layout, shapes, factor, s, cpuS), Plan(s, cpuS, layout.refs, factor);
    var whole := Span(Row(0, 0, 0), b, 0, |cpu[b]|);
    forall span | span in spans ensures Disjoint(span, whole) {
      SpanMembers(layout, shapes, factor, items, span);
      var item :| item in items && SpanOfItem(layout, shapes, factor, item, span);
      ItemOrigin(s, cpuS, layout.refs, factor, item);
    }
    StoreKeeps(device, cpu, spans, whole);
    assert SliceOf(cpu, whole) == cpu[b];
    assert SliceOf(Store(device, cpu, spans), whole) == Store(device, cpu, spans)[b];
  }

  /* ---- the caches hold every accepted transfer ---- */

  /** Every row of every layer is there, and every CPU block of every allocation, with their sizes. */
  ghost predicate Shaped(layout: Layout, shapes: seq<nat>, factor: nat, device: Device, cpu: Cpu) {
    && |shapes| == |layout.pages|
    && (forall row: Row :: RowIn(layout, row) ==>
          row in device && |device[row]| == layout.layers[row.layer].widths[row.view])
    && (forall b: CpuBlock :: b.allocation < |shapes| && 0 <= b.block < shapes[b.allocation] ==>
          b in cpu && |cpu[b]| == factor * layout.pages[b.allocation])
  }

  predicate RowIn(layout: Layout, row: Row) {
    row.layer < |layout.layers| && row.view < |layout.layers[row.layer].widths| && 0 <= row.block < layout.count
  }

  lemma AcceptedFit(layout: Layout, shapes: seq<nat>, factor: nat, spec: DeviceSpec, cpu: seq<int>, device: Device, memory: Cpu)
    requires Valid(layout) && Accepted(layout, shapes, factor, spec, cpu) && Shaped(layout, shapes, factor, device, memory)
    ensures SpansFit(device, memory, SpansOf(layout, shapes, factor, spec, cpu))
  {
    var items := Plan(spec, cpu, layout.refs, factor);
    forall span | span in SpansOf(layout, shapes, factor, spec, cpu) ensures SpanFits(device, memory, span) {
      SpanMembers(layout, shapes, factor, items, span);
      var item :| item in items && SpanOfItem(layout, shapes, factor, item, span);
      var view: nat :| view < Views(layout, item) && span == SpanAt(layout, item, view);
      SpanInSub(layout, shapes, factor, item, view);
      assert RowIn(layout, span.row);
    }
  }
}
