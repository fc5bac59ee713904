/** Where every byte of a transfer goes, in absolute terms. */
module CopyAddresses {
  import opened Wrappers
  import opened Divisions
  import opened CopyPlans
  import opened CopySpans

  function Total(counts: seq<int>, n: nat): int
    requires n <= |counts|
  {
    if n == 0 then 0 else Total(counts, n - 1) + counts[n - 1]
  }

  /** How many CPU blocks of `factor` sub-blocks the logical blocks from `start` on lie in. */
  function Touched(start: nat, size: nat, factor: nat): nat
    requires 0 < factor
  {
    if size == 0 then 0 else (start + size - 1) / factor - start / factor + 1
  }

  lemma ChunksAreTouched(start: nat, size: nat, factor: nat)
    requires 0 < factor
    ensures size > 0 ==> start / factor <= (start + size - 1) / factor
    ensures Chunks(size, start % factor, factor) == Touched(start, size, factor)
  {
    if size > 0 {
      LogicalAddress(start, size - 1, factor);
      var last := start % factor + (size - 1);
      assert last == last / factor * factor + last % factor;
      assert (last / factor + 1) * factor == last / factor * factor + factor;
      DivisionIs(last + factor, factor, last / factor + 1, last % factor);
    }
  }

  function TouchedOf(spec: DeviceSpec, factor: nat): seq<int>
    requires 0 < factor && Counted(spec, |spec.sizes|)
  {
    seq(|spec.sizes|, g requires 0 <= g < |spec.sizes| => Touched(spec.logical[g], spec.sizes[g], factor))
  }

  lemma {:induction false} DeviceOffsetIs(spec: DeviceSpec, g: nat)
    requires g <= |spec.sizes|
    ensures DeviceOffset(spec, g) == Total(spec.sizes, g)
  {
    if g > 0 {
      DeviceOffsetIs(spec, g - 1);
    }
  }

  lemma {:induction false} CpuOffsetIs(spec: DeviceSpec, g: nat, factor: nat)
    requires 0 < factor && Counted(spec, |spec.sizes|) && g <= |spec.sizes|
    ensures CpuOffset(spec, g, factor) == Total(TouchedOf(spec, factor), g)
  {
    if g > 0 {
      CpuOffsetIs(spec, g - 1, factor);
      ChunksAreTouched(spec.logical[g - 1], spec.sizes[g - 1], factor);
    }
  }

  /** A transfer has a plan if and only if there is a size and a start for every group, none negative, the
      device lists as many blocks as the sizes add up to, and the CPU as many as the logical blocks lie in. */
  lemma PlannableExactly(spec: DeviceSpec, cpu: seq<int>, refs: seq<seq<Ref>>, factor: int)
    ensures Plannable(spec, cpu, refs, factor) <==>
              && 1 <= factor && |spec.sizes| == |refs| && |spec.logical| == |refs|
              && (forall g :: 0 <= g < |refs| ==> 0 <= spec.sizes[g] && 0 <= spec.logical[g])
              && |spec.blocks| == Total(spec.sizes, |refs|)
              && |cpu| == Total(TouchedOf(spec, factor), |refs|)
  {
    if 1 <= factor && |spec.sizes| == |refs| && |spec.logical| == |refs| && Counted(spec, |refs|) {
      DeviceOffsetIs(spec, |refs|);
      CpuOffsetIs(spec, |refs|, factor);
    }
  }

  /** The place of the `i`-th block of a group in the list of CPU blocks: logical block L is in CPU block
      L div factor, counted from the first one that the group's blocks lie in. */
  function CpuPlace(spec: DeviceSpec, g: nat, i: nat, factor: nat): int
    requires 0 < factor && Counted(spec, |spec.sizes|) && g < |spec.sizes|
  {
    Total(TouchedOf(spec, factor), g) + (spec.logical[g] + i) / factor - spec.logical[g] / factor
  }

  /** ... at sub-block L mod factor. */
  predicate Addressed(spec: DeviceSpec, cpu: seq<int>, ref: Ref, g: nat, i: nat, factor: nat, item: Item)
    requires 0 < factor && Counted(spec, |spec.sizes|) && g < |spec.sizes|
    requires 0 <= Total(spec.sizes, g) + i < |spec.blocks| && 0 <= CpuPlace(spec, g, i, factor) < |cpu|
  {
    && item.layer == ref.layer && item.size == ref.size
    && item.device == spec.blocks[Total(spec.sizes, g) + i]
    && item.cpu == cpu[CpuPlace(spec, g, i, factor)]
    && item.sub == (spec.logical[g] + i) % factor
  }

  lemma ChunkIsPlace(spec: DeviceSpec, cpu: seq<int>, factor: nat, g: nat, i: nat)
    requires 0 < factor && Counted(spec, |spec.sizes|) && g < |spec.sizes| && i < spec.sizes[g] && Fits(spec, cpu, g, factor)
    ensures CpuOffset(spec, g, factor) + ChunkAt(spec.sizes[g], spec.logical[g] % factor, factor, i) == CpuPlace(spec, g, i, factor)
    ensures SubAt(spec.logical[g] % factor, factor, i) == (spec.logical[g] + i) % factor
  {
    CpuOffsetIs(spec, g, factor);
    LogicalAddress(spec.logical[g], i, factor);
  }

  lemma AddressInRange(spec: DeviceSpec, cpu: seq<int>, refs: seq<seq<Ref>>, factor: int, g: nat, i: nat)
    requires Plannable(spec, cpu, refs, factor) && g < |refs| && i < spec.sizes[g]
    ensures 0 <= Total(spec.sizes, g) + i < |spec.blocks| && 0 <= CpuPlace(spec, g, i, factor) < |cpu|
    ensures Fits(spec, cpu, g, factor)
  {
    PlannableFits(spec, cpu, refs, factor, g);
    DeviceOffsetIs(spec, g);
    ChunkIsPlace(spec, cpu, factor, g, i);
  }

  lemma AddressedIsItem(spec: DeviceSpec, cpu: seq<int>, refs: seq<seq<Ref>>, factor: int, g: nat, i: nat, ref: Ref, item: Item)
    requires Plannable(spec, cpu, refs, factor) && g < |refs| && i < spec.sizes[g] && Fits(spec, cpu, g, factor)
    requires 0 <= Total(spec.sizes, g) + i < |spec.blocks| && 0 <= CpuPlace(spec, g, i, factor) < |cpu|
    ensures Addressed(spec, cpu, ref, g, i, factor, item) <==> item == ItemAt(spec, cpu, ref, g, i, factor)
  {
    DeviceOffsetIs(spec, g);
    ChunkIsPlace(spec, cpu, factor, g, i);
  }

  ghost predicate AddressedBySome(spec: DeviceSpec, cpu: seq<int>, refs: seq<seq<Ref>>, factor: int, item: Item)
    requires Plannable(spec, cpu, refs, factor)
  {
    exists g: nat, i: nat, ref: Ref :: AddressedBy(spec, cpu, refs, factor, g, i, ref, item)
  }

  ghost predicate AddressedBy(spec: DeviceSpec, cpu: seq<int>, refs: seq<seq<Ref>>, factor: int, g: nat, i: nat, ref: Ref, item: Item)
    requires Plannable(spec, cpu, refs, factor)
  {
    && g < |refs| && i < spec.sizes[g] && ref in refs[g]
    && (AddressInRange(spec, cpu, refs, factor, g, i); Addressed(spec, cpu, ref, g, i, factor, item))
  }

  /** A plan has exactly the addresses of the blocks of its groups, for each layer of the group. */
  lemma PlanIsAddressed(spec: DeviceSpec, cpu: seq<int>, refs: seq<seq<Ref>>, factor: int, item: Item)
    requires Plannable(spec, cpu, refs, factor)
    ensures item in Plan(spec, cpu, refs, factor) <==> AddressedBySome(spec, cpu, refs, factor, item)
  {
    forall g: nat | g < |refs| ensures Fits(spec, cpu, g, factor) {
      PlannableFits(spec, cpu, refs, factor, g);
    }
    PlanMembers(spec, cpu, refs, |refs|, factor, item);
    if item in Plan(spec, cpu, refs, factor) {
      var g: nat :| g < |refs| && InGroup(spec, cpu, refs[g], g, factor, item);
      var ref :| ref in refs[g] && InRef(spec, cpu, ref, g, spec.sizes[g], factor, item);
      var i: nat :| i < spec.sizes[g] && item == ItemAt(spec, cpu, ref, g, i, factor);
      AddressInRange(spec, cpu, refs, factor, g, i);
      AddressedIsItem(spec, cpu, refs, factor, g, i, ref, item);
      assert AddressedBy(spec, cpu, refs, factor, g, i, ref, item);
    }
    if g: nat, i: nat, ref: Ref :| AddressedBy(spec, cpu, refs, factor, g, i, ref, item) {
      AddressInRange(spec, cpu, refs, factor, g, i);
      AddressedIsItem(spec, cpu, refs, factor, g, i, ref, item);
      PlanHas(spec, cpu, refs, factor, g, ref, i);
    }
  }

  /* ---- bytes ---- */

  function WidthBefore(widths: seq<nat>, view: nat): nat
    requires view <= |widths|
  {
    if view == 0 then 0 else WidthBefore(widths, view - 1) + widths[view - 1]
  }

  lemma {:induction false} SumBefore(widths: seq<nat>, view: nat)
    requires view <= |widths|
    ensures Sum(widths[..view]) == WidthBefore(widths, view)
  {
    if view > 0 {
      SumBefore(widths, view - 1);
      assert widths[..view][..view - 1] == widths[..view - 1];
    }
  }

  /** The spans of an item: its layer's views side by side, from the start of the sub-block on. */
  lemma SpansAreSideBySide(layout: Layout, shapes: seq<nat>, factor: nat, items: seq<Item>, span: Span)
    requires AllFit(layout, shapes, factor, items)
    ensures span in Spans(layout, shapes, factor, items) <==>
              exists item :: item in items && SpanOf(layout, item, span)
  {
    SpanMembers(layout, shapes, factor, items, span);
    forall item | item in items ensures SpanOfItem(layout, shapes, factor, item, span) <==> SpanOf(layout, item, span) {
      SpanOfOne(layout, shapes, factor, item, span);
    }
  }

  predicate SpanOf(layout: Layout, item: Item, span: Span) {
    && item.layer < |layout.layers|
    && var layer := layout.layers[item.layer];
    && layer.allocation < |layout.pages| && span.row.view < |layer.widths|
    && span.row == Row(item.layer, span.row.view, item.device)
    && span.cpu == CpuBlock(layer.allocation, item.cpu)
    && span.offset == item.sub * layout.pages[layer.allocation] + WidthBefore(layer.widths, span.row.view)
    && span.width == layer.widths[span.row.view]
  }

  lemma SpanOfOne(layout: Layout, shapes: seq<nat>, factor: nat, item: Item, span: Span)
    requires ItemFits(layout, shapes, factor, item)
    ensures SpanOfItem(layout, shapes, factor, item, span) <==> SpanOf(layout, item, span)
  {
    if view: nat :| view < Views(layout, item) && span == SpanAt(layout, item, view) {
      SumBefore(layout.layers[item.layer].widths, view);
    }
    if SpanOf(layout, item, span) {
      SumBefore(layout.layers[item.layer].widths, span.row.view);
      assert span == SpanAt(layout, item, span.row.view);
    }
  }
}
