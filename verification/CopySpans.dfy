/** From the items of a plan to byte spans, and what copying along them does. */
module CopySpans {
  import Basics
  import opened Wrappers
  import opened Divisions
  import opened CopyPlans

  type Data = Basics.Bytes

  /** The views of one layer: an allocation, and the bytes that each view has for a block. */
  datatype Layer = Layer(allocation: nat, widths: seq<nat>)

  /** A cache of `count` device blocks; `pages` are the bytes that an allocation has for a block. */
  datatype Layout = Layout(count: nat, pages: seq<nat>, layers: seq<Layer>, refs: seq<seq<Ref>>)

  /** One row of one view. */
  datatype Row = Row(layer: nat, view: nat, block: int)

  datatype CpuBlock = CpuBlock(allocation: nat, block: int)

  /** One copy: a row, and where its bytes lie in a CPU block. */
  datatype Span = Span(row: Row, cpu: CpuBlock, offset: nat, width: nat)

  function Sum(widths: seq<nat>): nat {
    if widths == [] then 0 else Sum(widths[..|widths| - 1]) + widths[|widths| - 1]
  }

  function Place(layout: Layout): seq<nat> {
    seq(|layout.layers|, i requires 0 <= i < |layout.layers| => layout.layers[i].allocation)
  }

  /** Every layer fits its allocation's page, refs name their own layer and its bytes, the layers of a
      group have allocations of their own, and no layer is in two groups. */
  ghost predicate Valid(layout: Layout) {
    && (forall l :: 0 <= l < |layout.layers| ==> LayerValid(layout, layout.layers[l]))
    && (forall g :: 0 <= g < |layout.refs| ==> GroupValid(layout, layout.refs[g]))
    && (forall g, h :: 0 <= g < h < |layout.refs| ==> LayersApart(layout.refs[g], layout.refs[h]))
  }

  predicate LayerValid(layout: Layout, layer: Layer) {
    layer.allocation < |layout.pages| && 0 < Sum(layer.widths) <= layout.pages[layer.allocation]
  }

  predicate GroupValid(layout: Layout, refs: seq<Ref>) {
    && (forall ref :: ref in refs ==> ref.layer < |layout.layers| && ref.size == Sum(layout.layers[ref.layer].widths))
    && OwnAllocations(Place(layout), refs)
  }

  predicate LayersApart(a: seq<Ref>, b: seq<Ref>) {
    forall x, y :: x in a && y in b ==> x.layer != y.layer
  }

  /* ---- spans ---- */

  datatype SpanError = CpuOutside | SizeChanged | DeviceOutside

  /** An item that can be copied; `shapes` are the numbers of CPU blocks of the allocations. */
  predicate ItemFits(layout: Layout, shapes: seq<nat>, factor: nat, item: Item) {
    && item.layer < |layout.layers| && item.sub < factor
    && var layer := layout.layers[item.layer];
    && layer.allocation < |layout.pages| && layer.allocation < |shapes|
    && 0 <= item.cpu < shapes[layer.allocation] && item.size == Sum(layer.widths)
    && (layer.widths != [] ==> 0 <= item.device < layout.count)
  }

  function SpanAt(layout: Layout, item: Item, view: nat): Span
    requires item.layer < |layout.layers| && layout.layers[item.layer].allocation < |layout.pages|
    requires view < |layout.layers[item.layer].widths|
  {
    var layer := layout.layers[item.layer];
    Span(Row(item.layer, view, item.device), CpuBlock(layer.allocation, item.cpu),
         item.sub * layout.pages[layer.allocation] + Sum(layer.widths[..view]), layer.widths[view])
  }

  function ItemSpans(layout: Layout, item: Item, n: nat): seq<Span>
    requires item.layer < |layout.layers| && layout.layers[item.layer].allocation < |layout.pages|
    requires n <= |layout.layers[item.layer].widths|
  {
    if n == 0 then [] else ItemSpans(layout, item, n - 1) + [SpanAt(layout, item, n - 1)]
  }

  predicate AllFit(layout: Layout, shapes: seq<nat>, factor: nat, items: seq<Item>) {
    forall item :: item in items ==> ItemFits(layout, shapes, factor, item)
  }

  function Views(layout: Layout, item: Item): nat {
    if item.layer < |layout.layers| then |layout.layers[item.layer].widths| else 0
  }

  function Spans(layout: Layout, shapes: seq<nat>, factor: nat, items: seq<Item>): seq<Span>
    requires AllFit(layout, shapes, factor, items)
  {
    if items == [] then []
    else
      var last := items[|items| - 1];
      assert last in items;
      Spans(layout, shapes, factor, items[..|items| - 1]) + ItemSpans(layout, last, Views(layout, last))
  }

  lemma {:induction false} ItemSpanMembers(layout: Layout, item: Item, n: nat, span: Span)
    requires item.layer < |layout.layers| && layout.layers[item.layer].allocation < |layout.pages|
    requires n <= |layout.layers[item.layer].widths|
    ensures span in ItemSpans(layout, item, n) <==> exists view: nat :: view < n && span == SpanAt(layout, item, view)
  {
    if n > 0 {
      ItemSpanMembers(layout, item, n - 1, span);
    }
  }

  predicate SpanOfItem(layout: Layout, shapes: seq<nat>, factor: nat, item: Item, span: Span)
    requires ItemFits(layout, shapes, factor, item)
  {
    exists view: nat :: view < Views(layout, item) && span == SpanAt(layout, item, view)
  }

  ghost predicate SpanOfSome(layout: Layout, shapes: seq<nat>, factor: nat, items: seq<Item>, span: Span)
    requires AllFit(layout, shapes, factor, items)
  {
    exists item :: item in items && SpanOfItem(layout, shapes, factor, item, span)
  }

  lemma {:induction false} SpanMembers(layout: Layout, shapes: seq<nat>, factor: nat, items: seq<Item>, span: Span)
    requires AllFit(layout, shapes, factor, items)
    ensures span in Spans(layout, shapes, factor, items) <==> SpanOfSome(layout, shapes, factor, items, span)
  {
    if items != [] {
      var n := |items| - 1;
      assert items[n] in items;
      SpanMembers(layout, shapes, factor, items[..n], span);
      ItemSpanMembers(layout, items[n], Views(layout, items[n]), span);
      if SpanOfSome(layout, shapes, factor, items, span) {
        var item :| item in items && SpanOfItem(layout, shapes, factor, item, span);
        assert item in items[..n] || item == items[n];
      }
      if SpanOfSome(layout, shapes, factor, items[..n], span) {
        var item :| item in items[..n] && SpanOfItem(layout, shapes, factor, item, span);
        assert item in items;
      }
      if span in ItemSpans(layout, items[n], Views(layout, items[n])) {
        assert SpanOfItem(layout, shapes, factor, items[n], span);
      }
    }
  }

  /* ---- spans do not overlap ---- */

  predicate Disjoint(a: Span, b: Span) {
    a.cpu != b.cpu || a.offset + a.width <= b.offset || b.offset + b.width <= a.offset
  }

  predicate AllDisjoint(spans: seq<Span>) {
    forall i, j :: 0 <= i < j < |spans| ==> Disjoint(spans[i], spans[j])
  }

  lemma AppendDisjoint(a: seq<Span>, b: seq<Span>)
    requires AllDisjoint(a) && AllDisjoint(b) && forall x, y :: x in a && y in b ==> Disjoint(x, y)
    ensures AllDisjoint(a + b)
  {
    forall i, j | 0 <= i < j < |a + b| ensures Disjoint((a + b)[i], (a + b)[j]) {
      if i < |a| <= j {
        assert (a + b)[i] in a && (a + b)[j] in b;
      }
    }
  }

  lemma {:induction false} SumGrows(widths: seq<nat>, a: nat, b: nat)
    requires a <= b <= |widths|
    ensures Sum(widths[..a]) <= Sum(widths[..b])
  {
    if a < b {
      SumGrows(widths, a, b - 1);
      assert widths[..b][..b - 1] == widths[..b - 1];
    }
  }

  /** A view's bytes lie within the layer's, and end where the next view's begin. */
  lemma SumNext(widths: seq<nat>, k: nat)
    requires k < |widths|
    ensures Sum(widths[..k]) + widths[k] == Sum(widths[..k + 1]) <= Sum(widths)
  {
    assert widths[..k + 1][..k] == widths[..k];
    SumGrows(widths, k + 1, |widths|);
    assert widths[..|widths|] == widths;
  }

  /** A span lies in its item's sub-block, and inside the CPU block. */
  lemma SpanInSub(layout: Layout, shapes: seq<nat>, factor: nat, item: Item, view: nat)
    requires Valid(layout) && ItemFits(layout, shapes, factor, item) && view < Views(layout, item)
    ensures var span, page := SpanAt(layout, item, view), layout.pages[layout.layers[item.layer].allocation];
      item.sub * page <= span.offset && span.offset + span.width <= (item.sub + 1) * page <= factor * page
  {
    var layer := layout.layers[item.layer];
    var page := layout.pages[layer.allocation];
    assert LayerValid(layout, layer);
    SumNext(layer.widths, view);
    Distribute(page, item.sub, 1);
    Times(factor, item.sub + 1, page);
  }

  lemma ViewsDisjoint(layout: Layout, item: Item, a: nat, b: nat)
    requires item.layer < |layout.layers| && layout.layers[item.layer].allocation < |layout.pages|
    requires a < b < Views(layout, item)
    ensures Disjoint(SpanAt(layout, item, a), SpanAt(layout, item, b))
  {
    var widths := layout.layers[item.layer].widths;
    SumNext(widths, a);
    SumGrows(widths, a + 1, b);
  }

  lemma {:induction false} ItemSpansDisjoint(layout: Layout, item: Item, n: nat)
    requires item.layer < |layout.layers| && layout.layers[item.layer].allocation < |layout.pages|
    requires n <= |layout.layers[item.layer].widths|
    ensures AllDisjoint(ItemSpans(layout, item, n))
  {
    if n > 0 {
      var before, last := ItemSpans(layout, item, n - 1), SpanAt(layout, item, n - 1);
      ItemSpansDisjoint(layout, item, n - 1);
      forall x | x in before ensures Disjoint(x, last) {
        ItemSpanMembers(layout, item, n - 1, x);
        var view: nat :| view < n - 1 && x == SpanAt(layout, item, view);
        ViewsDisjoint(layout, item, view, n - 1);
      }
      AppendDisjoint(before, [last]);
    }
  }

  /** Items in different sub-blocks have disjoint spans. */
  lemma SlotsDisjoint(layout: Layout, shapes: seq<nat>, factor: nat, a: Item, b: Item, v: nat, w: nat)
    requires Valid(layout) && ItemFits(layout, shapes, factor, a) && ItemFits(layout, shapes, factor, b)
    requires SlotOf(Place(layout), a) != SlotOf(Place(layout), b)
    requires v < Views(layout, a) && w < Views(layout, b)
    ensures Disjoint(SpanAt(layout, a, v), SpanAt(layout, b, w))
  {
    var x, y := SpanAt(layout, a, v), SpanAt(layout, b, w);
    if x.cpu == y.cpu {
      var page := layout.pages[layout.layers[a.layer].allocation];
      SpanInSub(layout, shapes, factor, a, v);
      SpanInSub(layout, shapes, factor, b, w);
      if a.sub < b.sub {
        Times(b.sub, a.sub + 1, page);
      } else {
        Times(a.sub, b.sub + 1, page);
      }
    }
  }

  lemma {:induction false} SpansDisjoint(layout: Layout, shapes: seq<nat>, factor: nat, items: seq<Item>)
    requires Valid(layout) && AllFit(layout, shapes, factor, items) && Apart(Place(layout), items)
    ensures AllDisjoint(Spans(layout, shapes, factor, items))
  {
    if items != [] {
      var n := |items| - 1;
      var last := items[n];
      assert last in items;
      var a, b := Spans(layout, shapes, factor, items[..n]), ItemSpans(layout, last, Views(layout, last));
      SpansDisjoint(layout, shapes, factor, items[..n]);
      ItemSpansDisjoint(layout, last, Views(layout, last));
      forall x, y | x in a && y in b ensures Disjoint(x, y) {
        SpanMembers(layout, shapes, factor, items[..n], x);
        ItemSpanMembers(layout, last, Views(layout, last), y);
        var item :| item in items[..n] && SpanOfItem(layout, shapes, factor, item, x);
        var i :| 0 <= i < n && items[..n][i] == item;
        var v: nat :| v < Views(layout, item) && x == SpanAt(layout, item, v);
        var w: nat :| w < Views(layout, last) && y == SpanAt(layout, last, w);
        assert SlotOf(Place(layout), items[i]) != SlotOf(Place(layout), items[n]);
        SlotsDisjoint(layout, shapes, factor, item, last, v, w);
      }
      AppendDisjoint(a, b);
    }
  }

  lemma GroupsOwnAllocations(layout: Layout)
    requires Valid(layout)
    ensures forall g :: 0 <= g < |layout.refs| ==> OwnAllocations(Place(layout), layout.refs[g])
  {
    forall g | 0 <= g < |layout.refs| ensures OwnAllocations(Place(layout), layout.refs[g]) {
      assert GroupValid(layout, layout.refs[g]);
    }
  }

  /** The CPU spans of any accepted transfer with distinct CPU blocks are in bounds and do not overlap:
      over all blocks, sub-blocks, views, layers and groups. */
  lemma TransferSpans(layout: Layout, shapes: seq<nat>, factor: nat, spec: DeviceSpec, cpu: seq<int>)
    requires Valid(layout) && Plannable(spec, cpu, layout.refs, factor) && DistinctIds(cpu)
    requires AllFit(layout, shapes, factor, Plan(spec, cpu, layout.refs, factor))
    ensures var spans := Spans(layout, shapes, factor, Plan(spec, cpu, layout.refs, factor));
      && AllDisjoint(spans)
      && forall span :: span in spans ==>
           && span.cpu.allocation < |layout.pages| && span.cpu.allocation < |shapes|
           && 0 <= span.cpu.block < shapes[span.cpu.allocation]
           && span.offset + span.width <= factor * layout.pages[span.cpu.allocation]
  {
    var items := Plan(spec, cpu, layout.refs, factor);
    var spans := Spans(layout, shapes, factor, items);
    GroupsOwnAllocations(layout);
    PlanApart(Place(layout), spec, cpu, layout.refs, factor);
    SpansDisjoint(layout, shapes, factor, items);
    forall span | span in spans
      ensures span.cpu.allocation < |layout.pages| && span.cpu.allocation < |shapes|
      ensures 0 <= span.cpu.block < shapes[span.cpu.allocation]
      ensures span.offset + span.width <= factor * layout.pages[span.cpu.allocation]
    {
      SpanMembers(layout, shapes, factor, items, span);
      var item :| item in items && SpanOfItem(layout, shapes, factor, item, span);
      var view: nat :| view < Views(layout, item) && span == SpanAt(layout, item, view);
      SpanInSub(layout, shapes, factor, item, view);
    }
  }

  /* ---- how many bytes ---- */

  function SpanBytes(spans: seq<Span>): nat {
    if spans == [] then 0 else SpanBytes(spans[..|spans| - 1]) + spans[|spans| - 1].width
  }

  lemma {:induction false} SpanBytesAppend(a: seq<Span>, b: seq<Span>)
    ensures SpanBytes(a + b) == SpanBytes(a) + SpanBytes(b)
  {
    if b == [] {
      assert a + b == a;
    } else {
      SpanBytesAppend(a, b[..|b| - 1]);
      assert (a + b)[..|a + b| - 1] == a + b[..|b| - 1];
    }
  }

  lemma {:induction false} ItemSpansBytes(layout: Layout, item: Item, n: nat)
    requires item.layer < |layout.layers| && layout.layers[item.layer].allocation < |layout.pages|
    requires n <= |layout.layers[item.layer].widths|
    ensures SpanBytes(ItemSpans(layout, item, n)) == Sum(layout.layers[item.layer].widths[..n])
  {
    if n > 0 {
      ItemSpansBytes(layout, item, n - 1);
      SpanBytesAppend(ItemSpans(layout, item, n - 1), [SpanAt(layout, item, n - 1)]);
      assert SpanBytes([SpanAt(layout, item, n - 1)]) == SpanBytes([SpanAt(layout, item, n - 1)][..0]) + SpanAt(layout, item, n - 1).width;
      SumNext(layout.layers[item.layer].widths, n - 1);
    }
  }

  lemma {:induction false} SpansBytes(layout: Layout, shapes: seq<nat>, factor: nat, items: seq<Item>)
    requires AllFit(layout, shapes, factor, items)
    ensures SpanBytes(Spans(layout, shapes, factor, items)) == Bytes(items)
  {
    if items != [] {
      var n := |items| - 1;
      var last := items[n];
      assert last in items;
      SpansBytes(layout, shapes, factor, items[..n]);
      ItemSpansBytes(layout, last, Views(layout, last));
      var widths := layout.layers[last.layer].widths;
      assert widths[..|widths|] == widths;
      SpanBytesAppend(Spans(layout, shapes, factor, items[..n]), ItemSpans(layout, last, Views(layout, last)));
    }
  }

  /** A transfer's reported size: for each group, its blocks times the bytes of its layers. */
  lemma TransferSize(layout: Layout, shapes: seq<nat>, factor: nat, spec: DeviceSpec, cpu: seq<int>)
    requires Plannable(spec, cpu, layout.refs, factor)
    requires AllFit(layout, shapes, factor, Plan(spec, cpu, layout.refs, factor))
    ensures SpanBytes(Spans(layout, shapes, factor, Plan(spec, cpu, layout.refs, factor)))
         == TotalBytes(spec, layout.refs, |layout.refs|)
  {
    SpansBytes(layout, shapes, factor, Plan(spec, cpu, layout.refs, factor));
    forall g: nat | g < |layout.refs| ensures Fits(spec, cpu, g, factor) {
      PlannableFits(spec, cpu, layout.refs, factor, g);
    }
    PlanBytes(spec, cpu, layout.refs, |layout.refs|, factor);
  }

  /* ---- canonical tensors ---- */

  /** An item that can be copied between whole tensors: `pages` are their bytes for a block, and an item
      may use only the first bytes of its page. */
  predicate TensorItemFits(pages: seq<nat>, counts: seq<nat>, shapes: seq<nat>, item: Item) {
    && item.layer < |pages| == |counts| == |shapes|
    && 0 <= item.device < counts[item.layer] && 0 <= item.cpu < shapes[item.layer]
    && 0 < item.size <= pages[item.layer]
  }

  function TensorSpan(pages: seq<nat>, item: Item): Span
    requires item.layer < |pages|
  {
    Span(Row(item.layer, 0, item.device), CpuBlock(item.layer, item.cpu), item.sub * pages[item.layer], item.size)
  }

  lemma TensorSpansApart(pages: seq<nat>, a: Item, b: Item)
    requires a.layer < |pages| && b.layer < |pages| && a.size <= pages[a.layer] && b.size <= pages[b.layer]
    requires a.layer != b.layer || a.cpu != b.cpu || a.sub != b.sub
    ensures Disjoint(TensorSpan(pages, a), TensorSpan(pages, b))
  {
    if a.layer == b.layer {
      var page := pages[a.layer];
      Distribute(page, a.sub, 1);
      Distribute(page, b.sub, 1);
      if a.sub < b.sub {
        Times(b.sub, a.sub + 1, page);
      } else if b.sub < a.sub {
        Times(a.sub, b.sub + 1, page);
      }
    }
  }

  /** Between canonical tensors, too, the CPU spans of a transfer are in bounds and do not overlap, if its
      CPU blocks are distinct and no group names a tensor twice. */
  lemma TensorTransferSpans(pages: seq<nat>, counts: seq<nat>, shapes: seq<nat>, factor: nat,
                            spec: DeviceSpec, cpu: seq<int>, refs: seq<seq<Ref>>)
    requires Plannable(spec, cpu, refs, factor) && DistinctIds(cpu)
    requires forall g :: 0 <= g < |refs| ==> OwnAllocations(seq(|pages|, k => k), refs[g])
    requires forall item :: item in Plan(spec, cpu, refs, factor) ==> TensorItemFits(pages, counts, shapes, item) && item.sub < factor
    ensures forall item :: item in Plan(spec, cpu, refs, factor) ==> TensorSpanInside(pages, shapes, factor, item)
    ensures forall i, j :: 0 <= i < j < |Plan(spec, cpu, refs, factor)| ==>
              TensorItemsApart(pages, Plan(spec, cpu, refs, factor)[i], Plan(spec, cpu, refs, factor)[j])
  {
    var items, place := Plan(spec, cpu, refs, factor), seq(|pages|, k => k);
    PlanApart(place, spec, cpu, refs, factor);
    forall item | item in items ensures TensorSpanInside(pages, shapes, factor, item) {
      Distribute(pages[item.layer], item.sub, 1);
      Times(factor, item.sub + 1, pages[item.layer]);
    }
    forall i, j | 0 <= i < j < |items| ensures TensorItemsApart(pages, items[i], items[j]) {
      assert items[i] in items && items[j] in items;
      assert SlotOf(place, items[i]) != SlotOf(place, items[j]);
      TensorSpansApart(pages, items[i], items[j]);
    }
  }

  /** An item's bytes lie in a CPU block that exists, and inside it. */
  predicate TensorSpanInside(pages: seq<nat>, shapes: seq<nat>, factor: nat, item: Item) {
    && item.layer < |pages| && item.layer < |shapes| && 0 <= item.cpu < shapes[item.layer]
    && TensorSpan(pages, item).offset + item.size <= factor * pages[item.layer]
  }

  predicate TensorItemsApart(pages: seq<nat>, a: Item, b: Item) {
    a.layer < |pages| && b.layer < |pages| && Disjoint(TensorSpan(pages, a), TensorSpan(pages, b))
  }
}
