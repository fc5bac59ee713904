/** Building a layout from the runner's caches, and refusing those whose spans could overlap. */
module AscendLayouts {
  import opened Wrappers
  import opened CopyPlans
  import opened CopySpans

  type Name = nat

  /** One allocation: its bytes, its stride when blocks are packed, and the layers that share it. */
  datatype Allocation = Allocation(size: nat, blockStride: nat, sharedBy: seq<Name>)

  /** One cache view: can it be seen as bytes without a copy, and how do its rows lie? */
  datatype Tensor = Tensor(viewable: bool, bytes: nat, rowStride: nat, unitColumns: bool)

  /** What a group says about one layer: is the kind of cache supported, and how many bytes has a page? */
  datatype CacheSpec = CacheSpec(supported: bool, pageBytes: nat)

  datatype CacheGroup = CacheGroup(names: seq<Name>, specs: map<Name, CacheSpec>)

  datatype Config = Config(count: int, allocations: seq<Allocation>, groups: seq<CacheGroup>)

  datatype LayoutError =
    | NoBlocks | Uneven | InTwoAllocations | UnknownLayer | Unsupported | SharedAllocation | MissingTensors | BadRows | TooLarge

  /* ---- allocations ---- */

  function AllTo(names: seq<Name>, k: nat): map<Name, nat> {
    map name | name in names :: k
  }

  /** Which allocation each layer has, by the first `n` of them. */
  function Owners(allocations: seq<Allocation>, n: nat): map<Name, nat>
    requires n <= |allocations|
  {
    if n == 0 then map[]
    else Owners(allocations, n - 1) + AllTo(allocations[n - 1].sharedBy, n - 1)
  }

  predicate DistinctNames(names: seq<Name>) {
    forall i, j :: 0 <= i < j < |names| ==> names[i] != names[j]
  }

  /** Blocks are not packed and have equal pages, and no layer is named twice. */
  predicate AllocationsOk(count: nat, allocations: seq<Allocation>, n: nat)
    requires 0 < count && n <= |allocations|
  {
    n == 0 || (
      && AllocationsOk(count, allocations, n - 1)
      && var a := allocations[n - 1];
      && a.blockStride == 0 && a.size % count == 0 && DistinctNames(a.sharedBy)
      && forall name :: name in a.sharedBy ==> name !in Owners(allocations, n - 1))
  }

  function Pages(count: nat, allocations: seq<Allocation>): seq<nat>
    requires 0 < count
  {
    seq(|allocations|, k requires 0 <= k < |allocations| => allocations[k].size / count)
  }

  lemma {:induction false} AllocationsOkBefore(count: nat, allocations: seq<Allocation>, k: nat, n: nat)
    requires 0 < count && k <= n <= |allocations| && AllocationsOk(count, allocations, n)
    ensures AllocationsOk(count, allocations, k)
    decreases n
  {
    if k < n {
      AllocationsOkBefore(count, allocations, k, n - 1);
    }
  }

  lemma {:induction false} OwnersInRange(allocations: seq<Allocation>, n: nat)
    requires n <= |allocations|
    ensures forall name :: name in Owners(allocations, n) ==> Owners(allocations, n)[name] < n
  {
    if n > 0 {
      OwnersInRange(allocations, n - 1);
    }
  }

  method Allocate(count: nat, allocations: seq<Allocation>) returns (r: Result<(seq<nat>, map<Name, nat>), LayoutError>)
    requires 0 < count
    ensures r.Ok? <==> AllocationsOk(count, allocations, |allocations|)
    ensures r.Ok? ==> r.value == (Pages(count, allocations), Owners(allocations, |allocations|))
    ensures r.Err? ==> !r.error.NoBlocks?
  {
    var pages: seq<nat> := [];
    var owner: map<Name, nat> := map[];
    for k := 0 to |allocations|
      invariant AllocationsOk(count, allocations, k)
      invariant |pages| == k && (forall j :: 0 <= j < k ==> pages[j] == allocations[j].size / count)
      invariant owner == Owners(allocations, k)
    {
      var a := allocations[k];
      if a.blockStride != 0 || a.size % count != 0 {
        NotOk(count, allocations, k);
        return Err(Uneven);
      }
      pages := pages + [a.size / count];
      var named := NameAll(owner, a.sharedBy, k);
      if named.None? {
        NotOk(count, allocations, k);
        return Err(InTwoAllocations);
      }
      owner := named.value;
    }
    assert pages == Pages(count, allocations);
    r := Ok((pages, owner));
  }

  lemma NotOk(count: nat, allocations: seq<Allocation>, k: nat)
    requires 0 < count && k < |allocations| && !AllocationsOk(count, allocations, k + 1)
    ensures !AllocationsOk(count, allocations, |allocations|)
  {
    if AllocationsOk(count, allocations, |allocations|) {
      AllocationsOkBefore(count, allocations, k + 1, |allocations|);
    }
  }

  lemma AllToNext(owner: map<Name, nat>, names: seq<Name>, i: nat, k: nat)
    requires i < |names|
    ensures owner + AllTo(names[..i + 1], k) == (owner + AllTo(names[..i], k))[names[i] := k]
    ensures names[i] in owner + AllTo(names[..i], k) <==> names[i] in owner || names[i] in names[..i]
  {
    assert names[..i + 1] == names[..i] + [names[i]];
  }

  /** Gives an allocation's layers their index, unless one of them has an index already. */
  method NameAll(owner: map<Name, nat>, names: seq<Name>, k: nat) returns (r: Option<map<Name, nat>>)
    ensures r.Some? <==> DistinctNames(names) && forall name :: name in names ==> name !in owner
    ensures r.Some? ==> r.value == owner + AllTo(names, k)
  {
    var all := owner;
    for i := 0 to |names|
      invariant DistinctNames(names[..i]) && forall name :: name in names[..i] ==> name !in owner
      invariant all == owner + AllTo(names[..i], k)
    {
      assert names[..i + 1] == names[..i] + [names[i]];
      AllToNext(owner, names, i, k);
      if names[i] in all {
        assert names[i] in names;
        return None;
      }
      all := all[names[i] := k];
    }
    assert names[..|names|] == names;
    r := Some(all);
  }

  /* ---- layers ---- */

  predicate TensorOk(count: nat, t: Tensor)
    requires 0 < count
  {
    && t.viewable && 0 < t.bytes && t.bytes % count == 0
    && t.unitColumns && t.bytes / count <= t.rowStride
  }

  function Widths(count: nat, tensors: seq<Tensor>): seq<nat>
    requires 0 < count
  {
    seq(|tensors|, i requires 0 <= i < |tensors| => tensors[i].bytes / count)
  }

  /** The bytes that each view has for a block, if each can be seen as separate rows of bytes. */
  method ViewRows(count: nat, tensors: seq<Tensor>) returns (r: Result<seq<nat>, LayoutError>)
    requires 0 < count
    ensures r.Ok? <==> tensors != [] && forall t :: t in tensors ==> TensorOk(count, t)
    ensures r.Ok? ==> r.value == Widths(count, tensors)
    ensures r.Err? ==> !r.error.NoBlocks?
  {
    if tensors == [] {
      return Err(MissingTensors);
    }
    var widths: seq<nat> := [];
    for i := 0 to |tensors|
      invariant |widths| == i && forall j :: 0 <= j < i ==> TensorOk(count, tensors[j]) && widths[j] == tensors[j].bytes / count
    {
      var t := tensors[i];
      assert t in tensors;
      if !t.viewable || t.bytes == 0 || t.bytes % count != 0 || !t.unitColumns || t.rowStride < t.bytes / count {
        return Err(BadRows);
      }
      widths := widths + [t.bytes / count];
    }
    r := Ok(widths);
  }

  method Total(widths: seq<nat>) returns (size: nat)
    ensures size == Sum(widths)
  {
    size := 0;
    for i := 0 to |widths|
      invariant size == Sum(widths[..i])
    {
      assert widths[..i + 1][..i] == widths[..i];
      size := size + widths[i];
    }
    assert widths[..|widths|] == widths;
  }

  /** A layer that can be used: known everywhere, of a supported kind, with byte rows that fit its page. */
  predicate LayerOk(count: nat, pages: seq<nat>, owner: map<Name, nat>, group: CacheGroup, caches: map<Name, seq<Tensor>>, name: Name)
    requires 0 < count && forall n :: n in owner ==> owner[n] < |pages|
  {
    && name in group.specs && group.specs[name].supported && name in owner && name in caches
    && caches[name] != [] && (forall t :: t in caches[name] ==> TensorOk(count, t))
    && var size := Sum(Widths(count, caches[name]));
    && 0 < size <= pages[owner[name]] && size <= group.specs[name].pageBytes
  }

  method BuildLayer(count: nat, pages: seq<nat>, owner: map<Name, nat>, group: CacheGroup, caches: map<Name, seq<Tensor>>,
                    name: Name, used: set<nat>) returns (r: Result<Layer, LayoutError>)
    requires 0 < count && forall n :: n in owner ==> owner[n] < |pages|
    ensures r.Ok? <==> LayerOk(count, pages, owner, group, caches, name) && owner[name] !in used
    ensures r.Ok? ==> r.value == Layer(owner[name], Widths(count, caches[name]))
    ensures r.Err? ==> !r.error.NoBlocks?
  {
    if name !in group.specs {
      return Err(UnknownLayer);
    }
    var spec := group.specs[name];
    if !spec.supported {
      return Err(Unsupported);
    }
    if name !in owner {
      return Err(UnknownLayer);
    }
    var index := owner[name];
    if index in used {
      return Err(SharedAllocation);
    }
    if name !in caches {
      return Err(UnknownLayer);
    }
    var rows := ViewRows(count, caches[name]);
    if rows.Err? {
      return Err(rows.error);
    }
    var size := Total(rows.value);
    if size <= 0 || size > pages[index] || size > spec.pageBytes {
      return Err(TooLarge);
    }
    r := Ok(Layer(index, rows.value));
  }

  /* ---- groups ---- */

  /** A group that can be used: its first `n` layers can, and have allocations of their own. */
  predicate GroupOk(count: nat, pages: seq<nat>, owner: map<Name, nat>, group: CacheGroup, caches: map<Name, seq<Tensor>>, n: nat)
    requires 0 < count && (forall m :: m in owner ==> owner[m] < |pages|) && n <= |group.names|
  {
    && (forall i :: 0 <= i < n ==> LayerOk(count, pages, owner, group, caches, group.names[i]))
    && (forall i, j :: 0 <= i < j < n ==> owner[group.names[i]] != owner[group.names[j]])
  }

  /** The references of a group under construction name its layers, one each. */
  ghost predicate GroupBuilt(mine: seq<Layer>, first: nat, refs: seq<Ref>) {
    && |refs| == |mine|
    && (forall i :: 0 <= i < |refs| ==> refs[i] == Ref(first + i, Sum(mine[i].widths)))
    && (forall i, j :: 0 <= i < j < |mine| ==> mine[i].allocation != mine[j].allocation)
  }

  method BuildGroup(count: nat, pages: seq<nat>, owner: map<Name, nat>, group: CacheGroup, caches: map<Name, seq<Tensor>>,
                    before: seq<Layer>, ghost refs: seq<seq<Ref>>)
    returns (r: Result<(seq<Layer>, seq<Ref>), LayoutError>)
    requires 0 < count && (forall n :: n in owner ==> owner[n] < |pages|) && Valid(Layout(count, pages, before, refs))
    ensures r.Ok? <==> GroupOk(count, pages, owner, group, caches, |group.names|)
    ensures r.Err? ==> !r.error.NoBlocks?
    ensures r.Ok? ==>
              && Valid(Layout(count, pages, before + r.value.0, refs + [r.value.1]))
              && Names(count, owner, group, caches, before + r.value.0, r.value.1)
  {
    var listed := ListLayers(count, pages, owner, group, caches);
    if listed.Err? {
      return Err(listed.error);
    }
    var layers := listed.value;
    var mine: seq<Ref> := [];
    for i := 0 to |layers|
      invariant |mine| == i && forall j :: 0 <= j < i ==> mine[j] == Ref(|before| + j, Sum(layers[j].widths))
    {
      var size := Total(layers[i].widths);
      mine := mine + [Ref(|before| + i, size)];
    }
    GroupLayersValid(count, pages, owner, group, caches, layers, |before|, mine);
    GroupJoins(count, pages, before, layers, refs, mine);
    r := Ok((layers, mine));
  }

  method ListLayers(count: nat, pages: seq<nat>, owner: map<Name, nat>, group: CacheGroup, caches: map<Name, seq<Tensor>>)
    returns (r: Result<seq<Layer>, LayoutError>)
    requires 0 < count && forall n :: n in owner ==> owner[n] < |pages|
    ensures r.Ok? <==> GroupOk(count, pages, owner, group, caches, |group.names|)
    ensures r.Ok? ==> GroupLayers(count, owner, group, caches, r.value)
    ensures r.Err? ==> !r.error.NoBlocks?
  {
    var layers: seq<Layer> := [];
    var used: set<nat> := {};
    for i := 0 to |group.names|
      invariant GroupOk(count, pages, owner, group, caches, i)
      invariant forall a :: a in used <==> exists j :: 0 <= j < i && owner[group.names[j]] == a
      invariant |layers| == i
      invariant forall j :: 0 <= j < i ==> layers[j] == Layer(owner[group.names[j]], Widths(count, caches[group.names[j]]))
    {
      var built := BuildLayer(count, pages, owner, group, caches, group.names[i], used);
      if built.Err? {
        return Err(built.error);
      }
      used := used + {built.value.allocation};
      layers := layers + [built.value];
    }
    r := Ok(layers);
  }

  /** A group's references lead, in the order of its names, to each layer's allocation and views. */
  predicate Names(count: nat, owner: map<Name, nat>, group: CacheGroup, caches: map<Name, seq<Tensor>>, layers: seq<Layer>, refs: seq<Ref>)
    requires 0 < count
  {
    && |refs| == |group.names|
    && forall i :: 0 <= i < |refs| ==>
         && group.names[i] in owner && group.names[i] in caches && refs[i].layer < |layers|
         && layers[refs[i].layer] == Layer(owner[group.names[i]], Widths(count, caches[group.names[i]]))
  }

  /** The layers of a group, in the order of its names. */
  predicate GroupLayers(count: nat, owner: map<Name, nat>, group: CacheGroup, caches: map<Name, seq<Tensor>>, layers: seq<Layer>)
    requires 0 < count
  {
    && |layers| == |group.names|
    && forall i :: 0 <= i < |layers| ==>
         && group.names[i] in owner && group.names[i] in caches
         && layers[i] == Layer(owner[group.names[i]], Widths(count, caches[group.names[i]]))
  }

  lemma GroupLayersValid(count: nat, pages: seq<nat>, owner: map<Name, nat>, group: CacheGroup, caches: map<Name, seq<Tensor>>,
                         layers: seq<Layer>, first: nat, mine: seq<Ref>)
    requires 0 < count && forall n :: n in owner ==> owner[n] < |pages|
    requires GroupOk(count, pages, owner, group, caches, |group.names|) && GroupLayers(count, owner, group, caches, layers)
    requires |mine| == |layers| && forall j :: 0 <= j < |mine| ==> mine[j] == Ref(first + j, Sum(layers[j].widths))
    ensures GroupBuilt(layers, first, mine)
    ensures forall l :: 0 <= l < |layers| ==> LayerFits(pages, layers[l])
  {
    forall i | 0 <= i < |layers|
      ensures group.names[i] in owner && layers[i].allocation == owner[group.names[i]] && LayerFits(pages, layers[i])
    {
      assert LayerOk(count, pages, owner, group, caches, group.names[i]);
    }
  }

  predicate LayerFits(pages: seq<nat>, layer: Layer) {
    layer.allocation < |pages| && 0 < Sum(layer.widths) <= pages[layer.allocation]
  }

  lemma GroupJoins(count: nat, pages: seq<nat>, before: seq<Layer>, layers: seq<Layer>, refs: seq<seq<Ref>>, mine: seq<Ref>)
    requires Valid(Layout(count, pages, before, refs)) && GroupBuilt(layers, |before|, mine)
    requires forall l :: 0 <= l < |layers| ==> LayerFits(pages, layers[l])
    ensures Valid(Layout(count, pages, before + layers, refs + [mine]))
  {
    var was, now := Layout(count, pages, before, refs), Layout(count, pages, before + layers, refs + [mine]);
    forall l | 0 <= l < |now.layers| ensures LayerValid(now, now.layers[l]) {
      if l < |before| {
        assert LayerValid(was, before[l]);
      } else {
        assert LayerFits(pages, layers[l - |before|]);
      }
    }
    forall g | 0 <= g < |refs| ensures GroupValid(now, refs[g]) {
      OldGroupValid(was, now, refs[g]);
    }
    NewGroupValid(now, before, layers, mine);
    forall g, h | 0 <= g < h < |now.refs| ensures LayersApart(now.refs[g], now.refs[h]) {
      if h < |refs| {
        assert LayersApart(refs[g], refs[h]);
      } else {
        assert GroupValid(was, refs[g]);
      }
    }
  }

  lemma OldGroupValid(was: Layout, now: Layout, refs: seq<Ref>)
    requires GroupValid(was, refs) && |was.layers| <= |now.layers| && now.layers[..|was.layers|] == was.layers
    ensures GroupValid(now, refs)
  {
    forall ref | ref in refs ensures ref.layer < |was.layers| && now.layers[ref.layer] == was.layers[ref.layer] {
      assert now.layers[..|was.layers|][ref.layer] == now.layers[ref.layer];
    }
    forall i | 0 <= i < |refs| ensures refs[i].layer < |was.layers| && Place(now)[refs[i].layer] == Place(was)[refs[i].layer] {
      assert refs[i] in refs;
    }
  }

  lemma NewGroupValid(now: Layout, before: seq<Layer>, layers: seq<Layer>, mine: seq<Ref>)
    requires now.layers == before + layers && GroupBuilt(layers, |before|, mine)
    ensures GroupValid(now, mine)
  {
    forall i | 0 <= i < |mine|
      ensures mine[i].layer < |Place(now)| && Place(now)[mine[i].layer] == layers[i].allocation
      ensures mine[i].size == Sum(now.layers[mine[i].layer].widths)
    {
      assert mine[i] == Ref(|before| + i, Sum(layers[i].widths));
      assert now.layers[|before| + i] == layers[i];
    }
    forall ref | ref in mine ensures ref.layer < |now.layers| && ref.size == Sum(now.layers[ref.layer].widths) {
      var i :| 0 <= i < |mine| && mine[i] == ref;
    }
  }

  lemma StillNames(count: nat, owner: map<Name, nat>, group: CacheGroup, caches: map<Name, seq<Tensor>>, layers: seq<Layer>,
                   more: seq<Layer>, refs: seq<Ref>)
    requires 0 < count && Names(count, owner, group, caches, layers, refs)
    ensures Names(count, owner, group, caches, layers + more, refs)
  {
  }

  /** The caches that can be used. */
  predicate Usable(config: Config, caches: map<Name, seq<Tensor>>) {
    && 0 < config.count
    && AllocationsOk(config.count, config.allocations, |config.allocations|)
    && GroupsOk(config, caches, |config.groups|)
  }

  predicate GroupsOk(config: Config, caches: map<Name, seq<Tensor>>, n: nat)
    requires 0 < config.count && n <= |config.groups|
  {
    OwnersInRange(config.allocations, |config.allocations|);
    forall g :: 0 <= g < n ==>
      GroupOk(config.count, Pages(config.count, config.allocations), Owners(config.allocations, |config.allocations|),
              config.groups[g], caches, |config.groups[g].names|)
  }

  /** Builds the layout exactly when the caches can be used. What it builds is valid: layers fit their pages
      and have allocations of their own within each group, which is what keeps the spans of a transfer apart. */
  method BuildLayout(config: Config, caches: map<Name, seq<Tensor>>) returns (r: Result<Layout, LayoutError>)
    ensures r.Ok? <==> Usable(config, caches)
    ensures r == Err(NoBlocks) <==> config.count <= 0
    ensures r.Ok? ==>
              && Valid(r.value) && r.value.count == config.count
              && r.value.pages == Pages(config.count, config.allocations) && |r.value.refs| == |config.groups|
              && (forall g :: 0 <= g < |config.groups| ==>
                    Names(config.count, Owners(config.allocations, |config.allocations|), config.groups[g], caches,
                          r.value.layers, r.value.refs[g]))
  {
    if config.count <= 0 {
      return Err(NoBlocks);
    }
    var count: nat := config.count;
    var shared := Allocate(count, config.allocations);
    if shared.Err? {
      return Err(shared.error);
    }
    var (pages, owner) := shared.value;
    OwnersInRange(config.allocations, |config.allocations|);
    var layers: seq<Layer> := [];
    var refs: seq<seq<Ref>> := [];
    for g := 0 to |config.groups|
      invariant Valid(Layout(count, pages, layers, refs)) && |refs| == g
      invariant GroupsOk(config, caches, g)
      invariant forall h :: 0 <= h < g ==> Names(count, owner, config.groups[h], caches, layers, refs[h])
    {
      var built := BuildGroup(count, pages, owner, config.groups[g], caches, layers, refs);
      if built.Err? {
        return Err(built.error);
      }
      var (more, mine) := built.value;
      forall h | 0 <= h < g ensures Names(count, owner, config.groups[h], caches, layers + more, refs[h]) {
        StillNames(count, owner, config.groups[h], caches, layers, more, refs[h]);
      }
      layers, refs := layers + more, refs + [mine];
    }
    r := Ok(Layout(count, pages, layers, refs));
  }
}
