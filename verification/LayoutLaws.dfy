/** The caches from which a layout is built, condition by condition. */
module LayoutLaws {
  import opened Wrappers
  import opened CopyPlans
  import opened CopySpans
  import opened AscendLayouts

  /** Every allocation has a page of its own for each block. */
  predicate EvenPages(config: Config) {
    forall k :: 0 <= k < |config.allocations| ==>
      config.allocations[k].blockStride == 0 && 0 < config.count && config.allocations[k].size % config.count == 0
  }

  /** No layer is named twice, by two allocations or by one. */
  predicate NamedOnce(allocations: seq<Allocation>, n: nat)
    requires n <= |allocations|
  {
    forall k, i, l, j ::
      0 <= k < n && 0 <= i < |allocations[k].sharedBy| && 0 <= l < n && 0 <= j < |allocations[l].sharedBy| && (k != l || i != j) ==>
        allocations[k].sharedBy[i] != allocations[l].sharedBy[j]
  }

  lemma {:induction false} OwnersNamed(allocations: seq<Allocation>, n: nat, name: Name)
    requires n <= |allocations|
    ensures name in Owners(allocations, n) <==> exists k :: 0 <= k < n && name in allocations[k].sharedBy
  {
    if n > 0 {
      OwnersNamed(allocations, n - 1, name);
    }
  }

  /** A layer's allocation is the one that names it. */
  lemma {:induction false} OwnerNames(allocations: seq<Allocation>, n: nat, name: Name)
    requires n <= |allocations| && name in Owners(allocations, n)
    ensures Owners(allocations, n)[name] < n && name in allocations[Owners(allocations, n)[name]].sharedBy
  {
    if name !in allocations[n - 1].sharedBy {
      OwnerNames(allocations, n - 1, name);
    }
  }

  lemma {:induction false} AllocationsExactly(count: nat, allocations: seq<Allocation>, n: nat)
    requires 0 < count && n <= |allocations|
    ensures AllocationsOk(count, allocations, n) <==>
              && (forall k :: 0 <= k < n ==> allocations[k].blockStride == 0 && allocations[k].size % count == 0)
              && NamedOnce(allocations, n)
  {
    if n > 0 {
      AllocationsExactly(count, allocations, n - 1);
      NamedOnceNext(allocations, n);
    }
  }

  predicate NoneIn(names: seq<Name>, owner: map<Name, nat>) {
    forall name :: name in names ==> name !in owner
  }

  lemma NamedOnceNext(allocations: seq<Allocation>, n: nat)
    requires 0 < n <= |allocations|
    ensures NamedOnce(allocations, n) <==>
              && NamedOnce(allocations, n - 1) && DistinctNames(allocations[n - 1].sharedBy)
              && NoneIn(allocations[n - 1].sharedBy, Owners(allocations, n - 1))
  {
    var last := allocations[n - 1].sharedBy;
    if NamedOnce(allocations, n) {
      forall name | name in last ensures name !in Owners(allocations, n - 1) {
        OwnersNamed(allocations, n - 1, name);
        var i :| 0 <= i < |last| && last[i] == name;
      }
    }
    if NamedOnce(allocations, n - 1) && DistinctNames(last) && NoneIn(last, Owners(allocations, n - 1)) {
      forall k, i, l, j | 0 <= k < n && 0 <= i < |allocations[k].sharedBy| && 0 <= l < n && 0 <= j < |allocations[l].sharedBy|
          && (k != l || i != j)
        ensures allocations[k].sharedBy[i] != allocations[l].sharedBy[j]
      {
        OwnersNamed(allocations, n - 1, allocations[k].sharedBy[i]);
        OwnersNamed(allocations, n - 1, allocations[l].sharedBy[j]);
        assert allocations[k].sharedBy[i] in allocations[k].sharedBy && allocations[l].sharedBy[j] in allocations[l].sharedBy;
      }
    }
  }

  /** The bytes of the first `n` views for one block. */
  function BytesOf(tensors: seq<Tensor>, count: nat, n: nat): nat
    requires 0 < count && n <= |tensors|
  {
    if n == 0 then 0 else BytesOf(tensors, count, n - 1) + tensors[n - 1].bytes / count
  }

  lemma {:induction false} WidthsAdd(count: nat, tensors: seq<Tensor>, n: nat)
    requires 0 < count && n <= |tensors|
    ensures Sum(Widths(count, tensors)[..n]) == BytesOf(tensors, count, n)
  {
    if n > 0 {
      WidthsAdd(count, tensors, n - 1);
      var all := Widths(count, tensors);
      assert all[..n][..n - 1] == all[..n - 1];
    }
  }

  /** A layer that can be used, in allocation `k`. */
  predicate LayerUsable(config: Config, group: CacheGroup, caches: map<Name, seq<Tensor>>, name: Name, k: nat)
    requires 0 < config.count
  {
    && k < |config.allocations| && name in config.allocations[k].sharedBy
    && name in group.specs && group.specs[name].supported
    && name in caches && caches[name] != []
    && (forall i :: 0 <= i < |caches[name]| ==>
          var t := caches[name][i];
          && t.viewable && t.unitColumns && 0 < t.bytes && t.bytes % config.count == 0
          && t.bytes / config.count <= t.rowStride)
    && var size := BytesOf(caches[name], config.count, |caches[name]|);
    && 0 < size && size <= config.allocations[k].size / config.count && size <= group.specs[name].pageBytes
  }

  lemma LayerExactly(config: Config, group: CacheGroup, caches: map<Name, seq<Tensor>>, name: Name)
    requires 0 < config.count && AllocationsOk(config.count, config.allocations, |config.allocations|)
    requires forall n :: n in Owners(config.allocations, |config.allocations|) ==>
               Owners(config.allocations, |config.allocations|)[n] < |Pages(config.count, config.allocations)|
    ensures var owner := Owners(config.allocations, |config.allocations|);
      LayerOk(config.count, Pages(config.count, config.allocations), owner, group, caches, name) <==>
        name in owner && LayerUsable(config, group, caches, name, owner[name])
  {
    var owner := Owners(config.allocations, |config.allocations|);
    if name in owner {
      OwnerNames(config.allocations, |config.allocations|, name);
    }
    if name in caches {
      WidthsAdd(config.count, caches[name], |caches[name]|);
      assert Widths(config.count, caches[name])[..|caches[name]|] == Widths(config.count, caches[name]);
      forall i | 0 <= i < |caches[name]| ensures caches[name][i] in caches[name] {
      }
    }
  }

  /** The allocation of each layer of a group. */
  ghost predicate GroupUsable(config: Config, group: CacheGroup, caches: map<Name, seq<Tensor>>, at: seq<nat>)
    requires 0 < config.count
  {
    && |at| == |group.names|
    && (forall i :: 0 <= i < |at| ==> LayerUsable(config, group, caches, group.names[i], at[i]))
    && (forall i, j :: 0 <= i < j < |at| ==> at[i] != at[j])
  }

  lemma GroupExactly(config: Config, group: CacheGroup, caches: map<Name, seq<Tensor>>)
    requires 0 < config.count && AllocationsOk(config.count, config.allocations, |config.allocations|)
    requires forall n :: n in Owners(config.allocations, |config.allocations|) ==>
               Owners(config.allocations, |config.allocations|)[n] < |Pages(config.count, config.allocations)|
    ensures GroupOk(config.count, Pages(config.count, config.allocations), Owners(config.allocations, |config.allocations|),
                    group, caches, |group.names|) <==>
              exists at :: GroupUsable(config, group, caches, at)
  {
    var pages, owner := Pages(config.count, config.allocations), Owners(config.allocations, |config.allocations|);
    forall i | 0 <= i < |group.names|
      ensures LayerOk(config.count, pages, owner, group, caches, group.names[i]) <==>
                group.names[i] in owner && LayerUsable(config, group, caches, group.names[i], owner[group.names[i]])
    {
      LayerExactly(config, group, caches, group.names[i]);
    }
    if GroupOk(config.count, pages, owner, group, caches, |group.names|) {
      forall i | 0 <= i < |group.names| ensures group.names[i] in owner {
        assert LayerOk(config.count, pages, owner, group, caches, group.names[i]);
      }
      var at := seq(|group.names|, i requires 0 <= i < |group.names| && group.names[i] in owner => owner[group.names[i]]);
      assert GroupUsable(config, group, caches, at);
    }
    if at :| GroupUsable(config, group, caches, at) {
      forall i | 0 <= i < |at| ensures group.names[i] in owner && owner[group.names[i]] == at[i] {
        assert LayerUsable(config, group, caches, group.names[i], at[i]);
        OwnersNamed(config.allocations, |config.allocations|, group.names[i]);
        OwnerNames(config.allocations, |config.allocations|, group.names[i]);
        OneOwner(config, group.names[i], at[i], owner[group.names[i]]);
      }
    }
  }

  lemma OneOwner(config: Config, name: Name, k: nat, l: nat)
    requires 0 < config.count && AllocationsOk(config.count, config.allocations, |config.allocations|)
    requires k < |config.allocations| && l < |config.allocations|
    requires name in config.allocations[k].sharedBy && name in config.allocations[l].sharedBy
    ensures k == l
  {
    AllocationsExactly(config.count, config.allocations, |config.allocations|);
    var i :| 0 <= i < |config.allocations[k].sharedBy| && config.allocations[k].sharedBy[i] == name;
    var j :| 0 <= j < |config.allocations[l].sharedBy| && config.allocations[l].sharedBy[j] == name;
  }

  /** A layout is built if and only if: there are blocks; no allocation is packed or uneven; no layer is named
      twice; and each group's layers lie in allocations of their own, are of a supported kind, and have views
      of separate byte rows, which together fit the allocation's page and the page of the layer's kind. */
  lemma UsableExactly(config: Config, caches: map<Name, seq<Tensor>>)
    ensures Usable(config, caches) <==>
              && 0 < config.count && EvenPages(config) && NamedOnce(config.allocations, |config.allocations|)
              && forall g :: 0 <= g < |config.groups| ==> GroupCan(config, config.groups[g], caches)
  {
    if 0 < config.count {
      AllocationsExactly(config.count, config.allocations, |config.allocations|);
      if AllocationsOk(config.count, config.allocations, |config.allocations|) {
        GroupsExactly(config, caches, |config.groups|);
      }
    }
  }

  /** Some choice of allocations makes the group usable. */
  ghost predicate GroupCan(config: Config, group: CacheGroup, caches: map<Name, seq<Tensor>>)
    requires 0 < config.count
  {
    exists at :: GroupUsable(config, group, caches, at)
  }

  lemma GroupsExactly(config: Config, caches: map<Name, seq<Tensor>>, n: nat)
    requires 0 < config.count && AllocationsOk(config.count, config.allocations, |config.allocations|) && n <= |config.groups|
    ensures GroupsOk(config, caches, n) <==> forall g :: 0 <= g < n ==> GroupCan(config, config.groups[g], caches)
  {
    var pages, owner := Pages(config.count, config.allocations), Owners(config.allocations, |config.allocations|);
    OwnersInRange(config.allocations, |config.allocations|);
    forall g | 0 <= g < n
      ensures GroupOk(config.count, pages, owner, config.groups[g], caches, |config.groups[g].names|)
              <==> GroupCan(config, config.groups[g], caches)
    {
      GroupExactly(config, config.groups[g], caches);
    }
    assert GroupsOk(config, caches, n) <==>
             forall g :: 0 <= g < n ==> GroupOk(config.count, pages, owner, config.groups[g], caches, |config.groups[g].names|);
  }
}
