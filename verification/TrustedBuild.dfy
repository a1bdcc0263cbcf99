/** The trusted builder as loops over bucket metadata and stores (src/circuit.rs,
    build_trusted_from_source, place_initial_meta, write_initial_metadata, write_initial_payloads). */
module TrustedBuild {
  import opened Common
  import opened Geometry
  import opened Blocks
  import opened Schedule
  import opened PageStores
  import opened OramSpec
  import opened OramScans
  import opened OramBuild
  import opened BuildLimits
  import opened EvictionOps
  import opened SplitStores
  import opened Controller

  /** First free slot of a metadata page. */
  method FirstFreeSlot<V>(page: seq<Slot>, ghost blocks: seq<Block<V>>) returns (i: nat)
    requires page == SlotsOf(blocks)
    ensures i == FirstFree(blocks, 0)
  {
    i := 0;
    while i < |page| && page[i].occupied
      invariant i <= |page| && forall k :: 0 <= k < i ==> blocks[k].occupied
    {
      i := i + 1;
    }
  }

  /** Puts one label into the deepest free metadata slot of its path. */
  method PlaceInitialMeta<V>(p: OramParams, metas: seq<seq<Slot>>, id: nat, leaf: nat, ghost tree: Pages<V>,
                             ghost b: Block<V>)
    returns (placed: bool, metas': seq<seq<Slot>>)
    requires p.Valid() && TreeShape(p, tree) && leaf < p.leaves && metas == MetaOf(tree)
    requires b.occupied && b.id == id && b.leaf == leaf
    ensures placed <==> PlaceDeepest(p, tree, b, p.Height()).Some?
    ensures metas' == MetaOf(if placed then PlaceDeepest(p, tree, b, p.Height()).value else tree)
  {
    hide OramParams.NodeIndex;
    PathNodesDistinct(p, leaf);
    var path := p.PathNodes(leaf);
    var d := p.Height();
    while d > 0
      invariant 0 <= d <= p.Height()
      invariant PlaceDeepest(p, tree, b, p.Height()) == PlaceDeepest(p, tree, b, d)
    {
      d := d - 1;
      var node := path[d];
      var i := FirstFreeSlot(metas[node], tree[node]);
      if i < |metas[node]| {
        ghost var after: Pages<V> := tree[node := tree[node][i := b]];
        metas' := metas[node := metas[node][i := Slot(true, id, leaf)]];
        assert SlotsOf(tree[node][i := b]) == metas[node][i := Slot(true, id, leaf)];
        assert metas' == MetaOf(after);
        return true, metas';
      }
    }
    return false, metas;
  }

  /** Real blocks of the image carry their source payload; other slots are dummies. */
  ghost predicate FromSource<V>(pages: Pages<V>, source: seq<V>, k: nat, zero: V)
    requires k <= |source|
  {
    forall n, j :: 0 <= n < |pages| && 0 <= j < |pages[n]| ==> SlotFromSource(pages[n][j], source, k, zero)
  }

  ghost predicate SlotFromSource<V>(b: Block<V>, source: seq<V>, k: nat, zero: V)
    requires k <= |source|
  {
    if b.occupied then b.id < k && b.payload == source[b.id] else b == Dummy(zero)
  }

  lemma {:induction false} PlaceDeepestFromSource<V>(p: OramParams, tree: Pages<V>, b: Block<V>, d: nat,
                                                    source: seq<V>, k: nat, zero: V)
    requires p.Valid() && TreeShape(p, tree) && b.leaf < p.leaves && d <= p.Height() && k <= |source|
    requires FromSource(tree, source, k, zero) && SlotFromSource(b, source, k, zero)
    ensures PlaceDeepest(p, tree, b, d).Some? ==> FromSource(PlaceDeepest(p, tree, b, d).value, source, k, zero)
    decreases d
  {
    hide OramParams.NodeIndex;
    if d > 0 {
      NodeIndexRange(p, d - 1, b.leaf);
      PlaceDeepestFromSource(p, tree, b, d - 1, source, k, zero);
    }
  }

  lemma {:induction false} ImageFromSource<V>(c: Config<V>, source: seq<V>, k: nat)
    requires c.params.Valid() && k <= |source| && PlaceAll(c, source, k).Ok?
    ensures FromSource(PlaceAll(c, source, k).value.tree, source, k, c.zero)
    ensures forall i :: 0 <= i < |PlaceAll(c, source, k).value.overflow| ==>
              var b := PlaceAll(c, source, k).value.overflow[i];
              b.occupied && b.id < k && b.payload == source[b.id]
    decreases k
  {
    hide PlaceDeepest;
    if k > 0 {
      ImageFromSource(c, source, k - 1);
      var image := PlaceAll(c, source, k - 1).value;
      var b := Block(true, k - 1, RandomLeaf(c, k - 1), source[k - 1]);
      FromSourceGrows(image.tree, source, k - 1, k, c.zero);
      PlaceDeepestFromSource(c.params, image.tree, b, c.params.Height(), source, k, c.zero);
    }
  }

  lemma FromSourceGrows<V>(pages: Pages<V>, source: seq<V>, k: nat, m: nat, zero: V)
    requires k <= m <= |source| && FromSource(pages, source, k, zero)
    ensures FromSource(pages, source, m, zero)
  {
  }

  lemma {:induction false} PlaceAllErrStays<V>(c: Config<V>, source: seq<V>, k: nat, m: nat)
    requires c.params.Valid() && k <= m <= |source| && PlaceAll(c, source, k).Err?
    ensures PlaceAll(c, source, m).Err?
    decreases m
  {
    if k < m {
      PlaceAllErrStays(c, source, k, m - 1);
    }
  }

  /** Labels every block and plans its slot, in metadata only. */
  method PlanPlacement<V>(p: OramParams, draws: nat -> nat, ghost zero: V, ghost source: seq<V>, posMap: array<nat>)
    returns (r: Result<(seq<seq<Slot>>, seq<(nat, nat)>)>)
    requires p.Valid() && posMap.Length == |source|
    modifies posMap
    ensures var spec := PlaceAll(Config(p, draws, zero), source, |source|);
            && (r.Ok? <==> spec.Ok?) && (r.Err? ==> r.error == StashOverflow)
            && (r.Ok? ==> posMap[..] == spec.value.pos && r.value.0 == MetaOf(spec.value.tree)
                          && IdsAndLeaves(spec.value.overflow, r.value.1))
  {
    hide PlaceDeepest;
    ghost var c := Config(p, draws, zero);
    var metas := seq(p.BucketCount(), _ => seq(p.bucketSize, _ => DUMMY_SLOT));
    assert metas == MetaOf(EmptyTree(c)) by {
      assert forall n :: 0 <= n < |metas| ==> metas[n] == SlotsOf(EmptyTree(c)[n]);
    }
    var overflow: seq<(nat, nat)> := [];
    for id := 0 to posMap.Length
      invariant PlaceAll(c, source, id).Ok?
      invariant posMap[..id] == PlaceAll(c, source, id).value.pos
      invariant metas == MetaOf(PlaceAll(c, source, id).value.tree)
      invariant IdsAndLeaves(PlaceAll(c, source, id).value.overflow, overflow)
    {
      ghost var image := PlaceAll(c, source, id).value;
      var leaf := Reduce(draws(id), p.leaves);
      ghost var b := Block(true, id, leaf, source[id]);
      posMap[id] := leaf;
      var placed;
      placed, metas := PlaceInitialMeta(p, metas, id, leaf, image.tree, b);
      if !placed {
        overflow := overflow + [(id, leaf)];
        if |overflow| > p.stashCapacity {
          assert PlaceAll(c, source, id + 1).Err?;
          PlaceAllErrStays(c, source, id + 1, |source|);
          return Err(StashOverflow);
        }
      }
      assert posMap[..id + 1] == posMap[..id] + [leaf];
    }
    assert posMap[..posMap.Length] == posMap[..];
    return Ok((metas, overflow));
  }

  ghost predicate IdsAndLeaves<V>(blocks: seq<Block<V>>, pairs: seq<(nat, nat)>) {
    && |pairs| == |blocks|
    && forall i :: 0 <= i < |pairs| ==> pairs[i].0 == blocks[i].id && pairs[i].1 == blocks[i].leaf
  }

  /** Writes both stores page by page, reading each payload from the source exactly where its
      metadata slot is. */
  method WriteImage<V>(p: OramParams, metas: seq<seq<Slot>>, source: seq<V>, zero: V, ghost tree: Pages<V>,
                       metaStore: MemPageStore<seq<Slot>>, payloadStore: MemPageStore<seq<V>>)
    requires p.Valid() && TreeShape(p, tree) && metas == MetaOf(tree) && FromSource(tree, source, |source|, zero)
    requires metaStore.pages.Length == payloadStore.pages.Length == p.BucketCount()
    requires metaStore.pages as object != payloadStore.pages as object
    modifies metaStore.pages, payloadStore.pages
    ensures StoreShape(p, metaStore.pages[..], payloadStore.pages[..])
    ensures JoinAll(metaStore.pages[..], payloadStore.pages[..]) == tree
  {
    for n := 0 to |metas|
      invariant metaStore.pages[..n] == metas[..n]
    {
      var w := metaStore.WritePage(n, metas[n]);
    }
    assert metaStore.pages[..] == metas;
    for n := 0 to |metas|
      invariant metaStore.pages[..] == metas
      invariant forall k :: 0 <= k < n ==>
                  |payloadStore.pages[k]| == p.bucketSize && Join(metas[k], payloadStore.pages[k]) == tree[k]
    {
      var page := PayloadPage(metas[n], source, zero, tree[n]);
      var w := payloadStore.WritePage(n, page);
    }
  }

  method PayloadPage<V>(meta: seq<Slot>, source: seq<V>, zero: V, ghost blocks: seq<Block<V>>) returns (page: seq<V>)
    requires meta == SlotsOf(blocks)
    requires forall j :: 0 <= j < |blocks| ==> SlotFromSource(blocks[j], source, |source|, zero)
    ensures |page| == |meta| && Join(meta, page) == blocks
  {
    page := [];
    for j := 0 to |meta|
      invariant |page| == j && forall i :: 0 <= i < j ==> page[i] == blocks[i].payload
    {
      assert SlotFromSource(blocks[j], source, |source|, zero);
      page := page + [if meta[j].occupied then source[meta[j].id] else zero];
    }
  }

  /** The initial stash: overflow blocks first, then padding. */
  method FillStash<V>(ghost c: Config<V>, overflow: seq<(nat, nat)>, source: seq<V>, capacity: nat, zero: V,
                      ghost blocks: seq<Block<V>>)
    returns (stash: array<Block<V>>)
    requires c.zero == zero && IdsAndLeaves(blocks, overflow) && |blocks| <= capacity
    requires forall i :: 0 <= i < |blocks| ==>
               blocks[i].occupied && blocks[i].id < |source| && blocks[i].payload == source[blocks[i].id]
    ensures fresh(stash) && stash.Length == capacity
    ensures stash[..] == blocks + Padding(c, capacity - |blocks|)
  {
    stash := new Block<V>[capacity](_ => Dummy(zero));
    for i := 0 to |overflow|
      invariant forall k :: 0 <= k < stash.Length ==> stash[k] == if k < i then blocks[k] else Dummy(zero)
    {
      stash[i] := Block(true, overflow[i].0, overflow[i].1, source[overflow[i].0]);
    }
  }

  /** The build by its loops. */
  method BuildImage<V(==)>(p: OramParams, draws: nat -> nat, zero: V, source: seq<V>,
                           metaStore: MemPageStore<seq<Slot>>, payloadStore: MemPageStore<seq<V>>)
    returns (r: Result<CircuitOram<V>>)
    requires p.Valid() && metaStore.pages as object != payloadStore.pages as object
    modifies metaStore.pages, payloadStore.pages
    ensures r.Ok? <==>
              && metaStore.pages.Length == payloadStore.pages.Length == p.BucketCount()
              && Build(Config(p, draws, zero), source).Ok?
    ensures r.Err? ==>
              r.error == if metaStore.pages.Length == payloadStore.pages.Length == p.BucketCount() &&
                            |source| == p.logicalBlocks
                         then StashOverflow else InvalidInput
    ensures r.Ok? ==>
              && fresh(r.value) && fresh(r.value.posMap) && fresh(r.value.stash) && fresh(r.value.schedule)
              && r.value.metaStore == metaStore && r.value.payloadStore == payloadStore
              && r.value.Valid() && r.value.params == p && r.value.draws == draws && r.value.zero == zero
              && r.value.View() == Build(Config(p, draws, zero), source).value
  {
    if metaStore.pages.Length != p.BucketCount() || payloadStore.pages.Length != p.BucketCount() {
      return Err(InvalidInput);
    }
    if |source| != p.logicalBlocks {
      return Err(InvalidInput);
    }
    hide PlaceAll;
    ghost var c := Config(p, draws, zero);
    var posMap := new nat[|source|];
    var planned := PlanPlacement(p, draws, zero, source, posMap);
    if planned.Err? {
      return Err(planned.error);
    }
    var (metas, overflow) := planned.value;
    ghost var image := PlaceAll(c, source, |source|).value;
    ImageFromSource(c, source, |source|);
    WriteImage(p, metas, source, zero, image.tree, metaStore, payloadStore);
    var stash := FillStash(c, overflow, source, p.stashCapacity, zero, image.overflow);
    var schedule := new CircuitEvictionSchedule.WithRate(p, DEFAULT_EVICTIONS_PER_ACCESS);
    var oram := new CircuitOram.FromParts(p, draws, zero, metaStore, payloadStore, posMap, stash, schedule, |source|);
    return Ok(oram);
  }

  /** Builds a controller whose state is exactly the specified initial image. Fails when a store or
      the source has the wrong size, or when more blocks overflow than the stash can hold. */
  method BuildTrusted<V(==)>(p: OramParams, draws: nat -> nat, zero: V, source: seq<V>,
                             metaStore: MemPageStore<seq<Slot>>, payloadStore: MemPageStore<seq<V>>)
    returns (r: Result<CircuitOram<V>>)
    requires p.Valid() && metaStore.pages as object != payloadStore.pages as object
    modifies metaStore.pages, payloadStore.pages
    ensures r.Ok? <==>
              && metaStore.pages.Length == payloadStore.pages.Length == p.BucketCount()
              && Build(Config(p, draws, zero), source).Ok?
    ensures r.Ok? ==>
              && fresh(r.value) && fresh(r.value.posMap) && fresh(r.value.stash) && fresh(r.value.schedule)
              && r.value.metaStore == metaStore && r.value.payloadStore == payloadStore
              && r.value.Valid() && r.value.params == p && r.value.draws == draws && r.value.zero == zero
              && r.value.View() == Build(Config(p, draws, zero), source).value
    ensures r == Err(StashOverflow) <==>
              && metaStore.pages.Length == payloadStore.pages.Length == p.BucketCount() && |source| == p.logicalBlocks
              && exists k :: 0 <= k < |source| && NoRoomFor(Config(p, draws, zero), source, k)
    ensures && metaStore.pages.Length == payloadStore.pages.Length == p.BucketCount() && |source| == p.logicalBlocks
            && |source| <= p.bucketSize * p.Height() + p.stashCapacity ==>
              r.Ok?
    ensures r.Ok? ==>
              && |r.value.posMap[..]| == |source|
              && forall i :: 0 <= i < |source| ==> Residue(draws(i), r.value.posMap[i], p.leaves)
  {
    hide Build, NoRoomFor, PlaceAll;
    ghost var c := Config(p, draws, zero);
    BuildFails(c, source);
    if |source| == p.logicalBlocks <= p.bucketSize * p.Height() + p.stashCapacity {
      SmallSourceBuilds(c, source);
    }
    if Build(c, source).Ok? {
      FirstLabels(c, source);
    }
    r := BuildImage(p, draws, zero, source, metaStore, payloadStore);
  }
}
