/** Trusted construction of the initial image (src/circuit.rs, build_trusted_from_source). */
module OramBuild {
  import opened Common
  import opened Geometry
  import opened Blocks
  import opened Schedule
  import opened OramSpec

  /** Puts a block into the deepest free slot of its path, looking only above depth `d`. */
  function PlaceDeepest<V>(p: OramParams, tree: Pages<V>, b: Block<V>, d: nat): (r: Option<Pages<V>>)
    requires p.Valid() && TreeShape(p, tree) && b.leaf < p.leaves && d <= p.Height()
    ensures r.Some? ==> TreeShape(p, r.value)
    decreases d
  {
    if d == 0 then None
    else
      NodeIndexRange(p, d - 1, b.leaf);
      var node := p.NodeIndex(d - 1, b.leaf);
      var i := FirstFree(tree[node], 0);
      if i < |tree[node]| then Some(tree[node := tree[node][i := b]])
      else PlaceDeepest(p, tree, b, d - 1)
  }

  /** Placement so far: labels, tree, and the blocks for which no slot was free. */
  datatype Image<V> = Image(pos: seq<nat>, tree: Pages<V>, overflow: seq<Block<V>>)

  function EmptyTree<V>(c: Config<V>): (tree: Pages<V>)
    requires c.params.Valid()
    ensures TreeShape(c.params, tree)
    ensures forall n :: 0 <= n < |tree| ==> forall j :: 0 <= j < |tree[n]| ==> !tree[n][j].occupied
  {
    seq(c.params.BucketCount(), _ => seq(c.params.bucketSize, _ => Dummy(c.zero)))
  }

  /** Image after the blocks `0..k` were labelled and placed; fails once too many overflow. */
  function PlaceAll<V>(c: Config<V>, source: seq<V>, k: nat): (r: Result<Image<V>>)
    requires c.params.Valid() && k <= |source|
    ensures r.Ok? ==>
              && |r.value.pos| == k && TreeShape(c.params, r.value.tree)
              && |r.value.overflow| <= c.params.stashCapacity
              && forall i :: 0 <= i < k ==> r.value.pos[i] < c.params.leaves
    decreases k
  {
    if k == 0 then Ok(Image([], EmptyTree(c), []))
    else
      match PlaceAll(c, source, k - 1)
      case Err(e) => Err(e)
      case Ok(image) =>
        var leaf := RandomLeaf(c, k - 1);
        var b := Block(true, k - 1, leaf, source[k - 1]);
        match PlaceDeepest(c.params, image.tree, b, c.params.Height())
        case Some(tree) => Ok(Image(image.pos + [leaf], tree, image.overflow))
        case None =>
          if |image.overflow| + 1 > c.params.stashCapacity then Err(StashOverflow)
          else Ok(Image(image.pos + [leaf], image.tree, image.overflow + [b]))
  }

  function Padding<V>(c: Config<V>, n: nat): (r: seq<Block<V>>)
    ensures |r| == n && forall i :: 0 <= i < n ==> r[i] == Dummy(c.zero)
  {
    seq(n, _ => Dummy(c.zero))
  }

  /** The controller state right after construction. */
  function Build<V>(c: Config<V>, source: seq<V>): (r: Result<State<V>>)
    requires c.params.Valid()
    ensures r.Ok? ==> WellFormed(c, r.value)
  {
    if |source| != c.params.logicalBlocks then Err(InvalidInput)
    else
      match PlaceAll(c, source, |source|)
      case Err(e) => Err(e)
      case Ok(image) =>
        LeafBitsFit(c.params);
        Ok(State(image.pos,
                 image.overflow + Padding(c, c.params.stashCapacity - |image.overflow|),
                 image.tree, |source|,
                 Counters(c.params.LeafBits(), DEFAULT_EVICTIONS_PER_ACCESS, 0, 0)))
  }

  /** The path buckets at depths `from` to `d - 1` have no free slot. */
  ghost predicate PathFull<V>(p: OramParams, tree: Pages<V>, leaf: nat, from: nat, d: nat)
    requires p.Valid() && TreeShape(p, tree) && leaf < p.leaves && d <= p.Height()
  {
    forall e :: from <= e < d ==> p.NodeIndex(e, leaf) < |tree| && AllOccupied(tree[p.NodeIndex(e, leaf)])
  }

  ghost predicate AllOccupied<V>(page: seq<Block<V>>) {
    forall j :: 0 <= j < |page| ==> page[j].occupied
  }

  /** The block went into slot `j` at depth `e`: that slot was free and every deeper bucket full. */
  ghost predicate PlacedAt<V>(p: OramParams, tree: Pages<V>, b: Block<V>, d: nat, after: Pages<V>, e: nat, j: nat)
    requires p.Valid() && TreeShape(p, tree) && b.leaf < p.leaves && d <= p.Height()
  {
    && e < d && p.NodeIndex(e, b.leaf) < |tree|
    && var node := p.NodeIndex(e, b.leaf);
       && j < |tree[node]| && !tree[node][j].occupied
       && after == tree[node := tree[node][j := b]]
       && PathFull(p, tree, b.leaf, e + 1, d)
  }

  /** Placement finds the deepest bucket with room, and fails only on a full path. */
  lemma {:induction false} PlacesDeepest<V>(p: OramParams, tree: Pages<V>, b: Block<V>, d: nat)
    requires p.Valid() && TreeShape(p, tree) && b.leaf < p.leaves && d <= p.Height()
    ensures var r := PlaceDeepest(p, tree, b, d);
            && (r.None? <==> PathFull(p, tree, b.leaf, 0, d))
            && (r.Some? ==> exists e: nat, j: nat :: PlacedAt(p, tree, b, d, r.value, e, j))
    decreases d
  {
    hide OramParams.NodeIndex, TreeShape;
    if d > 0 {
      NodeIndexRange(p, d - 1, b.leaf);
      PlacesDeepest(p, tree, b, d - 1);
      assert |tree| == p.BucketCount() by { TreeSize(p, tree); }
      var node := p.NodeIndex(d - 1, b.leaf);
      var i := FirstFree(tree[node], 0);
      if i < |tree[node]| {
        assert PlacedAt(p, tree, b, d, tree[node := tree[node][i := b]], d - 1, i);
      } else if PlaceDeepest(p, tree, b, d - 1).Some? {
        var after := PlaceDeepest(p, tree, b, d - 1).value;
        var e: nat, j: nat :| PlacedAt(p, tree, b, d - 1, after, e, j);
        assert PlacedAt(p, tree, b, d, after, e, j);
      }
    }
  }

  lemma TreeSize<V>(p: OramParams, tree: Pages<V>)
    requires TreeShape(p, tree)
    ensures |tree| == p.BucketCount()
  {
  }

  /** A successful placement adds exactly the block, on its path. */
  lemma {:induction false} PlaceDeepestEffect<V>(p: OramParams, tree: Pages<V>, b: Block<V>, d: nat)
    requires p.Valid() && TreeShape(p, tree) && Placed(p, tree) && b.leaf < p.leaves && b.occupied
    requires d <= p.Height()
    ensures var r := PlaceDeepest(p, tree, b, d);
            r.Some? ==> RealAll(r.value) == RealAll(tree) + multiset{b} && Placed(p, r.value)
    decreases d
  {
    hide OramParams.NodeIndex, Real, RealAll, Placed;
    if d > 0 {
      NodeIndexRange(p, d - 1, b.leaf);
      var node := p.NodeIndex(d - 1, b.leaf);
      var i := FirstFree(tree[node], 0);
      if i < |tree[node]| {
        FillSlotContents(tree, node, i, b);
        FillSlotPlaced(p, tree, node, i, b, d - 1);
      } else {
        PlaceDeepestEffect(p, tree, b, d - 1);
      }
    }
  }

  lemma FillSlotContents<V>(tree: Pages<V>, node: nat, i: nat, b: Block<V>)
    requires node < |tree| && i < |tree[node]| && !tree[node][i].occupied && b.occupied
    ensures RealAll(tree[node := tree[node][i := b]]) == RealAll(tree) + multiset{b}
  {
    hide Real, RealAll;
    var page := tree[node][i := b];
    RealUpdate(tree[node], i, b);
    RealAllUpdate(tree, node, page);
    AddOne(RealAll(tree[node := page]), Real(tree[node]), RealAll(tree), Real(page), b);
  }

  lemma AddOne<T>(after: multiset<T>, oldPage: multiset<T>, before: multiset<T>, page: multiset<T>, b: T)
    requires after + oldPage == before + page
    requires page + multiset{} == oldPage + multiset{b}
    ensures after == before + multiset{b}
  {
    forall x
      ensures after[x] == (before + multiset{b})[x]
    {
      assert (after + oldPage)[x] == (before + page)[x];
      assert (page + multiset{})[x] == (oldPage + multiset{b})[x];
    }
  }

  lemma FillSlotPlaced<V>(p: OramParams, tree: Pages<V>, node: nat, i: nat, b: Block<V>, d: nat)
    requires p.Valid() && TreeShape(p, tree) && Placed(p, tree) && b.leaf < p.leaves
    requires d < p.Height() && node == p.NodeIndex(d, b.leaf) < |tree| && i < |tree[node]|
    ensures Placed(p, tree[node := tree[node][i := b]])
  {
    hide OramParams.NodeIndex;
    var after: Pages<V> := tree[node := tree[node][i := b]];
    assert p.PathNodes(b.leaf)[d] == node;
    forall n, j | 0 <= n < |after| && 0 <= j < |after[n]| && after[n][j].occupied
      ensures after[n][j].leaf < p.leaves && n in p.PathNodes(after[n][j].leaf)
    {
      if n != node || j != i {
        assert after[n][j] == tree[n][j];
      }
    }
  }

  ghost function ImageContents<V>(image: Image<V>): multiset<Block<V>> {
    Real(image.overflow) + RealAll(image.tree)
  }

  /** Tree and overflow list hold exactly the current blocks of the ids placed so far. */
  ghost predicate Covers<V(!new)>(c: Config<V>, image: Image<V>, source: seq<V>) {
    && |image.pos| == |source|
    && Placed(c.params, image.tree)
    && forall b: Block<V> {:trigger ImageContents(image)[b]} ::
         ImageContents(image)[b] == if Current(image.pos, source, b) then 1 else 0
  }

  lemma {:induction false} NoRealBlocks<V>(bs: seq<Block<V>>)
    requires forall i :: 0 <= i < |bs| ==> !bs[i].occupied
    ensures Real(bs) == multiset{}
  {
    if bs != [] {
      NoRealBlocks(bs[1..]);
    }
  }

  lemma {:induction false} NoRealPages<V>(pages: Pages<V>)
    requires forall n :: 0 <= n < |pages| ==> forall j :: 0 <= j < |pages[n]| ==> !pages[n][j].occupied
    ensures RealAll(pages) == multiset{}
  {
    if pages != [] {
      NoRealBlocks(pages[0]);
      NoRealPages(pages[1..]);
    }
  }

  lemma EmptyCovers<V(!new)>(c: Config<V>)
    requires c.params.Valid()
    ensures Covers(c, Image([], EmptyTree(c), []), [])
  {
    NoRealPages(EmptyTree(c));
  }

  /** Adding one labelled block extends the covered prefix by one id. */
  lemma CoverOneMore<V(!new)>(c: Config<V>, before: Image<V>, after: Image<V>, source: seq<V>, leaf: nat, v: V)
    requires Covers(c, before, source)
    requires after.pos == before.pos + [leaf] && Placed(c.params, after.tree)
    requires ImageContents(after) == ImageContents(before) + multiset{Block(true, |source|, leaf, v)}
    ensures Covers(c, after, source + [v])
  {
    hide Real, RealAll, Placed, ImageContents;
    var added := Block(true, |source|, leaf, v);
    forall b: Block<V>
      ensures ImageContents(after)[b] == if Current(after.pos, source + [v], b) then 1 else 0
    {
      assert ImageContents(before)[b] == if Current(before.pos, source, b) then 1 else 0;
      assert (ImageContents(before) + multiset{added})[b] == ImageContents(before)[b] + (if b == added then 1 else 0);
    }
  }

  lemma {:induction false} PlaceAllCovers<V(!new)>(c: Config<V>, source: seq<V>, k: nat)
    requires c.params.Valid() && k <= |source|
    ensures PlaceAll(c, source, k).Ok? ==> Covers(c, PlaceAll(c, source, k).value, source[..k])
    decreases k
  {
    if k == 0 {
      EmptyCovers(c);
      assert source[..0] == [];
    } else {
      PlaceAllCovers(c, source, k - 1);
      if PlaceAll(c, source, k).Ok? {
        PlaceOneCovers(c, source, k);
      }
    }
  }

  lemma TreeGrows<V>(overflow: seq<Block<V>>, tree: Pages<V>, tree': Pages<V>, b: Block<V>)
    requires RealAll(tree') == RealAll(tree) + multiset{b}
    ensures Real(overflow) + RealAll(tree') == (Real(overflow) + RealAll(tree)) + multiset{b}
  {
    hide Real, RealAll;
    SumAssoc(Real(overflow), RealAll(tree), multiset{b});
  }

  lemma OverflowGrows<V>(overflow: seq<Block<V>>, tree: Pages<V>, b: Block<V>)
    requires b.occupied
    ensures Real(overflow + [b]) + RealAll(tree) == (Real(overflow) + RealAll(tree)) + multiset{b}
  {
    hide Real, RealAll;
    RealSnoc(overflow, b);
    var o, t := Real(overflow), RealAll(tree);
    assert (o + multiset{b}) + t == (o + t) + multiset{b};
  }

  lemma PlaceOneCovers<V(!new)>(c: Config<V>, source: seq<V>, k: nat)
    requires c.params.Valid() && 0 < k <= |source| && PlaceAll(c, source, k).Ok?
    requires PlaceAll(c, source, k - 1).Ok? && Covers(c, PlaceAll(c, source, k - 1).value, source[..k - 1])
    ensures Covers(c, PlaceAll(c, source, k).value, source[..k])
  {
    hide Real, RealAll, PlaceDeepest;
    var before, after := PlaceAll(c, source, k - 1).value, PlaceAll(c, source, k).value;
    var leaf := RandomLeaf(c, k - 1);
    var b := Block(true, k - 1, leaf, source[k - 1]);
    PlaceDeepestEffect(c.params, before.tree, b, c.params.Height());
    var placed := PlaceDeepest(c.params, before.tree, b, c.params.Height());
    if placed.Some? {
      TreeGrows(before.overflow, before.tree, placed.value, b);
    } else {
      OverflowGrows(before.overflow, before.tree, b);
    }
    assert source[..k] == source[..k - 1] + [source[k - 1]];
    CoverOneMore(c, before, after, source[..k - 1], leaf, source[k - 1]);
  }

  /** Block `k` cannot be taken: its path has no free slot, and the stash has no room for one more block. */
  ghost predicate NoRoomFor<V>(c: Config<V>, source: seq<V>, k: nat)
    requires c.params.Valid() && k <= |source|
  {
    && PlaceAll(c, source, k).Ok?
    && |PlaceAll(c, source, k).value.overflow| == c.params.stashCapacity
    && PathFull(c.params, PlaceAll(c, source, k).value.tree, RandomLeaf(c, k), 0, c.params.Height())
  }

  /** Placement fails exactly at a block for which neither its path nor the stash has room. */
  lemma {:induction false} PlaceAllFails<V>(c: Config<V>, source: seq<V>, n: nat)
    requires c.params.Valid() && n <= |source|
    ensures PlaceAll(c, source, n).Err? <==> exists k :: 0 <= k < n && NoRoomFor(c, source, k)
    decreases n
  {
    hide PlaceDeepest, PathFull;
    if n > 0 {
      PlaceAllFails(c, source, n - 1);
      if PlaceAll(c, source, n - 1).Ok? {
        var image := PlaceAll(c, source, n - 1).value;
        PlacesDeepest(c.params, image.tree, Block(true, n - 1, RandomLeaf(c, n - 1), source[n - 1]), c.params.Height());
        assert PlaceAll(c, source, n).Err? <==> NoRoomFor(c, source, n - 1);
      }
    }
  }

  /** The build fails exactly on a source of the wrong size, or at a block for which there is no room. */
  lemma BuildFails<V>(c: Config<V>, source: seq<V>)
    requires c.params.Valid()
    ensures Build(c, source) == Err(InvalidInput) <==> |source| != c.params.logicalBlocks
    ensures Build(c, source) == Err(StashOverflow) <==>
            |source| == c.params.logicalBlocks && exists k :: 0 <= k < |source| && NoRoomFor(c, source, k)
    ensures Build(c, source).Err? ==> Build(c, source) == Err(InvalidInput) || Build(c, source) == Err(StashOverflow)
  {
    hide PlaceAll, NoRoomFor;
    PlaceAllFails(c, source, |source|);
    PlaceAllErrors(c, source, |source|);
  }

  /** A freshly built image stands for the source array; only a block for which there is no room stops a
      build of the right size. */
  lemma BuildRefinesSource<V(!new)>(c: Config<V>, source: seq<V>)
    requires c.params.Valid()
    ensures Build(c, source).Ok? ==> Refines(c, Build(c, source).value, source)
    ensures Build(c, source).Err? ==> Build(c, source) == Err(InvalidInput) || Build(c, source) == Err(StashOverflow)
    ensures Build(c, source) == Err(InvalidInput) <==> |source| != c.params.logicalBlocks
    ensures Build(c, source) == Err(StashOverflow) <==>
            |source| == c.params.logicalBlocks && exists k :: 0 <= k < |source| && NoRoomFor(c, source, k)
  {
    hide NoRoomFor;
    BuildFails(c, source);
    if |source| == c.params.logicalBlocks {
      if PlaceAll(c, source, |source|).Ok? {
        PlaceAllCovers(c, source, |source|);
        assert source[..|source|] == source;
        var image := PlaceAll(c, source, |source|).value;
        var s := Build(c, source).value;
        var pad := Padding(c, c.params.stashCapacity - |image.overflow|);
        RealConcat(image.overflow, pad);
        NoRealBlocks(pad);
        assert Contents(s) == ImageContents(image);
      }
    }
  }

  lemma {:induction false} PlaceAllErrors<V>(c: Config<V>, source: seq<V>, k: nat)
    requires c.params.Valid() && k <= |source|
    ensures PlaceAll(c, source, k).Err? ==> PlaceAll(c, source, k) == Err(StashOverflow)
    decreases k
  {
    if k > 0 {
      PlaceAllErrors(c, source, k - 1);
    }
  }
}
