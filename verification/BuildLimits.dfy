/** When the trusted build succeeds, and what it starts from (src/circuit.rs, build_trusted_from_source). */
module BuildLimits {
  import opened Geometry
  import opened Blocks
  import opened PageStores
  import opened OramSpec
  import opened AccessRefinement
  import opened OramBuild

  lemma {:induction false} FullPages<V>(pages: Pages<V>, z: nat)
    requires forall n :: 0 <= n < |pages| ==> |pages[n]| == z && AllOccupied(pages[n])
    ensures OccupiedAll(pages) == |pages| * z
  {
    hide Occupied, AllOccupied;
    if pages != [] {
      FullPages(pages[1..], z);
      FullPage(pages[0]);
      OneMoreTimes(|pages| - 1, z);
    }
  }

  lemma {:induction false} FullPage<V>(page: seq<Block<V>>)
    requires AllOccupied(page)
    ensures Occupied(page) == |page|
  {
    if page != [] {
      FullPage(page[1..]);
    }
  }

  lemma PartNoLarger<T>(rest: multiset<T>, part: multiset<T>, whole: multiset<T>, none: multiset<T>)
    requires rest + part == whole + none && none == multiset{}
    ensures |whole| == |rest| + |part|
  {
    assert |rest + part| == |rest| + |part|;
    assert whole + none == whole;
  }

  /** A full path holds a bucketful of blocks at every depth. */
  lemma FullPathHolds<V>(p: OramParams, tree: Pages<V>, leaf: nat)
    requires p.Valid() && TreeShape(p, tree) && leaf < p.leaves && PathFull(p, tree, leaf, 0, p.Height())
    ensures |RealAll(tree)| >= p.Height() * p.bucketSize
  {
    hide OramParams.NodeIndex, RealAll, OccupiedAll, WriteAll;
    PathNodesDistinct(p, leaf);
    var path := p.PathNodes(leaf);
    var pages := ReadAll(tree, path);
    forall d | 0 <= d < |pages|
      ensures |pages[d]| == p.bucketSize && AllOccupied(pages[d])
    {
      assert path[d] == p.NodeIndex(d, leaf);
    }
    FullPages(pages, p.bucketSize);
    OccupiedAllIsCard(pages);
    var blank: Pages<V> := seq(|path|, _ => []);
    NoRealPages(blank);
    WholePathContents(tree, path, blank);
    PartNoLarger(RealAll(WriteAll(tree, path, blank, |path|)), RealAll(pages), RealAll(tree), RealAll(blank));
  }

  /** Placement so far holds one block per id placed. */
  lemma {:induction false} PlacedCount<V>(c: Config<V>, source: seq<V>, k: nat)
    requires c.params.Valid() && k <= |source| && PlaceAll(c, source, k).Ok?
    ensures var image := PlaceAll(c, source, k).value;
            |image.overflow| + |RealAll(image.tree)| == k && Placed(c.params, image.tree)
    decreases k
  {
    hide RealAll, PlaceDeepest;
    if k == 0 {
      NoRealPages(EmptyTree(c));
    } else {
      PlacedCount(c, source, k - 1);
      var image := PlaceAll(c, source, k - 1).value;
      PlaceDeepestEffect(c.params, image.tree, Block(true, k - 1, RandomLeaf(c, k - 1), source[k - 1]),
                         c.params.Height());
    }
  }

  /** A source that fits into the slots of one path and the stash together is always built, whatever the
      labels drawn. */
  lemma SmallSourceBuilds<V>(c: Config<V>, source: seq<V>)
    requires c.params.Valid() && |source| == c.params.logicalBlocks
    requires |source| <= c.params.bucketSize * c.params.Height() + c.params.stashCapacity
    ensures Build(c, source).Ok?
  {
    hide PlaceAll, PathFull, NoRoomFor, Build, OramParams.Height;
    BuildFails(c, source);
    if k :| 0 <= k < |source| && NoRoomFor(c, source, k) {
      NoRoomCount(c, source, k);
    }
  }

  /** A block without room comes after a stashful and a pathful of others. */
  lemma NoRoomCount<V>(c: Config<V>, source: seq<V>, k: nat)
    requires c.params.Valid() && k <= |source| && NoRoomFor(c, source, k)
    ensures k >= c.params.bucketSize * c.params.Height() + c.params.stashCapacity
  {
    hide PlaceAll, PathFull, OramParams.Height, RealAll;
    PlacedCount(c, source, k);
    FullPathHolds(c.params, PlaceAll(c, source, k).value.tree, RandomLeaf(c, k));
    assert c.params.Height() * c.params.bucketSize == c.params.bucketSize * c.params.Height();
  }

  /** The overflow list: ids in ascending order, each under its label and with its payload, and each with
      a path that is still full. */
  ghost predicate OverflowRight<V>(c: Config<V>, image: Image<V>, source: seq<V>, k: nat)
    requires c.params.Valid() && TreeShape(c.params, image.tree) && k <= |source| && |image.pos| == k
  {
    && (forall i, j :: 0 <= i < j < |image.overflow| ==> image.overflow[i].id < image.overflow[j].id)
    && forall i :: 0 <= i < |image.overflow| ==>
         var b := image.overflow[i];
         && b.id < k && b == Block(true, b.id, image.pos[b.id], source[b.id]) && b.leaf < c.params.leaves
         && PathFull(c.params, image.tree, b.leaf, 0, c.params.Height())
  }

  lemma {:induction false} OverflowIsRight<V>(c: Config<V>, source: seq<V>, k: nat)
    requires c.params.Valid() && k <= |source| && PlaceAll(c, source, k).Ok?
    ensures OverflowRight(c, PlaceAll(c, source, k).value, source, k)
    ensures forall i :: 0 <= i < k ==>
              Residue(c.draws(i), PlaceAll(c, source, k).value.pos[i], c.params.leaves)
    decreases k
  {
    hide PlaceDeepest, PathFull, Residue;
    if k > 0 {
      OverflowIsRight(c, source, k - 1);
      var image := PlaceAll(c, source, k - 1).value;
      var b := Block(true, k - 1, RandomLeaf(c, k - 1), source[k - 1]);
      PlacesDeepest(c.params, image.tree, b, c.params.Height());
      if PlaceDeepest(c.params, image.tree, b, c.params.Height()).Some? {
        forall i | 0 <= i < |image.overflow|
          ensures PathFull(c.params, PlaceAll(c, source, k).value.tree, image.overflow[i].leaf, 0, c.params.Height())
        {
          StaysFull(c.params, image.tree, b, image.overflow[i].leaf);
        }
      }
    }
  }

  lemma StaysFull<V>(p: OramParams, tree: Pages<V>, b: Block<V>, leaf: nat)
    requires p.Valid() && TreeShape(p, tree) && b.leaf < p.leaves && leaf < p.leaves && b.occupied
    requires PlaceDeepest(p, tree, b, p.Height()).Some? && PathFull(p, tree, leaf, 0, p.Height())
    ensures PathFull(p, PlaceDeepest(p, tree, b, p.Height()).value, leaf, 0, p.Height())
  {
    hide PlaceDeepest, OramParams.NodeIndex;
    PlacesDeepest(p, tree, b, p.Height());
    var after := PlaceDeepest(p, tree, b, p.Height()).value;
    var e: nat, j: nat :| OramBuild.PlacedAt(p, tree, b, p.Height(), after, e, j);
  }

  /** What a build starts from: every label drawn in turn, no access or eviction counted, two evictions
      owed per access to come, and a stash of the overflow blocks, in ascending id, and then dummies. */
  lemma BuildStart<V>(c: Config<V>, source: seq<V>)
    requires c.params.Valid() && Build(c, source).Ok?
    ensures var s, image := Build(c, source).value, PlaceAll(c, source, |source|).value;
            && PlaceAll(c, source, |source|).Ok? && |s.pos| == |source| == s.rng && s.tree == image.tree
            && (forall i :: 0 <= i < |source| ==> Residue(c.draws(i), s.pos[i], c.params.leaves))
            && s.sched.rate == 2 && s.sched.issued == s.sched.completed == 0
            && |s.stash| == c.params.stashCapacity >= |image.overflow|
            && s.stash[..|image.overflow|] == image.overflow
            && (forall i :: |image.overflow| <= i < |s.stash| ==> !s.stash[i].occupied)
            && OverflowRight(c, image, source, |source|)
  {
    hide PlaceAll, OverflowRight, Residue;
    OverflowIsRight(c, source, |source|);
  }

  lemma FirstLabels<V>(c: Config<V>, source: seq<V>)
    requires c.params.Valid() && Build(c, source).Ok?
    ensures |Build(c, source).value.pos| == |source|
    ensures forall i :: 0 <= i < |source| ==>
              Residue(c.draws(i), Build(c, source).value.pos[i], c.params.leaves)
  {
    hide PlaceAll, OverflowRight, Residue;
    BuildStart(c, source);
  }
}
