/** From source blocks to a controller over authenticated trees: trusted build, sealing of both stores,
    reopening (src/circuit.rs, build_trusted_from_source, into_stores and from_state; src/embedded_tree.rs,
    build). */
module SealedBuild {
  import opened Common
  import opened Geometry
  import opened Blocks
  import opened PageStores
  import opened OramSpec
  import opened OramBuild
  import opened TrustedBuild
  import opened SplitStores
  import opened Controller
  import opened OramRuns
  import opened RequestedPaths
  import opened EmbeddedSpec
  import opened EmbeddedTree
  import opened TrustedPaths
  import opened AuthenticatedOram
  import opened TamperedRuns

  /** Copies the pages of a store into one with room for digests, and builds the authenticated tree there. */
  method Seal<L>(logical: MemPageStore<L>, hash: PageHash<L>) returns (r: Result<EmbeddedTreePageStore<L>>)
    ensures r.Ok? <==> logical.pages.Length > 0
    ensures r.Ok? ==>
              && fresh(r.value) && fresh(r.value.inner.pages) && r.value.hash == hash
              && r.value.Valid() && r.value.Honest() && r.value.Logicals() == logical.pages[..]
  {
    hide SubtreeHash, RefPage;
    var n := logical.pages.Length;
    if n == 0 {
      return Err(InvalidInput);
    }
    var physical := new MemPageStore(n, Page(logical.pages[0], NO_CHILD, NO_CHILD));
    for i := 0 to n
      invariant fresh(physical.pages) && physical.pages.Length == n
      invariant forall k :: 0 <= k < i ==> physical.pages[k].logical == logical.pages[k]
    {
      var w := physical.WritePage(i, Page(logical.pages[i], NO_CHILD, NO_CHILD));
    }
    assert LogicalsOf(physical.pages[..]) == logical.pages[..];
    r := EmbeddedTreePageStore.Build(physical, hash);
  }

  lemma SourceFits<V>(c: Config<V>, source: seq<V>)
    requires c.params.Valid()
    ensures Build(c, source).Ok? ==> |source| == c.params.logicalBlocks
  {
  }

  /** Seals both stores of a controller and opens it over the sealed ones, in the same state. */
  method SealStores<V(==)>(oram: CircuitOram<V>, metaHash: PageHash<seq<Slot>>, payloadHash: PageHash<seq<V>>)
    returns (sealed: AuthenticatedCircuitOram<V>)
    requires oram.Valid()
    ensures fresh(sealed) && fresh(sealed.metaTree) && fresh(sealed.payloadTree)
    ensures fresh(sealed.metaTree.inner.pages) && fresh(sealed.payloadTree.inner.pages)
    ensures sealed.posMap == oram.posMap && sealed.stash == oram.stash && sealed.schedule == oram.schedule
    ensures sealed.Cfg() == oram.Cfg() && sealed.metaTree.hash == metaHash && sealed.payloadTree.hash == payloadHash
    ensures sealed.Valid() && sealed.Intact() && sealed.View() == oram.View()
    ensures sealed.metaTree.inner.pages.Length == sealed.payloadTree.inner.pages.Length == oram.params.BucketCount()
  {
    hide SubtreeHash, RefPage, EmbeddedTreePageStore.Honest, EmbeddedTreePageStore.Valid, Trusts, Untampered, JoinAll;
    assert oram.metaStore.pages.Length > 0;
    hide OramParams.BucketCount, OramParams.Valid;
    var metaTree := Seal(oram.metaStore, metaHash);
    var payloadTree := Seal(oram.payloadStore, payloadHash);
    sealed := new AuthenticatedCircuitOram.FromParts(oram.params, oram.draws, oram.zero, metaTree.value,
                                                     payloadTree.value, oram.posMap, oram.stash, oram.schedule,
                                                     oram.rng);
  }

  /** Builds the image of the source over plain stores, seals both, and opens the controller over the
      sealed ones. It stands for the source, and nobody has changed its pages yet. */
  method BuildSealed<V(==)>(p: OramParams, draws: nat -> nat, zero: V, source: seq<V>,
                            metaStore: MemPageStore<seq<Slot>>, payloadStore: MemPageStore<seq<V>>,
                            metaHash: PageHash<seq<Slot>>, payloadHash: PageHash<seq<V>>)
    returns (r: Result<AuthenticatedCircuitOram<V>>)
    requires p.Valid() && metaStore.pages as object != payloadStore.pages as object
    modifies metaStore.pages, payloadStore.pages
    ensures r.Ok? <==>
              && metaStore.pages.Length == payloadStore.pages.Length == p.BucketCount()
              && Build(Config(p, draws, zero), source).Ok?
    ensures r.Ok? ==>
              && fresh(r.value) && fresh(r.value.posMap) && fresh(r.value.stash) && fresh(r.value.schedule)
              && fresh(r.value.metaTree) && fresh(r.value.payloadTree)
              && fresh(r.value.metaTree.inner.pages) && fresh(r.value.payloadTree.inner.pages)
    ensures r.Ok? ==> |source| == p.logicalBlocks
    ensures r.Ok? ==>
              && r.value.Cfg() == Config(p, draws, zero)
              && r.value.metaTree.hash == metaHash && r.value.payloadTree.hash == payloadHash
              && r.value.Valid() && r.value.Intact()
              && r.value.View() == Build(Config(p, draws, zero), source).value
              && r.value.metaTree.inner.pages.Length == r.value.payloadTree.inner.pages.Length == p.BucketCount()
  {
    hide Build, SubtreeHash, RefPage, StoreShape, Trusts, Untampered, WellFormed;
    SourceFits(Config(p, draws, zero), source);
    var built := BuildTrusted(p, draws, zero, source, metaStore, payloadStore);
    if built.Err? {
      return Err(built.error);
    }
    var sealed := SealStores(built.value, metaHash, payloadHash);
    return Ok(sealed);
  }

  /** End to end: build from the source, seal, then serve requests while anyone replaces all stored pages
      before each. Unless one of those pages is forged against what the specified run then trusts, a run
      that completes answers as the source array. */
  method BuildAndServeTampered<V(==,!new)>(p: OramParams, draws: nat -> nat, zero: V, source: seq<V>,
                                           metaStore: MemPageStore<seq<Slot>>, payloadStore: MemPageStore<seq<V>>,
                                           metaHash: PageHash<seq<Slot>>, payloadHash: PageHash<seq<V>>,
                                           ops: seq<Op<V>>,
                                           metaImages: seq<seq<Page<seq<Slot>>>>, payloadImages: seq<seq<Page<seq<V>>>>)
    returns (r: Result<seq<V>>, ghost traffic: seq<Traffic>)
    requires p.Valid() && metaStore.pages as object != payloadStore.pages as object
    requires |metaImages| == |payloadImages| == |ops|
    requires forall i :: 0 <= i < |ops| ==> IdsInRange(ops[i], p.logicalBlocks)
    requires forall i :: 0 <= i < |ops| ==> |metaImages[i]| == |payloadImages[i]| == p.BucketCount()
    requires var built := Build(Config(p, draws, zero), source);
             built.Ok? ==>
               !ForgedInRun(metaHash, payloadHash, Config(p, draws, zero), built.value, ops, metaImages, payloadImages)
    modifies metaStore.pages, payloadStore.pages
    ensures r.Ok? ==> |source| == p.logicalBlocks && r.value == ArrayRun(source, ops).0
    ensures var c := Config(p, draws, zero);
            r.Ok? ==>
              && Build(c, source).Ok? && Run(c, Build(c, source).value, ops).Ok?
              && traffic == RunTraffic(c, Build(c, source).value, ops)
  {
    hide Build, Run, RunTraffic, ForgedInRun, Refines, ArrayRun, WellFormed;
    var sealed := BuildSealed(p, draws, zero, source, metaStore, payloadStore, metaHash, payloadHash);
    if sealed.Err? {
      return Err(sealed.error), [];
    }
    BuildRefinesSource(Config(p, draws, zero), source);
    r, traffic := ServeTamperedArray(sealed.value, ops, metaImages, payloadImages, source);
  }

  /** The same while nobody changes the stored pages: it completes, and answers as the source array, when
      the stores and the source have the right sizes, the image fits the stash, and the requests fit the
      counters and the stash slots left. */
  method BuildAndServeUntouched<V(==,!new)>(p: OramParams, draws: nat -> nat, zero: V, source: seq<V>,
                                            metaStore: MemPageStore<seq<Slot>>, payloadStore: MemPageStore<seq<V>>,
                                            metaHash: PageHash<seq<Slot>>, payloadHash: PageHash<seq<V>>,
                                            ops: seq<Op<V>>)
    returns (r: Result<seq<V>>, ghost traffic: seq<Traffic>)
    requires p.Valid() && metaStore.pages as object != payloadStore.pages as object
    requires forall i :: 0 <= i < |ops| ==> IdsInRange(ops[i], p.logicalBlocks)
    modifies metaStore.pages, payloadStore.pages
    ensures r.Ok? ==> |source| == p.logicalBlocks && r.value == ArrayRun(source, ops).0
    ensures var c := Config(p, draws, zero);
            r.Ok? ==>
              && Build(c, source).Ok? && Run(c, Build(c, source).value, ops).Ok?
              && traffic == RunTraffic(c, Build(c, source).value, ops)
    ensures var c := Config(p, draws, zero);
            r.Ok? <==>
              && metaStore.pages.Length == payloadStore.pages.Length == p.BucketCount()
              && Build(c, source).Ok? && Run(c, Build(c, source).value, ops).Ok?
    ensures var built := Build(Config(p, draws, zero), source);
            && metaStore.pages.Length == payloadStore.pages.Length == p.BucketCount()
            && built.Ok? && built.value.sched.Room(RunIssues(ops))
            && Occupancy(built.value) + RunCost(ops) <= p.stashCapacity ==>
              r.Ok?
  {
    hide Refines, ArrayRun, WellFormed, Run, RunTraffic, Occupancy, PlaceAll;
    var sealed := BuildSealed(p, draws, zero, source, metaStore, payloadStore, metaHash, payloadHash);
    if sealed.Err? {
      return Err(sealed.error), [];
    }
    ghost var c, built := Config(p, draws, zero), Build(Config(p, draws, zero), source).value;
    BuildRefinesSource(c, source);
    RunRefinesArray(c, built, source, ops);
    if built.sched.Room(RunIssues(ops)) && Occupancy(built) + RunCost(ops) <= p.stashCapacity {
      RunCompletes(c, built, source, ops);
    }
    r, traffic := ServeUntouched(sealed.value, ops);
  }
}
