/** The controller over two authenticated trees (src/circuit.rs with the stores of src/embedded_tree.rs).
    The inner pages of both trees may be changed by anyone between calls: `Valid` says nothing of them. */
module AuthenticatedOram {
  import opened Common
  import opened Geometry
  import opened Blocks
  import opened Schedule
  import opened PageStores
  import opened PathOverlay
  import opened OramSpec
  import Spec = OramSpec
  import opened AccessRefinement
  import opened OramScans
  import opened OverlayOps
  import opened SplitStores
  import opened BatchSteps
  import opened RequestedPaths
  import opened EmbeddedSpec
  import opened EmbeddedBatch
  import opened EmbeddedTree
  import opened TrustedPaths

  /** The overlays list exactly the pages of the paths. */
  ghost predicate ListsPaths<P>(overlay: map<nat, P>, paths: seq<seq<nat>>) {
    OnlyListed(overlay, paths) && forall i :: 0 <= i < |paths| ==> Covered(overlay, paths[i])
  }

  /** Bucket paths are paths of the embedded tree. */
  lemma BucketPathsRooted(p: OramParams, leaves: seq<nat>, paths: seq<seq<nat>>)
    requires p.Valid() && |paths| == |leaves|
    requires forall i :: 0 <= i < |leaves| ==> leaves[i] < p.leaves && paths[i] == p.PathNodes(leaves[i])
    ensures AllRooted(paths, p.BucketCount())
  {
    hide RootedPath;
    forall i | 0 <= i < |paths|
      ensures RootedPath(paths[i], p.BucketCount())
    {
      PathIsRooted(p, leaves[i]);
    }
  }

  lemma ScheduledPathsRooted(p: OramParams, sched: Counters, paths: seq<seq<nat>>)
    requires ScheduledPaths(p, sched, paths)
    ensures AllRooted(paths, p.BucketCount())
  {
    hide RootedPath, OramParams.NodeIndex, OramParams.PathNodes, ReverseBitsMod, TrailingZeros, IsPowerOfTwo;
    forall i | 0 <= i < |paths|
      ensures RootedPath(paths[i], p.BucketCount())
    {
      ScheduledLeafInRange(p, sched.completed + i);
      PathIsRooted(p, ReverseBitsMod(sched.completed + i, p.LeafBits()));
    }
  }

  /** The tree as the overlays show it. */
  ghost function Overlaid<V>(tree: Pages<V>, mo: MetaOverlay, po: PayloadOverlay<V>): (r: Pages<V>)
    requires mo.Keys == po.Keys && forall n :: n in mo ==> |mo[n]| == |po[n]|
    ensures |r| == |tree|
  {
    seq(|tree|, n requires 0 <= n < |tree| => if n in mo then Join(mo[n], po[n]) else tree[n])
  }

  /** Overlays of pages that fit show a tree of the right shape, the stores' own where they mirror them. */
  lemma OverlaidShape<V>(p: OramParams, metas: seq<seq<Slot>>, payloads: seq<seq<V>>, paths: seq<seq<nat>>,
                         metaPages: seq<seq<seq<Slot>>>, payloadPages: seq<seq<seq<V>>>,
                         mo: MetaOverlay, po: PayloadOverlay<V>)
    requires StoreShape(p, metas, payloads) && AllRooted(paths, p.BucketCount())
    requires PagesFit(paths, metaPages, p.bucketSize) && Shows(mo, paths, metaPages) && OnlyListed(mo, paths)
    requires PagesFit(paths, payloadPages, p.bucketSize) && Shows(po, paths, payloadPages) && OnlyListed(po, paths)
    ensures ListsPaths(mo, paths) && ListsPaths(po, paths)
    ensures mo.Keys == po.Keys && forall n :: n in mo ==> |mo[n]| == |po[n]|
    ensures var tree := Overlaid(JoinAll(metas, payloads), mo, po);
            TreeShape(p, tree) && ShowsTree(tree, mo, po)
  {
    hide Join, RootedPath;
    ShownSizes(paths, metaPages, mo, p.bucketSize, p.BucketCount());
    ShownSizes(paths, payloadPages, po, p.bucketSize, p.BucketCount());
    SameKeys(mo, po, paths);
    forall n | n in mo
      ensures |Join(mo[n], po[n])| == p.bucketSize
    {
      JoinSize(mo[n], po[n]);
    }
  }

  lemma JoinSize<V>(slots: seq<Slot>, payloads: seq<V>)
    requires |slots| == |payloads|
    ensures |Join(slots, payloads)| == |slots|
  {
  }

  lemma ShownSizes<T>(paths: seq<seq<nat>>, pathPages: seq<seq<seq<T>>>, overlay: map<nat, seq<T>>, pageSize: nat,
                      n: nat)
    requires PagesFit(paths, pathPages, pageSize) && Shows(overlay, paths, pathPages) && OnlyListed(overlay, paths)
    requires AllRooted(paths, n)
    ensures ListsPaths(overlay, paths)
    ensures forall m :: m in overlay ==> m < n && |overlay[m]| == pageSize
  {
    forall m | m in overlay
      ensures m < n && |overlay[m]| == pageSize
    {
      var i :| 0 <= i < |paths| && m in paths[i];
      var d :| 0 <= d < |paths[i]| && paths[i][d] == m;
      assert ShowsPath(overlay, paths[i], pathPages[i]) && PathFits(paths[i], pathPages[i], pageSize);
    }
    forall i | 0 <= i < |paths|
      ensures Covered(overlay, paths[i])
    {
      assert ShowsPath(overlay, paths[i], pathPages[i]);
    }
  }

  lemma MirroredTree<V>(p: OramParams, metas: seq<seq<Slot>>, payloads: seq<seq<V>>, paths: seq<seq<nat>>,
                        mo: MetaOverlay, po: PayloadOverlay<V>)
    requires StoreShape(p, metas, payloads) && mo.Keys == po.Keys && forall n :: n in mo ==> |mo[n]| == |po[n]|
    requires Mirrors(mo, paths, metas) && Mirrors(po, paths, payloads)
    ensures Overlaid(JoinAll(metas, payloads), mo, po) == JoinAll(metas, payloads)
  {
  }

  /** Contents read off overlays make a well-formed write, whose result shows the overlay. */
  lemma WrittenContents<P>(logicals: seq<P>, paths: seq<seq<nat>>, contents: seq<seq<P>>, overlay: map<nat, P>)
    requires AllRooted(paths, |logicals|) && Shows(overlay, paths, contents) && OnlyListed(overlay, paths)
    ensures WellFormedWrite(paths, contents, |logicals|, |paths|)
    ensures forall n :: 0 <= n < |logicals| ==>
              LogicalAfter(logicals, paths, contents, |paths|)[n] == if n in overlay then overlay[n] else logicals[n]
  {
    hide RootedPath, LogicalAfter, Concat, WriteAll;
    forall i | 0 <= i < |paths|
      ensures |contents[i]| == |paths[i]|
    {
      assert ShowsPath(overlay, paths[i], contents[i]);
    }
    LogicalAfterIsFlatWrite(logicals, paths, contents, |paths|);
    assert paths[..|paths|] == paths && contents[..|paths|] == contents;
    WriteBack(logicals, paths, contents, overlay);
  }

  /** Overlays over the same pages still list the paths. */
  lemma StillListed<V>(before: Pages<V>, after: Pages<V>, mo0: MetaOverlay, po0: PayloadOverlay<V>,
                       mo: MetaOverlay, po: PayloadOverlay<V>, paths: seq<seq<nat>>)
    requires ShowsTree(before, mo0, po0) && ShowsTree(after, mo, po) && mo.Keys == mo0.Keys
    requires ListsPaths(mo0, paths) && ListsPaths(po0, paths)
    ensures ListsPaths(mo, paths) && ListsPaths(po, paths)
  {
    hide Join, OnlyListed, Covered;
    KeysCover(mo0, mo, paths);
    KeysCover(po0, po, paths);
  }

  /** One content per page of every path. */
  ghost predicate SizedLike<P>(contents: seq<seq<P>>, paths: seq<seq<nat>>) {
    |contents| == |paths| && forall i :: 0 <= i < |paths| ==> |contents[i]| == |paths[i]|
  }

  /** The contents are those of the listed pages. */
  ghost predicate ReadsOf<P>(logicals: seq<P>, paths: seq<seq<nat>>, contents: seq<seq<P>>) {
    && |contents| == |paths|
    && forall i :: 0 <= i < |paths| ==> AllInRange(paths[i], |logicals|) && contents[i] == ReadAll(logicals, paths[i])
  }

  /** A write of one path is one flat write. */
  lemma OnePathWritten<P>(logicals: seq<P>, path: seq<nat>, content: seq<P>)
    requires RootedPath(path, |logicals|) && |content| == |path|
    ensures WellFormedWrite([path], [content], |logicals|, 1)
    ensures LogicalAfter(logicals, [path], [content], 1) == WriteAll(logicals, path, content, |path|)
  {
    hide WriteAll;
    assert LogicalAfter(logicals, [path], [content], 0) == logicals;
  }

  /** Whether both pages of every bucket decode: every page holds one entry per bucket slot. */
  method PathPagesFit<V>(path: seq<nat>, metas: seq<seq<Slot>>, payloads: seq<seq<V>>, pageSize: nat)
    returns (fit: bool)
    requires |metas| == |payloads| == |path|
    ensures fit <==> PathFits(path, metas, pageSize) && PathFits(path, payloads, pageSize)
  {
    for d := 0 to |path|
      invariant forall e :: 0 <= e < d ==> |metas[e]| == pageSize && |payloads[e]| == pageSize
    {
      if |metas[d]| != pageSize || |payloads[d]| != pageSize {
        return false;
      }
    }
    return true;
  }

  /** A fetch from the joined stores is decided by the joined pages of its path. */
  lemma FetchOnPath<V>(c: Config<V>, stash: seq<Block<V>>, metas: seq<seq<Slot>>, payloads: seq<seq<V>>, leaf: nat,
                       id: nat)
    requires StoreShape(c.params, metas, payloads) && c.params.Valid() && leaf < c.params.leaves
    ensures AllInRange(c.params.PathNodes(leaf), |metas|)
    ensures var path := c.params.PathNodes(leaf);
            var pages := JoinAll(ReadAll(metas, path), ReadAll(payloads, path));
            var spec := Fetch(c, stash, JoinAll(metas, payloads), leaf, id);
            && (spec.Ok? <==> Fetched(stash, pages, id, c.zero).Ok?)
            && (spec.Ok? ==> spec.value.0 == Fetched(stash, pages, id, c.zero).value.0)
  {
    hide Fetched, OramParams.NodeIndex, Join;
    PathNodesDistinct(c.params, leaf);
    var path := c.params.PathNodes(leaf);
    assert JoinAll(ReadAll(metas, path), ReadAll(payloads, path)) == ReadAll(JoinAll(metas, payloads), path);
  }

  /** Writing the scanned pages back to both stores gives the fetched tree. */
  lemma FetchedTree<V>(c: Config<V>, stash: seq<Block<V>>, metas: seq<seq<Slot>>, payloads: seq<seq<V>>, leaf: nat,
                       id: nat, newMetas: seq<seq<Slot>>, newPayloads: seq<seq<V>>)
    requires StoreShape(c.params, metas, payloads) && c.params.Valid() && leaf < c.params.leaves
    requires AllInRange(c.params.PathNodes(leaf), |metas|)
    requires var path := c.params.PathNodes(leaf);
             var fetched := Fetched(stash, JoinAll(ReadAll(metas, path), ReadAll(payloads, path)), id, c.zero);
             fetched.Ok? && JoinedPages(newMetas, newPayloads, fetched.value.1)
    ensures Fetch(c, stash, JoinAll(metas, payloads), leaf, id).Ok?
    ensures var path := c.params.PathNodes(leaf);
            var metas' := WriteAll(metas, path, newMetas, |path|);
            var payloads' := WriteAll(payloads, path, newPayloads, |path|);
            && StoreShape(c.params, metas', payloads')
            && JoinAll(metas', payloads') == Fetch(c, stash, JoinAll(metas, payloads), leaf, id).value.1
  {
    hide Fetched, OramParams.NodeIndex, Join, WriteAll;
    PathNodesDistinct(c.params, leaf);
    var path, tree := c.params.PathNodes(leaf), JoinAll(metas, payloads);
    assert JoinAll(ReadAll(metas, path), ReadAll(payloads, path)) == ReadAll(tree, path);
    var after := Fetched(stash, ReadAll(tree, path), id, c.zero).value.1;
    FetchedSizes(c.params, stash, tree, path, id, c.zero);
    JoinedWrite(c.params, metas, payloads, path, newMetas, newPayloads, after, |path|);
  }

  class AuthenticatedCircuitOram<V(==)> {
    const params: OramParams
    const draws: nat -> nat
    const zero: V
    const metaTree: EmbeddedTreePageStore<seq<Slot>>
    const payloadTree: EmbeddedTreePageStore<seq<V>>
    const posMap: array<nat>
    const stash: array<Block<V>>
    const schedule: CircuitEvictionSchedule
    var rng: nat
    /** The contents the trusted roots stand for. */
    ghost var metas: seq<seq<Slot>>
    ghost var payloads: seq<seq<V>>

    function Cfg(): Config<V> {
      Config(params, draws, zero)
    }

    /** The roots are those of the reference contents; the stored pages may be anything. */
    ghost predicate Trusting()
      reads this`metas, this`payloads, metaTree, payloadTree
    {
      && metaTree as object != payloadTree as object
      && metaTree.inner.pages as object != payloadTree.inner.pages as object
      && StoreShape(params, metas, payloads)
      && Trusts(metaTree, metas) && Trusts(payloadTree, payloads)
    }

    ghost function Tree(): Pages<V>
      requires Trusting()
      reads this`metas, this`payloads, metaTree, payloadTree
    {
      JoinAll(metas, payloads)
    }

    ghost function View(): State<V>
      requires Trusting()
      reads this, posMap, stash, metaTree, payloadTree, schedule
    {
      State(posMap[..], stash[..], Tree(), rng, schedule.View())
    }

    ghost predicate Valid()
      reads this, posMap, stash, metaTree, payloadTree, schedule
    {
      Trusting() && WellFormed(Cfg(), View())
    }

    /** A store shows a page that is not the reference page but has its digest. */
    ghost predicate Forged()
      reads this`metas, this`payloads, metaTree.inner.pages, payloadTree.inner.pages
    {
      || ForgedAt(metaTree.hash, metas, metaTree.inner.pages[..])
      || ForgedAt(payloadTree.hash, payloads, payloadTree.inner.pages[..])
    }

    /** Nobody has changed the stored pages. */
    ghost predicate Intact()
      reads this`metas, this`payloads, metaTree.inner.pages, payloadTree.inner.pages
    {
      Untampered(metaTree, metas) && Untampered(payloadTree, payloads)
    }

    /** The caches hold an accepted read of the paths. */
    ghost predicate JustRead(paths: seq<seq<nat>>)
      reads metaTree, payloadTree, metaTree.inner.pages, payloadTree.inner.pages
    {
      && HasRead(metaTree, metaTree.inner.pages[..], paths)
      && HasRead(payloadTree, payloadTree.inner.pages[..], paths)
    }

    constructor FromParts(params: OramParams, draws: nat -> nat, zero: V, metaTree: EmbeddedTreePageStore<seq<Slot>>,
                          payloadTree: EmbeddedTreePageStore<seq<V>>, posMap: array<nat>, stash: array<Block<V>>,
                          schedule: CircuitEvictionSchedule, rng: nat)
      ensures this.params == params && this.draws == draws && this.zero == zero && this.rng == rng
      ensures this.metaTree == metaTree && this.payloadTree == payloadTree
      ensures this.posMap == posMap && this.stash == stash && this.schedule == schedule
      ensures metas == metaTree.Logicals() && payloads == payloadTree.Logicals()
      ensures metaTree.Valid() && metaTree.Honest() ==> Trusts(metaTree, metas) && Untampered(metaTree, metas)
      ensures payloadTree.Valid() && payloadTree.Honest() ==>
                Trusts(payloadTree, payloads) && Untampered(payloadTree, payloads)
    {
      this.params, this.draws, this.zero := params, draws, zero;
      this.metaTree, this.payloadTree := metaTree, payloadTree;
      this.posMap, this.stash, this.schedule, this.rng := posMap, stash, schedule, rng;
      this.metas, this.payloads := metaTree.Logicals(), payloadTree.Logicals();
    }

    /** Reads the paths from both stores. Unless a page was forged, the pages are those of the trusted
        contents; stores nobody changed are never refused. */
    method ReadBoth(paths: seq<seq<nat>>)
      returns (r: Result<(seq<seq<seq<Slot>>>, seq<seq<seq<V>>>)>, ghost readPaths: seq<seq<nat>>)
      requires Trusting() && AllRooted(paths, params.BucketCount())
      modifies metaTree`cache, payloadTree`cache
      ensures Trusting()
      ensures r.Ok? ==>
                && JustRead(paths) && SizedLike(r.value.0, paths) && SizedLike(r.value.1, paths)
                && readPaths == paths
      ensures r.Ok? && !Forged() ==> ReadsOf(metas, paths, r.value.0) && ReadsOf(payloads, paths, r.value.1)
      ensures Intact() ==> r.Ok? && !Forged()
    {
      hide RootedPath, Accepts, CollisionIn, PagesOf, VerifiedSet, SubtreeHash, RefPage, ForgedAt;
      if Intact() {
        UntamperedReads(metaTree.hash, metas, paths);
        UntamperedReads(payloadTree.hash, payloads, paths);
      }
      if !Forged() {
        NotForged(metaTree.hash, metas, metaTree.inner.pages[..], paths);
        NotForged(payloadTree.hash, payloads, payloadTree.inner.pages[..], paths);
      }
      var metaRead := ReadTrusted(metaTree, paths, metas);
      if metaRead.Err? {
        return Err(metaRead.error), [];
      }
      var payloadRead := ReadTrusted(payloadTree, paths, payloads);
      if payloadRead.Err? {
        return Err(payloadRead.error), [];
      }
      return Ok((metaRead.value, payloadRead.value)), paths;
    }

    /** Writes the paths just read to both stores. Unless a page was forged, the trusted roots are then
        those of the written contents, and stores nobody changed hold them. */
    method WriteBoth(paths: seq<seq<nat>>, newMetas: seq<seq<seq<Slot>>>, newPayloads: seq<seq<seq<V>>>)
      returns (r: Result<()>, ghost written: seq<seq<nat>>)
      requires Trusting() && JustRead(paths) && paths != [] && AllRooted(paths, params.BucketCount())
      requires |newMetas| == |newPayloads| == |paths|
      requires WellFormedWrite(paths, newMetas, |metas|, |paths|) &&
               WellFormedWrite(paths, newPayloads, |payloads|, |paths|)
      modifies this`metas, this`payloads, metaTree`cache, metaTree`rootHash, payloadTree`cache, payloadTree`rootHash,
               metaTree.inner.pages, payloadTree.inner.pages
      ensures metas == LogicalAfter(old(metas), paths, newMetas, |paths|)
      ensures payloads == LogicalAfter(old(payloads), paths, newPayloads, |paths|)
      ensures !old(Forged()) ==> r.Ok? && Trusts(metaTree, metas) && Trusts(payloadTree, payloads)
      ensures old(Intact()) && r.Ok? ==> Intact()
      ensures r.Ok? ==> written == paths
    {
      hide RootedPath, Accepts, CollisionIn, PagesOf, SubtreeHash, RefPage, ForgedAt, LogicalAfter, WellFormedWrite;
      ghost var metas0, payloads0 := metas, payloads;
      if !Forged() {
        NotForged(metaTree.hash, metas, metaTree.inner.pages[..], paths);
        NotForged(payloadTree.hash, payloads, payloadTree.inner.pages[..], paths);
      }
      metas := LogicalAfter(metas0, paths, newMetas, |paths|);
      payloads := LogicalAfter(payloads0, paths, newPayloads, |paths|);
      var wroteMeta := WriteTrusted(metaTree, paths, newMetas, metas0, metaTree.inner.pages[..]);
      if wroteMeta.Err? {
        return Err(wroteMeta.error), [];
      }
      var wrotePayload := WriteTrusted(payloadTree, paths, newPayloads, payloads0, payloadTree.inner.pages[..]);
      if wrotePayload.Err? {
        return Err(wrotePayload.error), [];
      }
      return Ok(()), paths;
    }

    /** Writes one path just read to both stores. */
    method WriteOne(path: seq<nat>, newMetas: seq<seq<Slot>>, newPayloads: seq<seq<V>>)
      returns (r: Result<()>, ghost written: seq<seq<nat>>)
      requires Trusting() && JustRead([path]) && AllRooted([path], params.BucketCount())
      requires |newMetas| == |newPayloads| == |path| && AllInRange(path, params.BucketCount())
      modifies this`metas, this`payloads, metaTree`cache, metaTree`rootHash, payloadTree`cache, payloadTree`rootHash,
               metaTree.inner.pages, payloadTree.inner.pages
      ensures |old(metas)| == |old(payloads)| == params.BucketCount()
      ensures metas == WriteAll(old(metas), path, newMetas, |path|)
      ensures payloads == WriteAll(old(payloads), path, newPayloads, |path|)
      ensures !old(Forged()) ==> r.Ok? && Trusts(metaTree, metas) && Trusts(payloadTree, payloads)
      ensures old(Intact()) && r.Ok? ==> Intact()
      ensures r.Ok? ==> written == [path]
    {
      hide RootedPath, ForgedAt, RefPage, LogicalAfter, WellFormedWrite, WriteAll, HasRead, Trusts, Untampered;
      assert RootedPath([path][0], params.BucketCount());
      OnePathWritten(metas, path, newMetas);
      OnePathWritten(payloads, path, newPayloads);
      r, written := WriteBoth([path], [newMetas], [newPayloads]);
    }

    /** Reads a path, moves the target from it to the stash, and rewrites every page of the path. */
    method ReadAndRemoveTargetPath(leaf: nat, id: nat) returns (r: Result<()>, ghost asked: Traffic)
      requires Valid() && leaf < params.leaves
      modifies this`metas, this`payloads, stash, metaTree, payloadTree, metaTree.inner.pages, payloadTree.inner.pages
      ensures var spec := Fetch(Cfg(), old(stash[..]), old(Tree()), leaf, id);
              && (r.Ok? ==>
                    old(Forged()) || (spec.Ok? && Trusting() && stash[..] == spec.value.0 && Tree() == spec.value.1))
              && (old(Intact()) ==> !old(Forged()) && (r.Ok? <==> spec.Ok?) && (r.Ok? ==> Intact()))
      ensures r.Ok? ==> asked == ThereAndBack(params, [leaf])
    {
      asked := SILENCE;
      hide OramParams.NodeIndex, TakeFromPath, Join, JoinAll, ForgedAt, RefPage, RootedPath, Fetched, Fetch, WriteAll,
           Trusts, HasRead, Untampered;
      var path := params.PathNodes(leaf);
      BucketPathsRooted(params, [leaf], [path]);
      var read;
      ghost var readPaths, written;
      read, readPaths := ReadBoth([path]);
      if read.Err? {
        return Err(read.error), asked;
      }
      var oldMetas, oldPayloads := read.value.0[0], read.value.1[0];
      var fit := PathPagesFit(path, oldMetas, oldPayloads, params.bucketSize);
      if !fit {
        return Err(InvalidInput), asked;
      }
      ghost var pages := JoinAll(oldMetas, oldPayloads);
      ghost var before := stash[..];
      FetchOnPath(Cfg(), before, metas, payloads, leaf, id);
      var fetched := FetchFromPages(stash, oldMetas, oldPayloads, id, zero, pages);
      if fetched.Err? {
        return Err(fetched.error), asked;
      }
      if !Forged() {
        FetchedTree(Cfg(), before, metas, payloads, leaf, id, fetched.value.0, fetched.value.1);
      }
      r, written := WriteOne(path, fetched.value.0, fetched.value.1);
      asked := Traffic(readPaths, written);
    }

    /** Reads and verifies every page of several paths into one overlay per store. Unless a page was
        forged, the overlays show the tree of the trusted roots. */
    method ReadOverlays(paths: seq<seq<nat>>)
      returns (r: Result<(MetaOverlay, PayloadOverlay<V>)>, ghost tree: Pages<V>,
               ghost readPaths: seq<seq<nat>>)
      requires Trusting() && AllRooted(paths, params.BucketCount())
      modifies metaTree`cache, payloadTree`cache
      ensures Trusting()
      ensures r.Ok? ==>
                && JustRead(paths) && ListsPaths(r.value.0, paths) && ListsPaths(r.value.1, paths)
                && TreeShape(params, tree) && ShowsTree(tree, r.value.0, r.value.1)
                && SameElsewhere(tree, Tree(), r.value.0.Keys) && readPaths == paths
      ensures r.Ok? && !Forged() ==> tree == Tree()
      ensures Intact() ==> r.Ok? && !Forged()
    {
      hide Join, JoinAll, RootedPath, Accepts, CollisionIn, PagesOf, VerifiedSet, SubtreeHash, RefPage, ForgedAt,
           Concat, Shows, PagesFit, Consistent, OnlyListed, Mirrors;
      tree := Tree();
      var read;
      read, readPaths := ReadBoth(paths);
      if read.Err? {
        return Err(read.error), tree, readPaths;
      }
      var (metaPages, payloadPages) := read.value;
      if !Forged() {
        StoreReadsAgree(metas, paths, metaPages, params.bucketSize);
        StoreReadsAgree(payloads, paths, payloadPages, params.bucketSize);
      }
      var mo := OverlayPathPages(paths, metaPages, params.bucketSize);
      if mo.Err? {
        return Err(mo.error), tree, readPaths;
      }
      var po := OverlayPathPages(paths, payloadPages, params.bucketSize);
      if po.Err? {
        return Err(po.error), tree, readPaths;
      }
      OverlaidShape(params, metas, payloads, paths, metaPages, payloadPages, mo.value, po.value);
      tree := Overlaid(Tree(), mo.value, po.value);
      if !Forged() {
        ReadsMirrorStore(metas, paths, metaPages, mo.value);
        ReadsMirrorStore(payloads, paths, payloadPages, po.value);
        MirroredTree(params, metas, payloads, paths, mo.value, po.value);
      }
      return Ok((mo.value, po.value)), tree, readPaths;
    }

    /** Writes the overlays back along the paths just read. Unless a page was forged, the trusted roots
        then stand for `tree`, and stores nobody changed hold it. */
    method WriteOverlays(paths: seq<seq<nat>>, mo: MetaOverlay, po: PayloadOverlay<V>, ghost tree: Pages<V>)
      returns (r: Result<()>, ghost written: seq<seq<nat>>)
      requires Trusting() && JustRead(paths) && paths != [] && AllRooted(paths, params.BucketCount())
      requires ListsPaths(mo, paths) && ListsPaths(po, paths)
      requires TreeShape(params, tree) && ShowsTree(tree, mo, po) && SameElsewhere(tree, Tree(), mo.Keys)
      modifies this`metas, this`payloads, metaTree`cache, metaTree`rootHash, payloadTree`cache, payloadTree`rootHash,
               metaTree.inner.pages, payloadTree.inner.pages
      ensures !old(Forged()) ==> r.Ok? && Trusting() && Tree() == tree
      ensures old(Intact()) && r.Ok? ==> Intact()
      ensures r.Ok? ==> written == paths
    {
      hide Join, JoinAll, RootedPath, Accepts, CollisionIn, PagesOf, SubtreeHash, RefPage, ForgedAt, Shows,
           LogicalAfter, WellFormedWrite, OnlyListed;
      var metaPages := CollectOverlayPaths(paths, mo);
      var payloadPages := CollectOverlayPaths(paths, po);
      WrittenContents(metas, paths, metaPages.value, mo);
      WrittenContents(payloads, paths, payloadPages.value, po);
      StoresHoldTree(params, metas, payloads, LogicalAfter(metas, paths, metaPages.value, |paths|),
                     LogicalAfter(payloads, paths, payloadPages.value, |paths|), mo, po, tree);
      r, written := WriteBoth(paths, metaPages.value, payloadPages.value);
    }

    /** Reads and updates one block. Whatever the stores hold: an access that completes has given the
        answer and the new contents of the specified access, or a forged page is shown. Over stores
        nobody changed it completes whenever that access does. */
    method Access(id: nat, update: V -> V) returns (r: Result<V>, ghost asked: Traffic)
      requires Valid()
      modifies this, posMap, stash, schedule, metaTree, payloadTree, metaTree.inner.pages, payloadTree.inner.pages
      ensures var spec := Spec.Access(Cfg(), old(View()), id, update);
              && (r.Ok? ==> old(Forged()) || (spec.Ok? && Valid() && r.value == spec.value.0 && View() == spec.value.1))
              && (old(Intact()) ==> (r.Ok? <==> spec.Ok?) && (r.Ok? ==> Valid() && Intact()))
      ensures r.Ok? ==> id < |old(posMap[..])| && asked == ThereAndBack(params, [old(posMap[..])[id]])
    {
      asked := SILENCE;
      hide Spec.Access, Fetch, OramParams.NodeIndex, ScanPayload, Restamp, Join, JoinAll, ForgedAt, RefPage, Trusting,
           RootedPath, OramParams.BucketCount, OramParams.PathNodes, Trusts, HasRead, Untampered, StoreShape;
      AccessCases(Cfg(), View(), id, update);
      if id >= params.logicalBlocks {
        return Err(InvalidInput), asked;
      }
      var oldLeaf := ScanPosMapLookup(posMap, id);
      var fetched;
      fetched, asked := ReadAndRemoveTargetPath(oldLeaf, id);
      if fetched.Err? {
        return Err(fetched.error), asked;
      }
      var newLeaf := RandomLeaf(Cfg(), rng);
      rng := rng + 1;
      r := Respond(posMap, stash, schedule, id, newLeaf, update, zero);
    }

    /** Several paths are read and written back as they are. */
    method RewritePaths(paths: seq<seq<nat>>) returns (r: Result<()>, ghost asked: Traffic)
      requires Valid() && paths != [] && AllRooted(paths, params.BucketCount())
      modifies this`metas, this`payloads, metaTree, payloadTree, metaTree.inner.pages, payloadTree.inner.pages
      ensures r.Ok? && !old(Forged()) ==> Trusting() && Tree() == old(Tree())
      ensures old(Intact()) ==> !old(Forged()) && r.Ok? && Intact()
      ensures r.Ok? ==> asked == Traffic(paths, paths)
    {
      asked := SILENCE;
      hide Join, JoinAll, RootedPath, ForgedAt, RefPage, Trusting;
      var read;
      ghost var seen, readPaths, written;
      read, seen, readPaths := ReadOverlays(paths);
      if read.Err? {
        return Err(read.error), asked;
      }
      r, written := WriteOverlays(paths, read.value.0, read.value.1, seen);
      asked := Traffic(readPaths, written);
    }

    /** Reads one path and writes the very pages back. */
    method ReadAndRewritePath(leaf: nat) returns (r: Result<()>, ghost asked: Traffic)
      requires Valid() && leaf < params.leaves
      modifies this`metas, this`payloads, metaTree, payloadTree, metaTree.inner.pages, payloadTree.inner.pages
      ensures r.Ok? && !old(Forged()) ==> Trusting() && Tree() == old(Tree())
      ensures old(Intact()) ==> !old(Forged()) && r.Ok? && Intact()
      ensures r.Ok? ==> asked == ThereAndBack(params, [leaf])
    {
      asked := SILENCE;
      hide Join, JoinAll, ForgedAt, RefPage, RootedPath, LogicalAfter, OramParams.NodeIndex, WriteAll, Trusts, HasRead,
           Untampered;
      var path := params.PathNodes(leaf);
      BucketPathsRooted(params, [leaf], [path]);
      PathNodesDistinct(params, leaf);
      var read;
      ghost var readPaths, written;
      read, readPaths := ReadBoth([path]);
      if read.Err? {
        return Err(read.error), asked;
      }
      if !Forged() {
        RewriteUnchanged(metas, path, read.value.0[0], |path|);
        RewriteUnchanged(payloads, path, read.value.1[0], |path|);
      }
      r, written := WriteOne(path, read.value.0[0], read.value.1[0]);
      asked := Traffic(readPaths, written);
    }

    /** An access that selects nothing, with the same guarantee. */
    method DummyAccess() returns (r: Result<()>, ghost asked: Traffic)
      requires Valid()
      modifies this, schedule, metaTree, payloadTree, metaTree.inner.pages, payloadTree.inner.pages
      ensures var spec := Spec.DummyAccess(Cfg(), old(View()));
              && (r.Ok? ==> old(Forged()) || (spec.Ok? && Valid() && View() == spec.value))
              && (old(Intact()) ==> (r.Ok? <==> spec.Ok?) && (r.Ok? ==> Valid() && Intact()))
      ensures r.Ok? ==> asked == ThereAndBack(params, [RandomLeaf(Cfg(), old(rng))])
    {
      hide OramParams.NodeIndex, Join, JoinAll, ForgedAt, RefPage, Trusting;
      var leaf := RandomLeaf(Cfg(), rng);
      rng := rng + 1;
      var rewritten;
      rewritten, asked := ReadAndRewritePath(leaf);
      if rewritten.Err? {
        return Err(rewritten.error), asked;
      }
      r := schedule.RecordAccess();
    }

    /** Several dummy accesses over one overlay, with the same guarantee. */
    method DummyAccessBatch(count: nat) returns (r: Result<()>, ghost asked: Traffic)
      requires Valid()
      modifies this, schedule, metaTree, payloadTree, metaTree.inner.pages, payloadTree.inner.pages
      ensures var spec := DummyAll(Cfg(), old(View()), count);
              && (r.Ok? ==> old(Forged()) || (spec.Ok? && Valid() && View() == spec.value))
              && (old(Intact()) ==> (r.Ok? <==> spec.Ok?) && (r.Ok? ==> Valid() && Intact()))
      ensures r.Ok? ==> asked == ThereAndBack(params, DummyShown(Cfg(), old(rng), count))
    {
      NoDummiesShown(Cfg(), rng);
      DummyAllClosedForm(Cfg(), View(), count);
      hide OramParams.NodeIndex, Join, JoinAll, DummyAll, ForgedAt, RefPage, Trusting, RootedPath, ThereAndBack,
           DummyShown, OramParams.BucketCount, OramParams.PathNodes, Trusts, HasRead, Untampered, StoreShape;
      asked := SILENCE;
      if count == 0 {
        return Ok(()), asked;
      }
      r, asked := RewriteAndRecord(count, View());
    }

    method RewriteAndRecord(count: nat, ghost s0: State<V>) returns (r: Result<()>, ghost asked: Traffic)
      requires Valid() && 0 < count && s0 == View()
      modifies this, schedule, metaTree, payloadTree, metaTree.inner.pages, payloadTree.inner.pages
      ensures r.Ok? ==>
                && s0.sched.issued + count <= U64_MAX
                && (!old(Forged()) ==>
                      && Trusting() && schedule.Valid()
                      && View() == s0.(rng := s0.rng + count, sched := s0.sched.(issued := s0.sched.issued + count)))
      ensures old(Intact()) ==>
                !old(Forged()) && (r.Ok? <==> s0.sched.issued + count <= U64_MAX) && (r.Ok? ==> Intact())
      ensures r.Ok? ==> asked == ThereAndBack(params, DummyShown(Cfg(), s0.rng, count))
    {
      hide OramParams.NodeIndex, Join, JoinAll, ForgedAt, RefPage, Trusting, RootedPath, ThereAndBack, DummyShown,
           OramParams.BucketCount, OramParams.PathNodes, Trusts, HasRead, Untampered, StoreShape;
      var rewritten;
      rewritten, asked := RewriteDrawn(count);
      rng := rng + count;
      if rewritten.Err? {
        return Err(rewritten.error), asked;
      }
      r := RecordAccesses(schedule, count);
    }

    /** The paths of the next `count` draws are read and written back as they are. */
    method RewriteDrawn(count: nat) returns (r: Result<()>, ghost asked: Traffic)
      requires Valid() && 0 < count
      modifies this`metas, this`payloads, metaTree, payloadTree, metaTree.inner.pages, payloadTree.inner.pages
      ensures r.Ok? && !old(Forged()) ==> Trusting() && Tree() == old(Tree())
      ensures old(Intact()) ==> !old(Forged()) && r.Ok? && Intact()
      ensures r.Ok? ==> asked == ThereAndBack(params, DummyShown(Cfg(), rng, count))
    {
      hide OramParams.NodeIndex, Join, JoinAll, ForgedAt, RefPage, Trusting, RootedPath, ThereAndBack, DummyShown,
           OramParams.BucketCount, OramParams.PathNodes, Trusts, HasRead, Untampered, StoreShape;
      var leaves := DrawLeaves(Cfg(), rng, count);
      var paths := PathsOf(params, leaves);
      BucketPathsRooted(params, leaves, paths);
      DrawnPathsShown(Cfg(), rng, leaves, paths);
      r, asked := RewritePaths(paths);
    }

    /** Several accesses over one overlay. Whatever the stores hold: a batch that completes has given the
        answers and the new contents of one access after the other, or a forged page is shown. Over
        stores nobody changed it completes whenever those accesses do. */
    method AccessBatch(ids: seq<nat>, update: (nat, nat, V) -> V) returns (r: Result<seq<V>>, ghost asked: Traffic)
      requires Valid()
      modifies this, posMap, stash, schedule, metaTree, payloadTree, metaTree.inner.pages, payloadTree.inner.pages
      ensures var spec := AccessAll(Cfg(), old(View()), ids, update, |ids|);
              && (r.Ok? ==> old(Forged()) || (spec.Ok? && Valid() && r.value == spec.value.0 && View() == spec.value.1))
              && (old(Intact()) ==> (r.Ok? <==> spec.Ok?) && (r.Ok? ==> Valid() && Intact()))
              && (r.Ok? && spec.Ok? ==>
                    asked == ThereAndBack(params, BatchShown(Cfg(), old(View()), ids, update, |ids|)))
    {
      ghost var c, s0 := Cfg(), View();
      EmptyBatch(c, s0, ids, update);
      asked := SILENCE;
      hide OramParams.NodeIndex, Join, JoinAll, ForgedAt, RefPage, Trusting, AccessAll, BatchShown, ThereAndBack;
      if |ids| == 0 {
        return Ok([]), asked;
      }
      for i := 0 to |ids|
        invariant forall k :: 0 <= k < i ==> ids[k] < params.logicalBlocks
      {
        if ids[i] >= params.logicalBlocks {
          OutOfRangeFails(c, s0, ids, update, i);
          return Err(InvalidInput), asked;
        }
      }
      r, asked := AccessInBatch(ids, update, s0);
    }

    /** A batch of ids in range: labels, paths, and the accesses along them. */
    method AccessInBatch(ids: seq<nat>, update: (nat, nat, V) -> V, ghost s0: State<V>)
      returns (r: Result<seq<V>>, ghost asked: Traffic)
      requires Valid() && s0 == View() && ids != [] && forall i :: 0 <= i < |ids| ==> ids[i] < params.logicalBlocks
      modifies this, posMap, stash, schedule, metaTree, payloadTree, metaTree.inner.pages, payloadTree.inner.pages
      ensures var spec := AccessAll(Cfg(), s0, ids, update, |ids|);
              && (r.Ok? ==> old(Forged()) || (spec.Ok? && Valid() && r.value == spec.value.0 && View() == spec.value.1))
              && (old(Intact()) ==> (r.Ok? <==> spec.Ok?) && (r.Ok? ==> Valid() && Intact()))
              && (r.Ok? && spec.Ok? ==> asked == ThereAndBack(params, BatchShown(Cfg(), s0, ids, update, |ids|)))
    {
      hide OramParams.NodeIndex, Join, JoinAll, ForgedAt, RefPage, Trusting, AccessAll, BatchShown, ThereAndBack,
           LastLabel, RandomLeaf;
      ghost var c := Cfg();
      var oldLeaves := ScanPosMapLookupBatch(posMap, ids);
      var newLeaves := DrawLeaves(Cfg(), rng, |ids|);
      var leaves := BatchAccessLeaves(ids, oldLeaves, newLeaves);
      BatchLeavesInRange(c, s0, ids, newLeaves, leaves);
      var paths := PathsOf(params, leaves);
      BucketPathsRooted(params, leaves, paths);
      if AccessAll(c, s0, ids, update, |ids|).Ok? {
        BatchPathsShown(c, s0, ids, update, newLeaves, leaves, paths);
      }
      r, asked := AccessAlongPaths(ids, update, newLeaves, leaves, paths, s0);
    }

    method AccessAlongPaths(ids: seq<nat>, update: (nat, nat, V) -> V, newLeaves: seq<nat>, leaves: seq<nat>,
                            paths: seq<seq<nat>>, ghost s0: State<V>)
      returns (r: Result<seq<V>>, ghost asked: Traffic)
      requires Valid() && s0 == View() && ids != []
      requires |ids| == |newLeaves| == |leaves| == |paths|
      requires forall i :: 0 <= i < |ids| ==> ids[i] < params.logicalBlocks
      requires Drawn(Cfg(), rng, newLeaves) && BatchLeaves(s0.pos, ids, newLeaves, leaves)
      requires forall i :: 0 <= i < |ids| ==> paths[i] == params.PathNodes(leaves[i])
      requires AllRooted(paths, params.BucketCount())
      modifies this, posMap, stash, schedule, metaTree, payloadTree, metaTree.inner.pages, payloadTree.inner.pages
      ensures var spec := AccessAll(Cfg(), s0, ids, update, |ids|);
              && (r.Ok? ==> old(Forged()) || (spec.Ok? && Valid() && r.value == spec.value.0 && View() == spec.value.1))
              && (old(Intact()) ==> (r.Ok? <==> spec.Ok?) && (r.Ok? ==> Valid() && Intact()))
      ensures r.Ok? ==> asked == Traffic(paths, paths)
    {
      asked := SILENCE;
      hide OramParams.NodeIndex, Join, JoinAll, AccessAll, ForgedAt, RefPage, RootedPath, Trusting, OnlyListed, Covered,
           ShowsTree, SameElsewhere, Drawn, BatchLeaves, OramParams.BucketCount, OramParams.PathNodes, OramParams.Valid;
      ghost var c := Cfg();
      var read;
      ghost var seen, readPaths, written;
      read, seen, readPaths := ReadOverlays(paths);
      if read.Err? {
        return Err(read.error), asked;
      }
      var (mo0, po0) := read.value;
      ghost var s1 := s0.(tree := seen);
      var applied := ApplyAccesses(Cfg(), stash, schedule, ids, update, newLeaves, leaves, paths, mo0, po0, s1);
      if applied.Err? {
        return Err(applied.error), asked;
      }
      var (outputs, mo, po) := applied.value;
      ghost var s: State<V> := AccessAll(c, s1, ids, update, |ids|).value.1;
      BatchLabels(c, s1, s, ids, update, newLeaves, outputs, |ids|);
      StillListed(seen, s.tree, mo0, po0, mo, po, paths);
      StayElsewhere(s.tree, seen, Tree(), mo.Keys);
      r, written := CommitBatch(ids, newLeaves, paths, mo, po, s, outputs);
      asked := Traffic(readPaths, written);
    }

    /** The end of a batch: labels, random position, and the pages written back. */
    method CommitBatch(ids: seq<nat>, newLeaves: seq<nat>, paths: seq<seq<nat>>, mo: MetaOverlay, po: PayloadOverlay<V>,
                       ghost s: State<V>, outputs: seq<V>) returns (r: Result<seq<V>>, ghost written: seq<seq<nat>>)
      requires Trusting() && JustRead(paths) && paths != [] && AllRooted(paths, params.BucketCount())
      requires |ids| == |newLeaves| && posMap.Length == params.logicalBlocks
      requires s.pos == Relabel(posMap[..], ids, newLeaves, |ids|) && s.rng == rng + |ids|
      requires WellFormed(Cfg(), s) && stash[..] == s.stash && schedule.View() == s.sched
      requires ListsPaths(mo, paths) && ListsPaths(po, paths)
      requires ShowsTree(s.tree, mo, po) && SameElsewhere(s.tree, Tree(), mo.Keys)
      modifies this`rng, this`metas, this`payloads, posMap, metaTree`cache, metaTree`rootHash, payloadTree`cache,
               payloadTree`rootHash, metaTree.inner.pages, payloadTree.inner.pages
      ensures !old(Forged()) ==> r == Ok(outputs) && Valid() && View() == s
      ensures r.Ok? ==> r.value == outputs
      ensures old(Intact()) && r.Ok? ==> Intact()
      ensures r.Ok? ==> written == paths
    {
      hide Join, JoinAll, ForgedAt, RefPage, RootedPath, Trusting, OnlyListed, Covered, ShowsTree, SameElsewhere,
           OramParams.NodeIndex, OramParams.BucketCount, OramParams.PathNodes, OramParams.Valid;
      ScanPosMapUpdateBatch(posMap, ids, newLeaves);
      rng := rng + |ids|;
      var wrote;
      wrote, written := WriteOverlays(paths, mo, po, s.tree);
      if wrote.Err? {
        return Err(wrote.error), written;
      }
      return Ok(outputs), written;
    }

    /** Drains up to `budget` scheduled evictions over one overlay, with the same guarantee. */
    method DrainEvictions(budget: nat) returns (r: Result<nat>, ghost asked: Traffic)
      requires Valid()
      modifies this, stash, schedule, metaTree, payloadTree, metaTree.inner.pages, payloadTree.inner.pages
      ensures var spec := Spec.DrainEvictions(Cfg(), old(View()), budget);
              && (r.Ok? ==> old(Forged()) || (spec.Ok? && Valid() && r.value == spec.value.0 && View() == spec.value.1))
              && (old(Intact()) ==> (r.Ok? <==> spec.Ok?) && (r.Ok? ==> Valid() && Intact()))
      ensures r.Ok? ==>
                && 0 < params.LeafBits() <= 32
                && asked == ThereAndBack(params, DrainShown(params, old(schedule.View()).completed, r.value))
    {
      ghost var c, s0 := Cfg(), View();
      LeafBitsFit(params);
      SilenceShown(params, s0.sched.completed);
      DrainOutcome(c, s0, budget);
      hide OramParams.NodeIndex, Join, JoinAll, Spec.DrainEvictions, Drain, ForgedAt, RefPage, Trusting, RootedPath,
           OramParams.BucketCount, OramParams.PathNodes, Trusts, HasRead, Untampered, StoreShape, ThereAndBack,
           DrainShown, OramParams.LeafBits, Counters.Pending;
      asked := SILENCE;
      var pending := schedule.View().Pending();
      if pending.Err? {
        return Err(pending.error), asked;
      }
      var toDrain := if budget < pending.value then budget else pending.value;
      if toDrain == 0 {
        return Ok(0), asked;
      }
      var applied;
      applied, asked := DrainPending(toDrain, s0);
      if applied.Err? {
        return Err(applied.error), asked;
      }
      return Ok(toDrain), asked;
    }

    /** Evicts the next `n` scheduled paths and records them as completed. */
    method DrainPending(n: nat, ghost s0: State<V>) returns (r: Result<()>, ghost asked: Traffic)
      requires Valid() && s0 == View() && 0 < n && s0.sched.completed + n <= U64_MAX && 0 < params.LeafBits() <= 32
      requires s0.sched.Pending().Ok? && n <= s0.sched.Pending().value
      modifies this`metas, this`payloads, stash, schedule, metaTree, payloadTree, metaTree.inner.pages,
               payloadTree.inner.pages
      ensures var spec := Drain(Cfg(), s0, n);
              && (r.Ok? ==>
                    || old(Forged())
                    || (&& spec.Ok? && Trusting() && schedule.Valid()
                        && View() == State(s0.pos, spec.value.stash, spec.value.tree, s0.rng, s0.sched.Advance(n))))
              && (old(Intact()) ==> !old(Forged()) && (r.Ok? <==> spec.Ok?) && (r.Ok? ==> Intact()))
      ensures r.Ok? ==> asked == ThereAndBack(params, DrainShown(params, s0.sched.completed, n))
    {
      hide OramParams.NodeIndex, Join, JoinAll, Drain, ForgedAt, RefPage, Trusting, RootedPath, ThereAndBack,
           DrainShown, OramParams.LeafBits, Counters.Pending, Trusts, Untampered, StoreShape;
      r, asked := EvictScheduled(n, s0);
      if r.Ok? {
        CompleteEvictions(schedule, n);
      }
    }

    method EvictScheduled(n: nat, ghost s0: State<V>) returns (r: Result<()>, ghost asked: Traffic)
      requires Valid() && s0 == View() && 0 < n && s0.sched.completed + n <= U64_MAX && 0 < params.LeafBits() <= 32
      modifies this`metas, this`payloads, stash, metaTree, payloadTree, metaTree.inner.pages, payloadTree.inner.pages
      ensures var spec := Drain(Cfg(), s0, n);
              && (r.Ok? ==>
                    old(Forged()) || (spec.Ok? && Trusting() && stash[..] == spec.value.stash &&
                                      Tree() == spec.value.tree))
              && (old(Intact()) ==> !old(Forged()) && (r.Ok? <==> spec.Ok?) && (r.Ok? ==> Intact()))
      ensures r.Ok? ==> asked == ThereAndBack(params, DrainShown(params, s0.sched.completed, n))
    {
      hide OramParams.NodeIndex, Join, JoinAll, Drain, ForgedAt, RefPage, Trusting, RootedPath, AllRooted,
           ScheduledPaths, Trusts, StoreShape, Untampered, OramParams.BucketCount, OramParams.PathNodes, Concat,
           AllInRange, ThereAndBack, DrainShown;
      var paths := EvictionPaths(params, schedule, n);
      ScheduledPathsRooted(params, s0.sched, paths);
      ScheduledPathsShown(params, s0.sched, paths);
      r, asked := EvictAlongPaths(n, paths, s0);
    }

    method EvictAlongPaths(n: nat, paths: seq<seq<nat>>, ghost s0: State<V>)
      returns (r: Result<()>, ghost asked: Traffic)
      requires Valid() && s0 == View() && 0 < n && s0.sched.completed + n <= U64_MAX
      requires |paths| == n && ScheduledPaths(params, s0.sched, paths) && AllRooted(paths, params.BucketCount())
      modifies this`metas, this`payloads, stash, metaTree, payloadTree, metaTree.inner.pages, payloadTree.inner.pages
      ensures var spec := Drain(Cfg(), s0, n);
              && (r.Ok? ==>
                    old(Forged()) || (spec.Ok? && Trusting() && stash[..] == spec.value.stash &&
                                      Tree() == spec.value.tree))
              && (old(Intact()) ==> !old(Forged()) && (r.Ok? <==> spec.Ok?) && (r.Ok? ==> Intact()))
      ensures r.Ok? ==> asked == Traffic(paths, paths)
    {
      asked := SILENCE;
      hide OramParams.NodeIndex, Join, JoinAll, Drain, ForgedAt, RefPage, RootedPath, Trusting;
      var read;
      ghost var seen, readPaths, written;
      read, seen, readPaths := ReadOverlays(paths);
      if read.Err? {
        return Err(read.error), asked;
      }
      var (mo0, po0) := read.value;
      ghost var s1 := s0.(tree := seen);
      var applied := ApplyEvictions(Cfg(), stash, n, paths, mo0, po0, s1);
      if applied.Err? {
        return Err(applied.error), asked;
      }
      var (mo, po) := applied.value;
      StillListed(seen, Drain(Cfg(), s1, n).value.tree, mo0, po0, mo, po, paths);
      var wrote;
      wrote, written := WriteOverlays(paths, mo, po, Drain(Cfg(), s1, n).value.tree);
      if wrote.Err? {
        return Err(wrote.error), asked;
      }
      return Ok(()), Traffic(readPaths, written);
    }
  }
}
