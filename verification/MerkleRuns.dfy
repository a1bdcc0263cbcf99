/** The two hash-tree stores side by side (src/merkle.rs): after the same writes, over whatever the data
    stores hold later, they have one root and accept the same reads. */
module MerkleRuns {
  import opened Common
  import opened PageStores
  import opened MerkleSpec
  import opened MerkleStores

  /** A write is a page index and its new content. */
  type PageWrite<P> = (nat, P)

  /** The pages after the first `k` writes; a write outside the store changes nothing. */
  function WrittenPages<P>(pages: seq<P>, writes: seq<PageWrite<P>>, k: nat): (r: seq<P>)
    requires k <= |writes|
    ensures |r| == |pages|
  {
    if k == 0 then pages
    else
      var before := WrittenPages(pages, writes, k - 1);
      if writes[k - 1].0 < |pages| then before[writes[k - 1].0 := writes[k - 1].1] else before
  }

  /** The tree after one leaf update per write of the first `k`. */
  function WrittenTree<P>(hs: Hasher<P>, view: seq<Hash>, leafBase: nat, pageCount: nat, writes: seq<PageWrite<P>>,
                          k: nat)
    : (r: seq<Hash>)
    requires |view| == 2 * leafBase && pageCount <= leafBase && k <= |writes|
    ensures |r| == |view|
  {
    if k == 0 then view
    else
      var before := WrittenTree(hs, view, leafBase, pageCount, writes, k - 1);
      var (pageIdx, content) := writes[k - 1];
      if pageIdx < pageCount then UpdateLeaf(hs, before, leafBase, pageIdx, hs.leaf(pageIdx, content)) else before
  }

  /** Updating leaf by leaf through a whole sequence of writes gives the tree built over the final pages. */
  lemma {:induction false} WritesEqualRebuild<P>(hs: Hasher<P>, pages: seq<P>, leafBase: nat, view: seq<Hash>,
                                                writes: seq<PageWrite<P>>, k: nat)
    requires IsFullTree(hs, pages, leafBase, view) && |pages| <= leafBase && k <= |writes|
    ensures IsFullTree(hs, WrittenPages(pages, writes, k), leafBase,
                       WrittenTree(hs, view, leafBase, |pages|, writes, k))
    decreases k
  {
    hide UpdateLeaf, IsFullTree;
    assert |view| == 2 * leafBase by { FullTreeSize(hs, pages, leafBase, view); }
    if k > 0 {
      WritesEqualRebuild(hs, pages, leafBase, view, writes, k - 1);
      var (pageIdx, content) := writes[k - 1];
      if pageIdx < |pages| {
        UpdateEqualsRebuild(hs, WrittenPages(pages, writes, k - 1), leafBase,
                            WrittenTree(hs, view, leafBase, |pages|, writes, k - 1), pageIdx, content);
      }
    }
  }

  lemma FullTreeSize<P>(hs: Hasher<P>, pages: seq<P>, leafBase: nat, view: seq<Hash>)
    requires IsFullTree(hs, pages, leafBase, view)
    ensures |view| == 2 * leafBase
  {
  }

  /** Nothing of one store is part of the other. */
  ghost predicate Apart<P>(full: MerklePageStore<P>, tiered: TieredMerklePageStore<P>) {
    && full.inner.pages as object != tiered.inner.pages
    && full.inner.pages as object != tiered.hashStore.pages
    && full.inner.pages as object != tiered.trustedHashes
    && full.hashes as object != tiered.inner.pages
    && full.hashes as object != tiered.hashStore.pages
    && full.hashes as object != tiered.trustedHashes
  }

  /** Trusted memory of both stores is that of the tree over `reference`. Nothing is said of the data
      stores and of the hash store. */
  ghost predicate TrustTreeOf<P>(full: MerklePageStore<P>, tiered: TieredMerklePageStore<P>, reference: seq<P>)
    reads full.hashes, tiered.trustedHashes, tiered.hashStore.pages
  {
    && full.Valid() && tiered.Valid() && full.hasher == tiered.hasher
    && |reference| == full.inner.pages.Length == tiered.inner.pages.Length
    && IsFullTree(full.hasher, reference, full.leafBase, full.hashes[..])
    && tiered.TopOf(reference)
  }

  /** Nobody has changed the hash store. */
  ghost predicate HashesIntact<P>(tiered: TieredMerklePageStore<P>, reference: seq<P>)
    requires tiered.Valid()
    reads tiered.trustedHashes, tiered.hashStore.pages
  {
    IsFullTree(tiered.hasher, reference, tiered.leafBase, tiered.View())
  }

  /** The same writes on both stores: each is accepted by both or by neither, and afterwards both hold the
      written pages and keep their tree, under one root. */
  method WriteBoth<P>(full: MerklePageStore<P>, tiered: TieredMerklePageStore<P>, writes: seq<PageWrite<P>>)
    returns (accepted: seq<bool>)
    requires full.Valid() && full.Honest() && tiered.Valid() && tiered.Honest() && Apart(full, tiered)
    requires full.hasher == tiered.hasher && full.inner.pages[..] == tiered.inner.pages[..]
    modifies full.hashes, full.inner.pages, tiered`trace, tiered.trustedHashes, tiered.hashStore.pages,
             tiered.inner.pages
    ensures |accepted| == |writes| && forall i :: 0 <= i < |writes| ==>
              accepted[i] == (writes[i].0 < full.inner.pages.Length)
    ensures full.inner.pages[..] == tiered.inner.pages[..] == WrittenPages(old(full.inner.pages[..]), writes, |writes|)
    ensures TrustTreeOf(full, tiered, full.inner.pages[..]) && HashesIntact(tiered, full.inner.pages[..])
    ensures full.hashes.Length > 1 && tiered.trustedHashes.Length > 1 && full.hashes[1] == tiered.trustedHashes[1]
  {
    hide LeafBase, NodeHash;
    accepted := [];
    for i := 0 to |writes|
      invariant |accepted| == i && forall k :: 0 <= k < i ==> accepted[k] == (writes[k].0 < full.inner.pages.Length)
      invariant full.Honest() && tiered.Valid() && tiered.Honest()
      invariant full.inner.pages[..] == tiered.inner.pages[..] == WrittenPages(old(full.inner.pages[..]), writes, i)
    {
      var toFull := full.WritePage(writes[i].0, writes[i].1);
      var toTiered := tiered.WritePage(writes[i].0, writes[i].1);
      accepted := accepted + [toTiered.Ok?];
    }
    tiered.Dimensions();
    assert tiered.View()[1] == tiered.trustedHashes[1];
  }

  /** Reads of one page from both stores, whatever the data stores hold by then (the same in both) and
      whatever the hash store holds. What only the tiered tree accepts exhibits a node collision; what
      either accepts is the reference page or exhibits a leaf or a node collision. With the hash store
      unchanged the tiered tree accepts whatever the full one accepts. */
  method ReadBoth<P>(full: MerklePageStore<P>, tiered: TieredMerklePageStore<P>, pageIdx: nat, ghost reference: seq<P>)
    returns (fromFull: Result<P>, fromTiered: Result<P>)
    requires TrustTreeOf(full, tiered, reference) && full.inner.pages[..] == tiered.inner.pages[..]
    modifies tiered`trace
    ensures TrustTreeOf(full, tiered, reference)
    ensures fromFull.Ok? || fromTiered.Ok? ==> pageIdx < |reference|
    ensures fromFull.Ok? && HashesIntact(tiered, reference) ==> fromTiered == fromFull
    ensures fromTiered.Ok? ==> fromFull == fromTiered || NodeForged(tiered, reference, pageIdx, fromTiered.value)
    ensures fromFull.Ok? ==>
              || fromFull.value == reference[pageIdx]
              || LeafForged(full.hasher, reference, pageIdx, fromFull.value)
  {
    hide LeafBase, NodeHash, ClimbAccepts, ClimbCollides, IsFullTree, TieredMerklePageStore.Honest;
    tiered.Dimensions();
    fromFull := full.ReadPage(pageIdx);
    fromTiered := tiered.ReadPage(pageIdx);
    if pageIdx < |reference| {
      ReadsAgree(full.hasher, reference, full.leafBase, full.hashes[..], tiered.View(), tiered.trustedNodeLimit,
                 pageIdx, full.inner.pages[pageIdx]);
    }
  }

  /** The leaf comparison of the full tree against the climb of the tiered one, for one page. */
  lemma ReadsAgree<P>(hs: Hasher<P>, reference: seq<P>, leafBase: nat, tree: seq<Hash>, view: seq<Hash>, limit: nat,
                      i: nat, page: P)
    requires IsFullTree(hs, reference, leafBase, tree) && i < |reference| <= leafBase
    requires |view| == 2 * leafBase && 2 <= limit <= |view|
    requires forall n :: 1 <= n < limit ==> view[n] == NodeHash(hs, reference, leafBase, n)
    ensures |tree| == 2 * leafBase
    ensures var leafHash := hs.leaf(i, page);
            && (ClimbAccepts(hs, view, limit, leafBase + i, leafHash) ==>
                  || leafHash == tree[leafBase + i]
                  || ClimbCollides(hs, reference, leafBase, view, limit, leafBase + i, leafHash))
            && (IsFullTree(hs, reference, leafBase, view) && leafHash == tree[leafBase + i] ==>
                  ClimbAccepts(hs, view, limit, leafBase + i, leafHash))
            && (leafHash == tree[leafBase + i] ==> page == reference[i] || LeafForged(hs, reference, i, page))
  {
    hide NodeHash, ClimbAccepts, ClimbCollides;
    var leafHash := hs.leaf(i, page);
    LeafNode(hs, reference, leafBase, i);
    if ClimbAccepts(hs, view, limit, leafBase + i, leafHash) {
      AcceptedDigest(hs, reference, leafBase, view, limit, leafBase + i, leafHash);
    }
    HonestReads(hs, reference, leafBase, view, limit, i);
  }

  lemma HonestReads<P>(hs: Hasher<P>, reference: seq<P>, leafBase: nat, view: seq<Hash>, limit: nat, i: nat)
    requires |view| == 2 * leafBase && limit >= 2 && i < |reference| <= leafBase
    ensures IsFullTree(hs, reference, leafBase, view) ==>
              ClimbAccepts(hs, view, limit, leafBase + i, hs.leaf(i, reference[i]))
  {
    hide NodeHash, ClimbAccepts, IsFullTree;
    LeafNode(hs, reference, leafBase, i);
    if IsFullTree(hs, reference, leafBase, view) {
      HonestClimb(hs, reference, leafBase, view, limit, leafBase + i);
    }
  }

  /** Another page than the reference page of the index, with its digest. */
  ghost predicate LeafForged<P>(hs: Hasher<P>, reference: seq<P>, pageIdx: nat, page: P)
    requires pageIdx < |reference|
  {
    page != reference[pageIdx] && hs.leaf(pageIdx, page) == hs.leaf(pageIdx, reference[pageIdx])
  }

  /** On the climb of the page's digest some node was hashed from a pair other than the reference pair,
      with the reference digest. */
  ghost predicate NodeForged<P>(tiered: TieredMerklePageStore<P>, reference: seq<P>, pageIdx: nat, page: P)
    requires tiered.Valid() && pageIdx < tiered.inner.pages.Length
    reads tiered.trustedHashes, tiered.hashStore.pages
  {
    ClimbCollides(tiered.hasher, reference, tiered.leafBase, tiered.View(), tiered.trustedNodeLimit,
                  tiered.leafBase + pageIdx, tiered.hasher.leaf(pageIdx, page))
  }

  /** A run of writes on both stores, after which anyone replaces all data pages, the same in both, and a
      list of reads. Every page read from either store is the written page, or a leaf or node collision
      with it is exhibited; the answers agree unless a node collision is. */
  method WriteThenRead<P(==)>(full: MerklePageStore<P>, tiered: TieredMerklePageStore<P>, writes: seq<PageWrite<P>>,
                              image: seq<P>, requests: seq<nat>)
    returns (fromFull: seq<Result<P>>, fromTiered: seq<Result<P>>)
    requires full.Valid() && full.Honest() && tiered.Valid() && tiered.Honest() && Apart(full, tiered)
    requires full.hasher == tiered.hasher && full.inner.pages[..] == tiered.inner.pages[..]
    requires |image| == full.inner.pages.Length
    modifies full.hashes, full.inner.pages, tiered`trace, tiered.trustedHashes, tiered.hashStore.pages,
             tiered.inner.pages
    ensures |fromFull| == |fromTiered| == |requests| && full.Valid() && tiered.Valid()
    ensures var written := WrittenPages(old(full.inner.pages[..]), writes, |writes|);
            forall i :: 0 <= i < |requests| ==>
              ReadsRight(full, tiered, written, requests[i], fromFull[i], fromTiered[i])
  {
    hide LeafBase, IsFullTree, WrittenPages;
    var accepted := WriteBoth(full, tiered, writes);
    ghost var written := full.inner.pages[..];
    Replace(full.inner.pages, image);
    Replace(tiered.inner.pages, image);
    fromFull, fromTiered := [], [];
    for k := 0 to |requests|
      invariant |fromFull| == |fromTiered| == k
      invariant TrustTreeOf(full, tiered, written) && HashesIntact(tiered, written)
      invariant full.inner.pages[..] == tiered.inner.pages[..]
      invariant forall i :: 0 <= i < k ==> ReadsRight(full, tiered, written, requests[i], fromFull[i], fromTiered[i])
    {
      var a, b := ReadBoth(full, tiered, requests[k], written);
      fromFull, fromTiered := fromFull + [a], fromTiered + [b];
    }
  }

  ghost predicate ReadsRight<P>(full: MerklePageStore<P>, tiered: TieredMerklePageStore<P>, written: seq<P>,
                                pageIdx: nat, fromFull: Result<P>, fromTiered: Result<P>)
    requires tiered.Valid()
    reads tiered.trustedHashes, tiered.hashStore.pages
  {
    && (fromFull.Ok? ==> fromTiered == fromFull)
    && (fromTiered.Ok? ==>
          && pageIdx < |written| && pageIdx < tiered.inner.pages.Length
          && (|| NodeForged(tiered, written, pageIdx, fromTiered.value)
              || (&& fromFull == fromTiered
                  && (|| fromTiered.value == written[pageIdx]
                      || LeafForged(full.hasher, written, pageIdx, fromTiered.value)))))
  }
}
