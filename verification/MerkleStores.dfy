/** The two hash-tree page stores of src/merkle.rs: the full in-memory tree, and the tiered tree whose
    lower digests live, packed, in pages of an untrusted hash store. */
module MerkleStores {
  import opened Common
  import opened Geometry
  import opened PageStores
  import opened MerkleSpec
  import opened MerkleLayout

  /** The full tree in trusted memory. */
  class MerklePageStore<P> {
    const inner: MemPageStore<P>
    const hasher: Hasher<P>
    const leafBase: nat
    const hashes: array<Hash>

    ghost predicate Valid() {
      && inner.pages.Length > 0
      && leafBase == LeafBase(inner.pages.Length)
      && hashes.Length == 2 * leafBase
      && (hashes as object) != inner.pages
    }

    /** The tree is the full tree over what the inner store holds. */
    ghost predicate Honest()
      requires Valid()
      reads hashes, inner.pages
    {
      IsFullTree(hasher, inner.pages[..], leafBase, hashes[..])
    }

    constructor (inner: MemPageStore<P>, hasher: Hasher<P>, leafBase: nat, hashes: array<Hash>)
      ensures this.inner == inner && this.hasher == hasher && this.leafBase == leafBase && this.hashes == hashes
    {
      this.inner, this.hasher, this.leafBase, this.hashes := inner, hasher, leafBase, hashes;
    }

    /** Builds the tree over the current contents of the inner store. */
    static method Build(inner: MemPageStore<P>, hasher: Hasher<P>) returns (r: Result<MerklePageStore<P>>)
      ensures r.Ok? <==> inner.pages.Length > 0
      ensures r.Ok? ==>
                && fresh(r.value) && fresh(r.value.hashes)
                && r.value.inner == inner && r.value.hasher == hasher
                && r.value.Valid() && r.value.Honest()
    {
      hide NodeHash, LeafBase, IsPowerOfTwo, TrailingZeros, Pow2;
      if inner.pages.Length == 0 {
        return Err(InvalidInput);
      }
      var base := LeafBase(inner.pages.Length);
      var hashes := new Hash[2 * base](_ => 0);
      for i := 0 to base
        invariant forall k :: 0 <= k < i ==> hashes[base + k] == LeafHash(hasher, inner.pages[..], k)
      {
        hashes[base + i] := if i < inner.pages.Length then hasher.leaf(i, inner.pages[i]) else hasher.empty(i);
      }
      LeafNodes(hasher, inner.pages[..], base, hashes[..]);
      for n := base downto 1
        invariant forall k :: n <= k < 2 * base ==> hashes[k] == NodeHash(hasher, inner.pages[..], base, k)
      {
        InnerNode(hasher, inner.pages[..], base, n);
        hashes[n] := hasher.node(n, hashes[2 * n], hashes[2 * n + 1]);
      }
      var store := new MerklePageStore(inner, hasher, base, hashes);
      return Ok(store);
    }

    method Root() returns (root: Hash)
      requires Valid()
      ensures root == hashes[1]
      ensures Honest() ==> root == NodeHash(hasher, inner.pages[..], leafBase, 1)
    {
      root := hashes[1];
    }

    method UpdateLeaf(pageIdx: nat, leafHash: Hash)
      requires Valid() && pageIdx < leafBase
      modifies hashes
      ensures hashes[..] == MerkleSpec.UpdateLeaf(hasher, old(hashes[..]), leafBase, pageIdx, leafHash)
    {
      hide LeafBase;
      var node := leafBase + pageIdx;
      hashes[node] := leafHash;
      while node > 1
        invariant 1 <= node < hashes.Length
        invariant UpdateUp(hasher, hashes[..], node) ==
                  MerkleSpec.UpdateLeaf(hasher, old(hashes[..]), leafBase, pageIdx, leafHash)
      {
        node := node / 2;
        hashes[node] := hasher.node(node, hashes[2 * node], hashes[2 * node + 1]);
      }
    }

    /** A read is accepted exactly when the digest of the stored page is the leaf digest kept in memory. */
    method ReadPage(pageIdx: nat) returns (r: Result<P>)
      requires Valid()
      ensures r.Ok? <==>
                pageIdx < inner.pages.Length && hasher.leaf(pageIdx, inner.pages[pageIdx]) == hashes[leafBase + pageIdx]
      ensures r.Ok? ==> r.value == inner.pages[pageIdx]
    {
      if pageIdx >= inner.pages.Length {
        return Err(InvalidInput);
      }
      r := inner.ReadPage(pageIdx);
      if hasher.leaf(pageIdx, r.value) != hashes[leafBase + pageIdx] {
        return Err(InvalidInput);
      }
    }

    method WritePage(pageIdx: nat, content: P) returns (r: Result<()>)
      requires Valid()
      modifies hashes, inner.pages
      ensures r.Ok? <==> pageIdx < inner.pages.Length
      ensures r.Err? ==> hashes[..] == old(hashes[..]) && inner.pages[..] == old(inner.pages[..])
      ensures r.Ok? ==>
                && inner.pages[..] == old(inner.pages[..])[pageIdx := content]
                && hashes[..] == MerkleSpec.UpdateLeaf(hasher, old(hashes[..]), leafBase, pageIdx,
                                                       hasher.leaf(pageIdx, content))
      ensures old(Honest()) ==> Honest()
    {
      if pageIdx >= inner.pages.Length {
        return Err(InvalidInput);
      }
      ghost var before, tree := inner.pages[..], hashes[..];
      r := inner.WritePage(pageIdx, content);
      UpdateLeaf(pageIdx, hasher.leaf(pageIdx, content));
      if IsFullTree(hasher, before, leafBase, tree) {
        UpdateEqualsRebuild(hasher, before, leafBase, tree, pageIdx, content);
      }
    }
  }

  /** The tiered tree. The hash store, like the data store, may be changed by anyone between calls. */
  class TieredMerklePageStore<P> {
    const inner: MemPageStore<P>
    const hashStore: MemPageStore<seq<Hash>>
    const hasher: Hasher<P>
    const leafBase: nat
    const trustedLevels: nat
    const trustedNodeLimit: nat
    const hashesPerPage: nat
    const diskHashNodes: nat
    const trustedHashes: array<Hash>
    /** Every access to the hash store so far. */
    ghost var trace: seq<Touch>

    /** What the constructor checked, and the fixed width of hash pages. */
    ghost predicate Valid()
      reads trustedHashes, hashStore.pages
    {
      && inner.pages.Length > 0
      && leafBase == LeafBase(inner.pages.Length)
      && TrustedNodeLimit(leafBase, trustedLevels) == Ok(trustedNodeLimit)
      && diskHashNodes == 2 * leafBase - trustedNodeLimit
      && Fits(trustedHashes[..], hashStore.pages[..], leafBase, trustedNodeLimit, hashesPerPage)
      && (hashStore.pages as object) != inner.pages
      && (trustedHashes as object) != inner.pages
      && (trustedHashes as object) != hashStore.pages
    }

    lemma Dimensions()
      requires Valid()
      ensures 2 <= trustedNodeLimit <= 2 * leafBase && trustedNodeLimit % 2 == 0 && hashesPerPage > 0
      ensures trustedHashes.Length == trustedNodeLimit && |View()| == 2 * leafBase
      ensures leafBase >= inner.pages.Length
      ensures forall n :: 0 <= n < trustedNodeLimit ==> View()[n] == trustedHashes[n]
    {
    }

    ghost function View(): (r: seq<Hash>)
      requires Valid()
      ensures |r| == 2 * leafBase
      reads trustedHashes, hashStore.pages
    {
      TieredView(trustedHashes[..], hashStore.pages[..], leafBase, trustedNodeLimit, hashesPerPage)
    }

    /** Trusted memory and hash store together show the full tree over the data store. */
    ghost predicate Honest()
      requires Valid()
      reads trustedHashes, hashStore.pages, inner.pages
    {
      IsFullTree(hasher, inner.pages[..], leafBase, View())
    }

    /** The digests in trusted memory are those of the full tree over `reference`. */
    ghost predicate TopOf(reference: seq<P>)
      requires Valid()
      reads trustedHashes, hashStore.pages
    {
      forall n :: 1 <= n < trustedNodeLimit ==> View()[n] == NodeHash(hasher, reference, leafBase, n)
    }

    constructor (inner: MemPageStore<P>, hashStore: MemPageStore<seq<Hash>>, hasher: Hasher<P>,
                 leafBase: nat, trustedLevels: nat, trustedNodeLimit: nat, hashesPerPage: nat, diskHashNodes: nat)
      ensures this.inner == inner && this.hashStore == hashStore && this.hasher == hasher && trace == []
      ensures this.leafBase == leafBase && this.trustedLevels == trustedLevels &&
              this.trustedNodeLimit == trustedNodeLimit
      ensures this.hashesPerPage == hashesPerPage && this.diskHashNodes == diskHashNodes
      ensures fresh(trustedHashes) && trustedHashes.Length == trustedNodeLimit
    {
      this.inner, this.hashStore, this.hasher := inner, hashStore, hasher;
      this.leafBase, this.trustedLevels, this.trustedNodeLimit := leafBase, trustedLevels, trustedNodeLimit;
      this.hashesPerPage, this.diskHashNodes := hashesPerPage, diskHashNodes;
      this.trustedHashes := new Hash[trustedNodeLimit](_ => 0);
      this.trace := [];
    }

    static method Build(inner: MemPageStore<P>, hashStore: MemPageStore<seq<Hash>>, hashPageSize: nat,
                        hasher: Hasher<P>, trustedLevels: nat) returns (r: Result<TieredMerklePageStore<P>>)
      requires (hashStore.pages as object) != inner.pages
      requires forall p :: 0 <= p < hashStore.pages.Length ==> |hashStore.pages[p]| == hashPageSize / HASH_BYTES
      modifies hashStore.pages
      ensures r.Ok? <==>
                && inner.pages.Length > 0
                && var base := LeafBase(inner.pages.Length);
                   && 1 <= trustedLevels <= TreeLevels(base) && hashPageSize >= HASH_BYTES
                   && PagesForHashNodes(2 * base - TrustedNodeLimit(base, trustedLevels).value,
                                        hashPageSize / HASH_BYTES) <= hashStore.pages.Length
      ensures r.Ok? ==>
                && fresh(r.value) && fresh(r.value.trustedHashes)
                && r.value.inner == inner && r.value.hashStore == hashStore && r.value.hasher == hasher
                && r.value.trustedLevels == trustedLevels && r.value.hashesPerPage == hashPageSize / HASH_BYTES
                && r.value.Valid() && r.value.Honest()
    {
      hide PagesForHashNodes;
      if inner.pages.Length == 0 {
        return Err(InvalidInput);
      }
      var base := LeafBase(inner.pages.Length);
      var limit := TrustedNodeLimit(base, trustedLevels);
      if limit.Err? {
        return Err(limit.error);
      }
      var perPage := HashesPerPage(hashPageSize);
      if perPage.Err? {
        return Err(perPage.error);
      }
      var diskHashNodes := base * 2 - limit.value;
      if hashStore.pages.Length < PagesForHashNodes(diskHashNodes, perPage.value) {
        return Err(InvalidInput);
      }
      var store := new TieredMerklePageStore(inner, hashStore, hasher, base, trustedLevels, limit.value, perPage.value,
                                             diskHashNodes);
      store.RebuildHashes();
      return Ok(store);
    }

    method RebuildHashes()
      requires Valid()
      modifies this`trace, trustedHashes, hashStore.pages
      ensures Valid() && Honest()
    {
      hide NodeHash, Fits;
      for i := 0 to leafBase
        invariant Valid()
        invariant forall k :: 0 <= k < i ==> View()[leafBase + k] == LeafHash(hasher, inner.pages[..], k)
      {
        WriteHash(leafBase + i, if i < inner.pages.Length then hasher.leaf(i, inner.pages[i]) else hasher.empty(i));
      }
      LeafNodes(hasher, inner.pages[..], leafBase, View());
      var height := TrailingZeros(leafBase);
      for level := height downto 0
        invariant Valid()
        invariant forall n :: Pow2(level) <= n < 2 * leafBase ==>
                    View()[n] == NodeHash(hasher, inner.pages[..], leafBase, n)
      {
        RebuildLevel(level);
      }
    }

    method RebuildLevel(level: nat)
      requires Valid() && level < TrailingZeros(leafBase)
      requires forall n :: Pow2(level + 1) <= n < 2 * leafBase ==>
                 View()[n] == NodeHash(hasher, inner.pages[..], leafBase, n)
      modifies this`trace, trustedHashes, hashStore.pages
      ensures Valid()
      ensures forall n :: Pow2(level) <= n < 2 * leafBase ==>
                View()[n] == NodeHash(hasher, inner.pages[..], leafBase, n)
    {
      hide NodeHash, Fits;
      var first, next := Pow2(level), Pow2(level + 1);
      assert 2 * first == next <= leafBase by {
        Pow2Monotone(level + 1, TrailingZeros(leafBase));
      }
      for node := first to next
        invariant Valid()
        invariant forall n :: first <= n < node || next <= n < 2 * leafBase ==>
                    View()[n] == NodeHash(hasher, inner.pages[..], leafBase, n)
      {
        var left := ReadHash(node * 2);
        var right := ReadHash(node * 2 + 1);
        InnerNode(hasher, inner.pages[..], leafBase, node);
        WriteHash(node, hasher.node(node, left, right));
      }
    }

    method ReadHash(node: nat) returns (hash: Hash)
      requires Valid() && 1 <= node < 2 * leafBase
      modifies this`trace
      ensures hash == View()[node]
      ensures trace == old(trace) + ReadTouches(trustedNodeLimit, hashesPerPage, node)
    {
      if node < trustedNodeLimit {
        hash := trustedHashes[node];
      } else {
        hash := ReadDiskHash(node);
      }
    }

    method WriteHash(node: nat, hash: Hash)
      requires Valid() && 1 <= node < 2 * leafBase
      modifies this`trace, trustedHashes, hashStore.pages
      ensures Valid() && View() == old(View())[node := hash]
      ensures trace == old(trace) + WriteTouches(trustedNodeLimit, hashesPerPage, node)
    {
      if node < trustedNodeLimit {
        WriteTrusted(trustedHashes[..], hashStore.pages[..], leafBase, trustedNodeLimit, hashesPerPage, node, hash);
        ghost var before := trustedHashes[..];
        trustedHashes[node] := hash;
        assert trustedHashes[..] == before[node := hash];
      } else {
        WriteDiskHash(node, hash);
      }
    }

    method ReadDiskHash(node: nat) returns (hash: Hash)
      requires Valid() && trustedNodeLimit <= node < 2 * leafBase
      modifies this`trace
      ensures hash == View()[node]
      ensures trace == old(trace) + ReadTouches(trustedNodeLimit, hashesPerPage, node)
    {
      hide PagesForHashNodes, LeafBase, TrustedNodeLimit;
      var position := DiskHashPosition(trustedNodeLimit, diskHashNodes, hashesPerPage, node);
      PositionsInRange(trustedNodeLimit, diskHashNodes, hashesPerPage, node);
      var (pageIdx, slot) := position.value;
      var page := hashStore.ReadPage(pageIdx);
      trace := trace + [HashRead(pageIdx)];
      hash := page.value[slot];
    }

    /** The page of the digest is read, one slot replaced, and the page written back. */
    method WriteDiskHash(node: nat, hash: Hash)
      requires Valid() && trustedNodeLimit <= node < 2 * leafBase
      modifies this`trace, hashStore.pages
      ensures Valid() && View() == old(View())[node := hash]
      ensures trace == old(trace) + WriteTouches(trustedNodeLimit, hashesPerPage, node)
    {
      hide PagesForHashNodes;
      var position := DiskHashPosition(trustedNodeLimit, diskHashNodes, hashesPerPage, node);
      WriteSlot(trustedHashes[..], hashStore.pages[..], leafBase, trustedNodeLimit, hashesPerPage, node, hash);
      var (pageIdx, slot) := position.value;
      var page := hashStore.ReadPage(pageIdx);
      trace := trace + [HashRead(pageIdx)];
      var w := hashStore.WritePage(pageIdx, page.value[slot := hash]);
      trace := trace + [HashWrite(pageIdx)];
    }

    lemma AppendAssociates<T>(a: seq<T>, b: seq<T>, c: seq<T>)
      ensures (a + b) + c == a + (b + c)
    {
    }

    method VerifyPageHash(pageIdx: nat, leafHash: Hash) returns (r: Result<()>)
      requires Valid() && pageIdx < leafBase
      modifies this`trace
      ensures r.Ok? <==> ClimbAccepts(hasher, View(), trustedNodeLimit, leafBase + pageIdx, leafHash)
      ensures trace == old(trace) + VerifyTouches(trustedNodeLimit, hashesPerPage, leafBase + pageIdx)
    {
      hide TrustedNodeLimit, Fits, TieredView, ReadTouches, LeafBase, View;
      Dimensions();
      var node := leafBase + pageIdx;
      var current := leafHash;
      while node >= trustedNodeLimit
        invariant 1 <= node < 2 * leafBase
        invariant ClimbAccepts(hasher, View(), trustedNodeLimit, node, current) <==>
                  ClimbAccepts(hasher, View(), trustedNodeLimit, leafBase + pageIdx, leafHash)
        invariant trace + VerifyTouches(trustedNodeLimit, hashesPerPage, node) ==
                  old(trace) + VerifyTouches(trustedNodeLimit, hashesPerPage, leafBase + pageIdx)
      {
        SiblingRange(trustedNodeLimit, leafBase, node);
        AppendAssociates(trace, ReadTouches(trustedNodeLimit, hashesPerPage, SiblingNode(node)),
          VerifyTouches(trustedNodeLimit, hashesPerPage, node / 2));
        var sibling := ReadHash(SiblingNode(node));
        var parent := node / 2;
        current := if IsLeftChild(node) then hasher.node(parent, current, sibling)
          else hasher.node(parent, sibling, current);
        node := parent;
      }
      assert trace + [] == trace;
      return if current == trustedHashes[node] then Ok(()) else Err(InvalidInput);
    }

    method UpdatePageHash(pageIdx: nat, leafHash: Hash)
      requires Valid() && pageIdx < leafBase
      modifies this`trace, trustedHashes, hashStore.pages
      ensures Valid() && View() == MerkleSpec.UpdateLeaf(hasher, old(View()), leafBase, pageIdx, leafHash)
      ensures trace == old(trace) + UpdateTouches(trustedNodeLimit, hashesPerPage, leafBase + pageIdx)
    {
      hide TrustedNodeLimit, Fits, TieredView, ReadTouches, WriteTouches, ParentTouches, UpdateTouches, LeafBase, View,
           SiblingNode, Climbing;
      Dimensions();
      var node := leafBase + pageIdx;
      WriteHash(node, leafHash);
      var current := leafHash;
      AppendAssociates(old(trace), WriteTouches(trustedNodeLimit, hashesPerPage, node), RestTouches(node));
      ghost var after := MerkleSpec.UpdateLeaf(hasher, old(View()), leafBase, pageIdx, leafHash);
      ghost var touched := old(trace) + UpdateTouches(trustedNodeLimit, hashesPerPage, leafBase + pageIdx);
      ClimbStarts(node, current, after, touched);
      while node > 1
        invariant 1 <= node
        invariant Climbing(node, current, after, touched)
      {
        current := ClimbOnce(node, current, after, touched);
        node := node / 2;
      }
      ClimbEnds(current, after, touched);
    }

    /** Updated up to `node`: going on to the root leaves the tree `after` and the accesses `touched`. */
    ghost predicate Climbing(node: nat, current: Hash, after: seq<Hash>, touched: seq<Touch>)
      reads this, trustedHashes, hashStore.pages
    {
      && Valid() && 1 <= node < 2 * leafBase && current == View()[node]
      && UpdateUp(hasher, View(), node) == after
      && trace + RestTouches(node) == touched
    }

    lemma ClimbStarts(node: nat, current: Hash, after: seq<Hash>, touched: seq<Touch>)
      requires Valid() && 1 <= node < 2 * leafBase && current == View()[node]
      requires UpdateUp(hasher, View(), node) == after && trace + RestTouches(node) == touched
      ensures Climbing(node, current, after, touched)
    {
    }

    lemma ClimbEnds(current: Hash, after: seq<Hash>, touched: seq<Touch>)
      requires Climbing(1, current, after, touched)
      ensures Valid() && View() == after && trace == touched
    {
      assert trace + [] == trace;
    }

    method ClimbOnce(node: nat, current: Hash, ghost after: seq<Hash>, ghost touched: seq<Touch>) returns (above: Hash)
      requires Climbing(node, current, after, touched) && node > 1
      modifies this`trace, trustedHashes, hashStore.pages
      ensures Climbing(node / 2, above, after, touched)
    {
      hide TrustedNodeLimit, Fits, TieredView, ReadTouches, WriteTouches, ParentTouches, UpdateTouches, LeafBase, View,
           SiblingNode;
      Dimensions();
      AppendAssociates(trace, ParentTouches(node), RestTouches(node / 2));
      above := UpdateParent(node, current);
    }

    /** One step up: the parent's digest from the current one and the stored sibling. */
    method UpdateParent(node: nat, current: Hash) returns (above: Hash)
      requires Valid() && 2 <= node < 2 * leafBase && current == View()[node]
      modifies this`trace, trustedHashes, hashStore.pages
      ensures Valid() && above == View()[node / 2]
      ensures 2 * (node / 2) + 1 < 2 * leafBase
      ensures var parent, view := node / 2, old(View());
              View() == view[parent := hasher.node(parent, view[2 * parent], view[2 * parent + 1])]
      ensures trace == old(trace) + ParentTouches(node)
    {
      hide TrustedNodeLimit, Fits, TieredView, ReadTouches, WriteTouches, LeafBase, View, SiblingNode, IsLeftChild;
      Dimensions();
      ParentFromSibling(hasher, View(), node);
      var sibling := ReadHash(SiblingNode(node));
      var parent := node / 2;
      above := if IsLeftChild(node) then hasher.node(parent, current, sibling)
        else hasher.node(parent, sibling, current);
      WriteHash(parent, above);
    }

    ghost function ParentTouches(node: nat): seq<Touch>
      requires hashesPerPage > 0 && node >= 2
    {
      ReadTouches(trustedNodeLimit, hashesPerPage, SiblingNode(node)) +
        WriteTouches(trustedNodeLimit, hashesPerPage, node / 2)
    }

    /** What remains of an update once the digest of `node` is written. */
    ghost function RestTouches(node: nat): (r: seq<Touch>)
      requires hashesPerPage > 0 && node >= 1
      ensures WriteTouches(trustedNodeLimit, hashesPerPage, node) + r ==
              UpdateTouches(trustedNodeLimit, hashesPerPage, node)
    {
      if node == 1 then []
      else ParentTouches(node) + RestTouches(node / 2)
    }

    /** Exactly the pages whose digest climbs to the trusted frontier are accepted. Under the trusted
        digests of a reference tree an accepted page is the reference page, or a collision is shown. */
    method ReadPage(pageIdx: nat) returns (r: Result<P>)
      requires Valid()
      modifies this`trace
      ensures r.Ok? <==>
                && pageIdx < inner.pages.Length
                && ClimbAccepts(hasher, View(), trustedNodeLimit, leafBase + pageIdx,
                                hasher.leaf(pageIdx, inner.pages[pageIdx]))
      ensures r.Ok? ==> r.value == inner.pages[pageIdx]
      ensures Honest() && pageIdx < inner.pages.Length ==> r.Ok?
      ensures r.Ok? ==> forall reference ::
                |reference| == inner.pages.Length && TopOf(reference) ==>
                  || r.value == reference[pageIdx]
                  || hasher.leaf(pageIdx, r.value) == hasher.leaf(pageIdx, reference[pageIdx])
                  || ClimbCollides(hasher, reference, leafBase, View(), trustedNodeLimit, leafBase + pageIdx,
                                   hasher.leaf(pageIdx, r.value))
      ensures trace == old(trace) + if pageIdx < inner.pages.Length
                                    then VerifyTouches(trustedNodeLimit, hashesPerPage, leafBase + pageIdx) else []
    {
      hide TrustedNodeLimit, Fits, TieredView, VerifyTouches, LeafBase, NodeHash, ClimbAccepts, ClimbCollides;
      Dimensions();
      if pageIdx >= inner.pages.Length {
        return Err(InvalidInput);
      }
      r := inner.ReadPage(pageIdx);
      var v := VerifyPageHash(pageIdx, hasher.leaf(pageIdx, r.value));
      if Honest() {
        LeafNode(hasher, inner.pages[..], leafBase, pageIdx);
        TieredAgreesWithFull(hasher, inner.pages[..], leafBase, View(), trustedNodeLimit, pageIdx,
                             hasher.leaf(pageIdx, r.value));
      }
      if v.Err? {
        return Err(v.error);
      }
      forall reference | |reference| == inner.pages.Length && TopOf(reference)
        ensures || r.value == reference[pageIdx]
                || hasher.leaf(pageIdx, r.value) == hasher.leaf(pageIdx, reference[pageIdx])
                || ClimbCollides(hasher, reference, leafBase, View(), trustedNodeLimit, leafBase + pageIdx,
                                 hasher.leaf(pageIdx, r.value))
      {
        AcceptedPage(hasher, reference, leafBase, View(), trustedNodeLimit, pageIdx, r.value);
      }
    }

    method WritePage(pageIdx: nat, content: P) returns (r: Result<()>)
      requires Valid()
      modifies this`trace, trustedHashes, hashStore.pages, inner.pages
      ensures Valid()
      ensures r.Ok? <==> pageIdx < inner.pages.Length
      ensures r.Err? ==> View() == old(View()) && inner.pages[..] == old(inner.pages[..]) && trace == old(trace)
      ensures r.Ok? ==>
                && inner.pages[..] == old(inner.pages[..])[pageIdx := content]
                && View() == MerkleSpec.UpdateLeaf(hasher, old(View()), leafBase, pageIdx,
                                                   hasher.leaf(pageIdx, content))
                && trace == old(trace) + UpdateTouches(trustedNodeLimit, hashesPerPage, leafBase + pageIdx)
      ensures old(Honest()) ==> Honest()
    {
      hide NodeHash, Fits, TieredView, MerkleSpec.UpdateLeaf;
      if pageIdx >= inner.pages.Length {
        return Err(InvalidInput);
      }
      ghost var before, tree := inner.pages[..], View();
      r := inner.WritePage(pageIdx, content);
      UpdatePageHash(pageIdx, hasher.leaf(pageIdx, content));
      if IsFullTree(hasher, before, leafBase, tree) {
        UpdateEqualsRebuild(hasher, before, leafBase, tree, pageIdx, content);
      }
    }
  }
}
