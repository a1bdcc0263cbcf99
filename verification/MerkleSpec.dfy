/** Hash trees over a page store, on values (src/merkle.rs): the full tree, the incremental update of
    one leaf, and the check of one leaf against the trusted top levels. Nodes are numbered as in a
    heap with root 1; the leaves start at `leafBase`. */
module MerkleSpec {
  import opened Common
  import opened Geometry

  /** The three hash functions, separated by domain in the source. */
  datatype Hasher<!P> = Hasher(leaf: (nat, P) -> Hash, empty: nat -> Hash, node: (nat, Hash, Hash) -> Hash)

  /** Number of leaves: the least power of two that holds all pages. */
  function LeafBase(pageCount: nat): (r: nat)
    requires pageCount > 0
    ensures pageCount <= r < 2 * pageCount && IsPowerOfTwo(r) && r == Pow2(TrailingZeros(r))
  {
    var r := NextPowerOfTwo(pageCount, 0);
    assert IsPowerOfTwo(r) by {
      var h :| 0 <= h && r == Pow2(h);
      TrailingZerosOfPow2(h);
    }
    r
  }

  function SiblingNode(n: nat): nat
    requires n >= 1
  {
    if IsLeftChild(n) then n + 1 else n - 1
  }

  predicate IsLeftChild(n: nat) {
    n % 2 == 0
  }

  function LeafHash<P>(hs: Hasher<P>, pages: seq<P>, i: nat): Hash {
    if i < |pages| then hs.leaf(i, pages[i]) else hs.empty(i)
  }

  /** Digest at node `n` of the full tree. */
  function NodeHash<P>(hs: Hasher<P>, pages: seq<P>, leafBase: nat, n: nat): Hash
    requires n >= 1
    decreases if n < leafBase then 2 * leafBase - n else 0
  {
    if n >= leafBase then LeafHash(hs, pages, n - leafBase)
    else hs.node(n, NodeHash(hs, pages, leafBase, 2 * n), NodeHash(hs, pages, leafBase, 2 * n + 1))
  }

  /** `view` shows the full tree over `pages`; its entry 0 is unused. */
  ghost predicate IsFullTree<P>(hs: Hasher<P>, pages: seq<P>, leafBase: nat, view: seq<Hash>) {
    && |view| == 2 * leafBase
    && forall n :: 1 <= n < |view| ==> view[n] == NodeHash(hs, pages, leafBase, n)
  }

  /** `n` is `m` or an ancestor of it. */
  predicate Above(n: nat, m: nat) {
    n == m || (m > 1 && Above(n, m / 2))
  }

  lemma {:induction false} AboveIsSmaller(n: nat, m: nat)
    requires Above(n, m)
    ensures n <= m
    decreases m
  {
    if n != m { AboveIsSmaller(n, m / 2); }
  }

  lemma {:induction false} ParentAbove(child: nat, m: nat)
    requires Above(child, m) && child >= 2
    ensures Above(child / 2, m)
    decreases m
  {
    if child == m {
      assert Above(m / 2, m / 2);
    } else {
      ParentAbove(child, m / 2);
    }
  }

  lemma ChildrenNotAbove(n: nat, m: nat)
    requires n >= 1 && !Above(n, m)
    ensures !Above(2 * n, m) && !Above(2 * n + 1, m)
  {
    if Above(2 * n, m) { ParentAbove(2 * n, m); }
    if Above(2 * n + 1, m) { ParentAbove(2 * n + 1, m); }
  }

  lemma SiblingNotAbove(m: nat)
    requires m >= 2
    ensures !Above(SiblingNode(m), m)
  {
    if Above(SiblingNode(m), m) {
      AboveIsSmaller(SiblingNode(m), m / 2);
    }
  }

  /** A leaf affects only its ancestors. */
  lemma {:induction false} OffPathNode<P>(hs: Hasher<P>, pages: seq<P>, leafBase: nat, i: nat, page: P, n: nat)
    requires i < |pages| && 1 <= n && !Above(n, leafBase + i)
    ensures NodeHash(hs, pages[i := page], leafBase, n) == NodeHash(hs, pages, leafBase, n)
    decreases if n < leafBase then 2 * leafBase - n else 0
  {
    hide Above;
    AboveSelf(n, leafBase + i);
    if n < leafBase {
      ChildrenNotAbove(n, leafBase + i);
      OffPathNode(hs, pages, leafBase, i, page, 2 * n);
      OffPathNode(hs, pages, leafBase, i, page, 2 * n + 1);
    }
  }

  /** Recomputes the ancestors of a node from the digests below them. */
  function UpdateUp<P>(hs: Hasher<P>, view: seq<Hash>, node: nat): (r: seq<Hash>)
    requires 1 <= node < |view| && |view| % 2 == 0
    ensures |r| == |view|
    decreases node
  {
    if node == 1 then view
    else
      var parent := node / 2;
      UpdateUp(hs, view[parent := hs.node(parent, view[2 * parent], view[2 * parent + 1])], parent)
  }

  /** The tree after the digest of leaf `i` changed. */
  function UpdateLeaf<P>(hs: Hasher<P>, view: seq<Hash>, leafBase: nat, i: nat, leafHash: Hash): (r: seq<Hash>)
    requires |view| == 2 * leafBase && i < leafBase
    ensures |r| == |view|
  {
    UpdateUp(hs, view[leafBase + i := leafHash], leafBase + i)
  }

  lemma {:induction false} UpdateUpCorrect<P>(hs: Hasher<P>, pages: seq<P>, leafBase: nat, view: seq<Hash>, node: nat)
    requires |view| == 2 * leafBase && 1 <= node < |view|
    requires forall n :: 1 <= n < |view| && (n == node || !Above(n, node)) ==>
               view[n] == NodeHash(hs, pages, leafBase, n)
    ensures IsFullTree(hs, pages, leafBase, UpdateUp(hs, view, node))
    decreases node
  {
    if node > 1 {
      var parent := node / 2;
      SiblingNotAbove(node);
      assert parent < leafBase && (SiblingNode(node) == 2 * parent || SiblingNode(node) == 2 * parent + 1);
      var next := view[parent := hs.node(parent, view[2 * parent], view[2 * parent + 1])];
      assert next[parent] == NodeHash(hs, pages, leafBase, parent);
      UpdateUpCorrect(hs, pages, leafBase, next, parent);
    } else {
      forall n | 2 <= n < |view|
        ensures !Above(n, 1)
      {
        if Above(n, 1) { AboveIsSmaller(n, 1); }
      }
    }
  }

  /** Incremental update of one leaf equals a rebuild over the new pages. */
  lemma UpdateEqualsRebuild<P>(hs: Hasher<P>, pages: seq<P>, leafBase: nat, view: seq<Hash>, i: nat, page: P)
    requires IsFullTree(hs, pages, leafBase, view) && i < |pages| <= leafBase
    ensures IsFullTree(hs, pages[i := page], leafBase, UpdateLeaf(hs, view, leafBase, i, hs.leaf(i, page)))
  {
    hide NodeHash;
    var after := pages[i := page];
    var start := view[leafBase + i := hs.leaf(i, page)];
    forall n | 1 <= n < |view| && (n == leafBase + i || !Above(n, leafBase + i))
      ensures start[n] == NodeHash(hs, after, leafBase, n)
    {
      if n == leafBase + i {
        LeafNode(hs, after, leafBase, i);
      } else {
        AboveSelf(n, leafBase + i);
        OffPathNode(hs, pages, leafBase, i, page, n);
      }
    }
    UpdateUpCorrect(hs, after, leafBase, start, leafBase + i);
  }

  lemma AboveSelf(n: nat, m: nat)
    requires !Above(n, m)
    ensures n != m
  {
  }

  lemma LeafNode<P>(hs: Hasher<P>, pages: seq<P>, leafBase: nat, i: nat)
    requires i < |pages| && leafBase >= 1
    ensures NodeHash(hs, pages, leafBase, leafBase + i) == hs.leaf(i, pages[i])
  {
  }

  /** A leaf past the last page has the padding digest of its index. */
  lemma PaddingNode<P>(hs: Hasher<P>, pages: seq<P>, leafBase: nat, i: nat)
    requires |pages| <= i && leafBase >= 1
    ensures NodeHash(hs, pages, leafBase, leafBase + i) == hs.empty(i)
  {
  }

  /** The full tree over three pages, written out. */
  lemma TreeOfThree<P>(hs: Hasher<P>, a: P, b: P, c: P)
    ensures LeafBase(3) == 4
    ensures NodeHash(hs, [a, b, c], 4, 1) ==
            hs.node(1, hs.node(2, hs.leaf(0, a), hs.leaf(1, b)), hs.node(3, hs.leaf(2, c), hs.empty(3)))
  {
    var pages := [a, b, c];
    assert NextPowerOfTwo(3, 0) == NextPowerOfTwo(3, 1) == NextPowerOfTwo(3, 2) == 4;
    LeafNode(hs, pages, 4, 0);
    LeafNode(hs, pages, 4, 1);
    LeafNode(hs, pages, 4, 2);
    PaddingNode(hs, pages, 4, 3);
    assert NodeHash(hs, pages, 4, 2) == hs.node(2, hs.leaf(0, a), hs.leaf(1, b));
    assert NodeHash(hs, pages, 4, 3) == hs.node(3, hs.leaf(2, c), hs.empty(3));
  }

  /** Digest of the parent of `node`, from the digest of `node` and the viewed sibling. */
  function ParentHash<P>(hs: Hasher<P>, view: seq<Hash>, node: nat, current: Hash): Hash
    requires 2 <= node < |view| && |view| % 2 == 0
  {
    if IsLeftChild(node) then hs.node(node / 2, current, view[SiblingNode(node)])
    else hs.node(node / 2, view[SiblingNode(node)], current)
  }

  /** A node's digest with its sibling's, in child order, gives the parent's recomputed digest. */
  lemma ParentFromSibling<P>(hs: Hasher<P>, view: seq<Hash>, node: nat)
    requires 2 <= node < |view| && |view| % 2 == 0
    ensures 1 <= SiblingNode(node) < |view| && 1 <= node / 2 && 2 * (node / 2) + 1 < |view|
    ensures var parent := node / 2;
            (if IsLeftChild(node) then hs.node(parent, view[node], view[SiblingNode(node)])
             else hs.node(parent, view[SiblingNode(node)], view[node])) ==
            hs.node(parent, view[2 * parent], view[2 * parent + 1])
  {
  }

  /** The check of a digest against the trusted top: climb through untrusted siblings to the first
      trusted node and compare. */
  predicate ClimbAccepts<P>(hs: Hasher<P>, view: seq<Hash>, limit: nat, node: nat, current: Hash)
    requires 1 <= node < |view| && |view| % 2 == 0 && limit >= 2
    decreases node
  {
    if node < limit then current == view[node]
    else ClimbAccepts(hs, view, limit, node / 2, ParentHash(hs, view, node, current))
  }

  /** On the climb some node was hashed from a pair other than the reference pair, with the reference
      digest. */
  ghost predicate ClimbCollides<P>(hs: Hasher<P>, pages: seq<P>, leafBase: nat, view: seq<Hash>, limit: nat, node: nat,
                                   current: Hash)
    requires 1 <= node < |view| && |view| == 2 * leafBase && limit >= 2
    decreases node
  {
    && node >= limit
    && (|| (&& current != NodeHash(hs, pages, leafBase, node)
            && ParentHash(hs, view, node, current) == NodeHash(hs, pages, leafBase, node / 2))
        || ClimbCollides(hs, pages, leafBase, view, limit, node / 2, ParentHash(hs, view, node, current)))
  }

  /** An accepted digest is the reference digest, or the climb exhibits a node collision. Only the
      trusted part of the view has to be right. */
  lemma {:induction false} AcceptedDigest<P>(hs: Hasher<P>, pages: seq<P>, leafBase: nat, view: seq<Hash>, limit: nat,
                                             node: nat, current: Hash)
    requires 1 <= node < |view| && |view| == 2 * leafBase && limit >= 2
    requires forall n :: 1 <= n < limit && n < |view| ==> view[n] == NodeHash(hs, pages, leafBase, n)
    requires ClimbAccepts(hs, view, limit, node, current)
    ensures current == NodeHash(hs, pages, leafBase, node) ||
            ClimbCollides(hs, pages, leafBase, view, limit, node, current)
    decreases node
  {
    if node >= limit {
      AcceptedDigest(hs, pages, leafBase, view, limit, node / 2, ParentHash(hs, view, node, current));
    }
  }

  /** Whatever the data store and the hash store hold below the trusted levels: an accepted page is
      the reference page, or two page contents or two node pairs with one digest are exhibited. */
  lemma AcceptedPage<P>(hs: Hasher<P>, pages: seq<P>, leafBase: nat, view: seq<Hash>, limit: nat, i: nat, page: P)
    requires |view| == 2 * leafBase && limit >= 2 && i < |pages| <= leafBase
    requires forall n :: 1 <= n < limit && n < |view| ==> view[n] == NodeHash(hs, pages, leafBase, n)
    requires ClimbAccepts(hs, view, limit, leafBase + i, hs.leaf(i, page))
    ensures || page == pages[i]
            || (page != pages[i] && hs.leaf(i, page) == hs.leaf(i, pages[i]))
            || ClimbCollides(hs, pages, leafBase, view, limit, leafBase + i, hs.leaf(i, page))
  {
    AcceptedDigest(hs, pages, leafBase, view, limit, leafBase + i, hs.leaf(i, page));
    LeafNode(hs, pages, leafBase, i);
  }

  /** A tree that shows the full tree accepts every reference digest, whatever the trusted depth. */
  lemma {:induction false} HonestClimb<P>(hs: Hasher<P>, pages: seq<P>, leafBase: nat, view: seq<Hash>, limit: nat,
                                          node: nat)
    requires IsFullTree(hs, pages, leafBase, view) && 1 <= node < |view| && limit >= 2
    ensures ClimbAccepts(hs, view, limit, node, NodeHash(hs, pages, leafBase, node))
    decreases node
  {
    if node >= limit {
      HonestClimb(hs, pages, leafBase, view, limit, node / 2);
      assert 2 * (node / 2) + node % 2 == node;
      assert NodeHash(hs, pages, leafBase, node / 2) == ParentHash(hs, view, node, NodeHash(hs, pages, leafBase, node));
    }
  }

  /** Over an honest hash store the tiered check decides as the full in-memory tree does, which
      compares leaf digests, save for exhibited node collisions. */
  lemma TieredAgreesWithFull<P>(hs: Hasher<P>, pages: seq<P>, leafBase: nat, view: seq<Hash>, limit: nat, i: nat,
                                leafHash: Hash)
    requires IsFullTree(hs, pages, leafBase, view) && limit >= 2 && i < leafBase
    ensures leafHash == view[leafBase + i] ==> ClimbAccepts(hs, view, limit, leafBase + i, leafHash)
    ensures ClimbAccepts(hs, view, limit, leafBase + i, leafHash) ==>
              || leafHash == view[leafBase + i]
              || ClimbCollides(hs, pages, leafBase, view, limit, leafBase + i, leafHash)
  {
    hide NodeHash, ClimbAccepts, ClimbCollides;
    HonestClimb(hs, pages, leafBase, view, limit, leafBase + i);
    if ClimbAccepts(hs, view, limit, leafBase + i, leafHash) {
      AcceptedDigest(hs, pages, leafBase, view, limit, leafBase + i, leafHash);
    }
  }
}
