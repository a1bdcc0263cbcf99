/** Authenticated bucket tree with child hashes embedded in the pages (src/embedded_tree.rs), on
    values: the reference tree, verification, and incremental path updates. */
module EmbeddedSpec {
  import opened Common
  import opened PageStores

  /** Digest of page index, logical content and the two child digests. */
  type PageHash<!L> = (nat, L, Hash, Hash) -> Hash

  const NO_CHILD: Hash := 0

  datatype Page<L> = Page(logical: L, left: Hash, right: Hash)

  function HashOf<L>(h: PageHash<L>, n: nat, page: Page<L>): Hash {
    h(n, page.logical, page.left, page.right)
  }

  function LeftChild(n: nat): nat { 2 * n + 1 }

  function RightChild(n: nat): nat { 2 * n + 2 }

  function Parent(n: nat): nat
    requires n > 0
  {
    (n - 1) / 2
  }

  /** Digest of the subtree under page `n` of the reference tree over `logicals`. */
  function SubtreeHash<L>(h: PageHash<L>, logicals: seq<L>, n: nat): Hash
    decreases if n < |logicals| then |logicals| - n else 0
  {
    if n >= |logicals| then NO_CHILD
    else h(n, logicals[n], SubtreeHash(h, logicals, LeftChild(n)), SubtreeHash(h, logicals, RightChild(n)))
  }

  function RefPage<L>(h: PageHash<L>, logicals: seq<L>, n: nat): Page<L>
    requires n < |logicals|
  {
    Page(logicals[n], SubtreeHash(h, logicals, LeftChild(n)), SubtreeHash(h, logicals, RightChild(n)))
  }

  /** What a full build over the logical pages stores. */
  function RefPages<L>(h: PageHash<L>, logicals: seq<L>): (pages: seq<Page<L>>)
    ensures |pages| == |logicals|
    ensures forall n :: 0 <= n < |pages| ==> pages[n] == RefPage(h, logicals, n)
  {
    seq(|logicals|, n requires 0 <= n < |logicals| => RefPage(h, logicals, n))
  }

  /** A path from the root, each page a child of the one before. */
  predicate RootedPath(path: seq<nat>, n: nat) {
    && path != [] && path[0] == 0
    && (forall d :: 0 <= d < |path| ==> path[d] < n)
    && (forall d :: 0 < d < |path| ==> path[d] == LeftChild(path[d - 1]) || path[d] == RightChild(path[d - 1]))
  }

  /** The digest a parent page holds for a child. */
  function ChildHash<L>(page: Page<L>, parent: nat, child: nat): Result<Hash> {
    if child == LeftChild(parent) then Ok(page.left)
    else if child == RightChild(parent) then Ok(page.right)
    else Err(InvalidInput)
  }

  function SetChildHash<L>(page: Page<L>, parent: nat, child: nat, hash: Hash): Page<L> {
    if child == LeftChild(parent) then page.(left := hash)
    else if child == RightChild(parent) then page.(right := hash)
    else page
  }

  lemma {:induction false} RootedIncreasing(path: seq<nat>, n: nat, d: nat, e: nat)
    requires RootedPath(path, n) && d < e < |path|
    ensures path[d] < path[e]
    decreases e
  {
    if d < e - 1 {
      RootedIncreasing(path, n, d, e - 1);
    }
  }

  lemma RootedDistinct(path: seq<nat>, n: nat)
    requires RootedPath(path, n)
    ensures DistinctPath(path, n)
  {
    forall d, e | 0 <= d < e < |path|
      ensures path[d] != path[e]
    {
      RootedIncreasing(path, n, d, e);
    }
  }

  /** A rooted path contains the parent of each of its pages. */
  lemma ParentOnPath(path: seq<nat>, n: nat, m: nat, child: nat)
    requires RootedPath(path, n) && child in path
    requires child == LeftChild(m) || child == RightChild(m)
    ensures m in path
    ensures exists d :: 0 <= d && d + 1 < |path| && path[d] == m && path[d + 1] == child
  {
    var e :| 0 <= e < |path| && path[e] == child;
    assert e > 0;
    assert path[e - 1] == m;
    var d := e - 1;
    assert path[d] == m && path[d + 1] == child;
  }

  /** The pages of a set are linked by digests up to the trusted root. */
  ghost predicate VerifiedSet<L>(h: PageHash<L>, pages: map<nat, Page<L>>, root: Hash) {
    forall n :: n in pages ==>
      if n == 0 then HashOf(h, 0, pages[0]) == root
      else Parent(n) in pages && ChildHash(pages[Parent(n)], Parent(n), n) == Ok(HashOf(h, n, pages[n]))
  }

  /** Two different inputs of the hash function itself, for page `n`, with one digest. */
  ghost predicate Collides<L>(h: PageHash<L>, n: nat, a: Page<L>, b: Page<L>) {
    && (a.logical != b.logical || a.left != b.left || a.right != b.right)
    && h(n, a.logical, a.left, a.right) == h(n, b.logical, b.left, b.right)
  }

  /** At every index, different content or different child digests give different digests. */
  ghost predicate Injective<L(!new)>(h: PageHash<L>) {
    forall n, l, a, b, l', a', b' {:trigger h(n, l, a, b), h(n, l', a', b')} ::
      h(n, l, a, b) == h(n, l', a', b') ==> l == l' && a == a' && b == b'
  }

  /** Some page of the set collides with the reference page of the same index. */
  ghost predicate CollisionIn<L>(h: PageHash<L>, logicals: seq<L>, pages: map<nat, Page<L>>) {
    exists n :: n in pages && n < |logicals| && Collides(h, n, pages[n], RefPage(h, logicals, n))
  }

  ghost predicate Authentic<L>(h: PageHash<L>, logicals: seq<L>, pages: map<nat, Page<L>>) {
    forall n :: n in pages ==> n < |logicals| && pages[n] == RefPage(h, logicals, n)
  }

  lemma RefHash<L>(h: PageHash<L>, logicals: seq<L>, n: nat)
    requires n < |logicals|
    ensures HashOf(h, n, RefPage(h, logicals, n)) == SubtreeHash(h, logicals, n)
    ensures n > 0 ==> ChildHash(RefPage(h, logicals, Parent(n)), Parent(n), n) == Ok(SubtreeHash(h, logicals, n))
  {
  }

  /** A verified page is the reference page, or the set exhibits a collision. */
  lemma {:induction false} VerifiedPage<L>(h: PageHash<L>, logicals: seq<L>, pages: map<nat, Page<L>>, n: nat)
    requires VerifiedSet(h, pages, SubtreeHash(h, logicals, 0))
    requires forall k :: k in pages ==> k < |logicals|
    requires n in pages
    ensures pages[n] == RefPage(h, logicals, n) || CollisionIn(h, logicals, pages)
    decreases n
  {
    RefHash(h, logicals, n);
    if n > 0 {
      VerifiedPage(h, logicals, pages, Parent(n));
    }
    if pages[n] != RefPage(h, logicals, n) && (n == 0 || pages[Parent(n)] == RefPage(h, logicals, Parent(n))) {
      DigestInputs(h, n, pages[n], RefPage(h, logicals, n));
    }
  }

  /** The digest of a page covers all it holds. */
  lemma DigestInputs<L>(h: PageHash<L>, n: nat, a: Page<L>, b: Page<L>)
    requires a != b && HashOf(h, n, a) == HashOf(h, n, b)
    ensures Collides(h, n, a, b)
  {
  }

  /** Whatever the untrusted store returned: a verified set is exactly the reference pages, or it
      shows two different inputs with equal digests. */
  lemma VerifiedIsAuthentic<L>(h: PageHash<L>, logicals: seq<L>, pages: map<nat, Page<L>>)
    requires VerifiedSet(h, pages, SubtreeHash(h, logicals, 0))
    requires forall k :: k in pages ==> k < |logicals|
    ensures Authentic(h, logicals, pages) || CollisionIn(h, logicals, pages)
  {
    if !CollisionIn(h, logicals, pages) {
      forall n | n in pages
        ensures pages[n] == RefPage(h, logicals, n)
      {
        VerifiedPage(h, logicals, pages, n);
      }
    }
  }

  /** Pages after the logical contents of a path were replaced; embedded digests still stale. */
  function Overwrite<L>(pages: seq<Page<L>>, path: seq<nat>, logicals: seq<L>, k: nat): (r: seq<Page<L>>)
    requires |logicals| == |path| && k <= |path| && AllInRange(path, |pages|)
    ensures |r| == |pages|
  {
    if k == 0 then pages
    else
      var prev := Overwrite(pages, path, logicals, k - 1);
      prev[path[k - 1] := prev[path[k - 1]].(logical := logicals[k - 1])]
  }

  /** Pages after the digests of the path were recomputed from its end up to depth `d`, and the digest
      of the page at depth `d`. */
  function Rehash<L>(h: PageHash<L>, pages: seq<Page<L>>, path: seq<nat>, d: nat): (r: (seq<Page<L>>, Hash))
    requires d < |path| && AllInRange(path, |pages|)
    ensures |r.0| == |pages|
    decreases |path| - d
  {
    if d + 1 == |path| then (pages, HashOf(h, path[d], pages[path[d]]))
    else
      var (below, childHash) := Rehash(h, pages, path, d + 1);
      var page := SetChildHash(below[path[d]], path[d], path[d + 1], childHash);
      (below[path[d] := page], HashOf(h, path[d], page))
  }

  /** Update of one path: new contents, digests recomputed bottom-up, new root. */
  function UpdatePath<L>(h: PageHash<L>, pages: seq<Page<L>>, path: seq<nat>, logicals: seq<L>)
    : (r: (seq<Page<L>>, Hash))
    requires |logicals| == |path| && path != [] && AllInRange(path, |pages|)
    ensures |r.0| == |pages|
  {
    Rehash(h, Overwrite(pages, path, logicals, |path|), path, 0)
  }

  /** The first `k` paths of a batch are rooted and come with one content per page. */
  ghost predicate WellFormedWrite<L>(paths: seq<seq<nat>>, contents: seq<seq<L>>, n: nat, k: nat) {
    && |contents| == |paths| && k <= |paths|
    && forall i :: 0 <= i < k ==> RootedPath(paths[i], n) && |contents[i]| == |paths[i]|
  }

  /** Updates of the first `k` paths of a batch, over one shared set of pages. */
  ghost function UpdateAll<L>(h: PageHash<L>, pages: seq<Page<L>>, root: Hash, paths: seq<seq<nat>>,
                              contents: seq<seq<L>>, k: nat): (r: (seq<Page<L>>, Hash))
    requires WellFormedWrite(paths, contents, |pages|, k)
    ensures |r.0| == |pages|
  {
    if k == 0 then (pages, root)
    else UpdatePath(h, UpdateAll(h, pages, root, paths, contents, k - 1).0, paths[k - 1], contents[k - 1])
  }

  /** The logical pages after the first `k` path writes: the last write wins on shared pages. */
  ghost function LogicalAfter<L>(logicals: seq<L>, paths: seq<seq<nat>>, contents: seq<seq<L>>, k: nat): (r: seq<L>)
    requires WellFormedWrite(paths, contents, |logicals|, k)
    ensures |r| == |logicals|
  {
    if k == 0 then logicals
    else WriteAll(LogicalAfter(logicals, paths, contents, k - 1), paths[k - 1], contents[k - 1], |paths[k - 1]|)
  }

  /** Off a rooted path no subtree digest changes. */
  lemma {:induction false} OffPathHash<L>(h: PageHash<L>, before: seq<L>, path: seq<nat>, contents: seq<L>, m: nat)
    requires RootedPath(path, |before|) && |contents| == |path| && m !in path
    ensures SubtreeHash(h, WriteAll(before, path, contents, |path|), m) == SubtreeHash(h, before, m)
    decreases if m < |before| then |before| - m else 0
  {
    var after := WriteAll(before, path, contents, |path|);
    if m < |before| {
      RootedDistinct(path, |before|);
      WritePathFrame(before, path, contents, |path|);
      assert path[..|path|] == path;
      if LeftChild(m) in path {
        ParentOnPath(path, |before|, m, LeftChild(m));
      }
      if RightChild(m) in path {
        ParentOnPath(path, |before|, m, RightChild(m));
      }
      OffPathHash(h, before, path, contents, LeftChild(m));
      OffPathHash(h, before, path, contents, RightChild(m));
    }
  }

  lemma OffPathPage<L>(h: PageHash<L>, before: seq<L>, path: seq<nat>, contents: seq<L>, m: nat)
    requires RootedPath(path, |before|) && |contents| == |path| && m !in path && m < |before|
    ensures RefPage(h, WriteAll(before, path, contents, |path|), m) == RefPage(h, before, m)
  {
    RootedDistinct(path, |before|);
    WritePathFrame(before, path, contents, |path|);
    assert path[..|path|] == path;
    if LeftChild(m) in path {
      ParentOnPath(path, |before|, m, LeftChild(m));
    }
    if RightChild(m) in path {
      ParentOnPath(path, |before|, m, RightChild(m));
    }
    OffPathHash(h, before, path, contents, LeftChild(m));
    OffPathHash(h, before, path, contents, RightChild(m));
  }

  /** The only child of a path page that is on the path is the next one. */
  lemma OtherChildOff(path: seq<nat>, n: nat, d: nat, child: nat)
    requires RootedPath(path, n) && d < |path|
    requires child == LeftChild(path[d]) || child == RightChild(path[d])
    requires d + 1 < |path| ==> child != path[d + 1]
    ensures child !in path
  {
    if child in path {
      ParentOnPath(path, n, path[d], child);
      var e :| 0 <= e && e + 1 < |path| && path[e] == path[d] && path[e + 1] == child;
      if e < d {
        RootedIncreasing(path, n, e, d);
      } else if d < e {
        RootedIncreasing(path, n, d, e);
      }
    }
  }

  lemma {:induction false} OverwriteFrame<L>(pages: seq<Page<L>>, path: seq<nat>, logicals: seq<L>, k: nat)
    requires |logicals| == |path| && k <= |path| && DistinctPath(path, |pages|)
    ensures var r := Overwrite(pages, path, logicals, k);
            && (forall d :: 0 <= d < k ==> r[path[d]] == pages[path[d]].(logical := logicals[d]))
            && (forall n :: 0 <= n < |pages| && n !in path[..k] ==> r[n] == pages[n])
  {
    if k > 0 {
      OverwriteFrame(pages, path, logicals, k - 1);
      assert path[..k] == path[..k - 1] + [path[k - 1]];
    }
  }

  /** Digests recomputed from the end of the path up to depth `d`: the path pages from `d` on are
      reference pages of the new contents; every other page is as it was in `pages`. */
  ghost predicate RehashedFrom<L>(h: PageHash<L>, after: seq<L>, pages: seq<Page<L>>, r: seq<Page<L>>, path: seq<nat>,
                                  d: nat) {
    && |r| == |pages| == |after| && AllInRange(path, |pages|)
    && (forall e :: d <= e < |path| ==> r[path[e]] == RefPage(h, after, path[e]))
    && (forall n :: 0 <= n < |pages| && (forall e :: d <= e < |path| ==> path[e] != n) ==> r[n] == pages[n])
  }

  lemma {:induction false} RehashMeaning<L>(h: PageHash<L>, before: seq<L>, after: seq<L>, pages: seq<Page<L>>,
                                           path: seq<nat>, contents: seq<L>, d: nat)
    requires RootedPath(path, |before|) && |contents| == |path| && d < |path| && |pages| == |before|
    requires after == WriteAll(before, path, contents, |path|)
    requires forall e :: 0 <= e < |path| ==> pages[path[e]] == RefPage(h, before, path[e]).(logical := contents[e])
    ensures RehashedFrom(h, after, pages, Rehash(h, pages, path, d).0, path, d)
    ensures Rehash(h, pages, path, d).1 == SubtreeHash(h, after, path[d])
    decreases |path| - d
  {
    hide SubtreeHash, WriteAll, RefPage, SetChildHash, HashOf, RootedPath, RehashedFrom;
    PathContent(before, after, path, contents, d);
    RefHash(h, after, path[d]);
    if d + 1 == |path| {
      LastPage(h, before, after, path, contents, d);
      RehashedLast(h, after, pages, path, d);
    } else {
      RehashMeaning(h, before, after, pages, path, contents, d + 1);
      var (below, childHash) := Rehash(h, pages, path, d + 1);
      InnerPage(h, before, after, path, contents, d, childHash);
      RehashedStep(h, after, pages, below, path, d);
    }
  }

  lemma PathContent<L>(before: seq<L>, after: seq<L>, path: seq<nat>, contents: seq<L>, d: nat)
    requires RootedPath(path, |before|) && |contents| == |path| && d < |path|
    requires after == WriteAll(before, path, contents, |path|)
    ensures AllInRange(path, |before|)
    ensures after[path[d]] == contents[d]
  {
    RootedDistinct(path, |before|);
    WritePathFrame(before, path, contents, |path|);
  }

  lemma RehashedLast<L>(h: PageHash<L>, after: seq<L>, pages: seq<Page<L>>, path: seq<nat>, d: nat)
    requires RootedPath(path, |pages|) && d + 1 == |path| && |after| == |pages|
    requires pages[path[d]] == RefPage(h, after, path[d])
    ensures RehashedFrom(h, after, pages, pages, path, d)
  {
    hide RefPage;
  }

  lemma RehashedStep<L>(h: PageHash<L>, after: seq<L>, pages: seq<Page<L>>, below: seq<Page<L>>, path: seq<nat>, d: nat)
    requires RootedPath(path, |pages|) && d + 1 < |path|
    requires RehashedFrom(h, after, pages, below, path, d + 1)
    ensures below[path[d]] == pages[path[d]]
    ensures RehashedFrom(h, after, pages, below[path[d] := RefPage(h, after, path[d])], path, d)
  {
    hide RefPage;
    RootedDistinct(path, |pages|);
  }

  lemma LastPage<L>(h: PageHash<L>, before: seq<L>, after: seq<L>, path: seq<nat>, contents: seq<L>, d: nat)
    requires RootedPath(path, |before|) && |contents| == |path| && d + 1 == |path|
    requires after == WriteAll(before, path, contents, |path|) && after[path[d]] == contents[d]
    ensures RefPage(h, after, path[d]) == RefPage(h, before, path[d]).(logical := contents[d])
  {
    OtherChildOff(path, |before|, d, LeftChild(path[d]));
    OtherChildOff(path, |before|, d, RightChild(path[d]));
    OffPathHash(h, before, path, contents, LeftChild(path[d]));
    OffPathHash(h, before, path, contents, RightChild(path[d]));
  }

  lemma InnerPage<L>(h: PageHash<L>, before: seq<L>, after: seq<L>, path: seq<nat>, contents: seq<L>, d: nat,
                     childHash: Hash)
    requires RootedPath(path, |before|) && |contents| == |path| && d + 1 < |path|
    requires after == WriteAll(before, path, contents, |path|) && after[path[d]] == contents[d]
    requires childHash == SubtreeHash(h, after, path[d + 1])
    ensures SetChildHash(RefPage(h, before, path[d]).(logical := contents[d]), path[d], path[d + 1], childHash) ==
            RefPage(h, after, path[d])
  {
    var other := if path[d + 1] == LeftChild(path[d]) then RightChild(path[d]) else LeftChild(path[d]);
    OtherChildOff(path, |before|, d, other);
    OffPathHash(h, before, path, contents, other);
  }

  /** `pages` agrees with the reference tree on every page of `keys`. */
  ghost predicate AgreesOn<L>(h: PageHash<L>, logicals: seq<L>, pages: seq<Page<L>>, keys: set<nat>) {
    && |pages| == |logicals|
    && forall n :: n in keys ==> n < |pages| && pages[n] == RefPage(h, logicals, n)
  }

  /** One path update carries agreement from the old reference tree to the new one. */
  lemma UpdatePathAgrees<L>(h: PageHash<L>, before: seq<L>, pages: seq<Page<L>>, path: seq<nat>, contents: seq<L>,
                            keys: set<nat>)
    requires AgreesOn(h, before, pages, keys)
    requires RootedPath(path, |before|) && |contents| == |path|
    requires forall d :: 0 <= d < |path| ==> path[d] in keys
    ensures var (r, root) := UpdatePath(h, pages, path, contents);
            var after := WriteAll(before, path, contents, |path|);
            && AgreesOn(h, after, r, keys)
            && root == SubtreeHash(h, after, 0)
            && (forall n :: 0 <= n < |pages| && n !in path ==> r[n] == pages[n])
  {
    hide SubtreeHash, WriteAll, RefPage, Overwrite, Rehash;
    RootedDistinct(path, |before|);
    var after := WriteAll(before, path, contents, |path|);
    var stale := Overwrite(pages, path, contents, |path|);
    OverwriteFrame(pages, path, contents, |path|);
    assert path[..|path|] == path;
    RehashMeaning(h, before, after, stale, path, contents, 0);
    var r := UpdatePath(h, pages, path, contents).0;
    forall n | n in keys
      ensures r[n] == RefPage(h, after, n)
    {
      if n !in path {
        OffPathPage(h, before, path, contents, n);
      }
    }
  }

  /** The pages of the first `k` paths are all among `keys`. */
  ghost predicate PathsWithin(paths: seq<seq<nat>>, keys: set<nat>, k: nat) {
    forall i, d :: 0 <= i < k && i < |paths| && 0 <= d < |paths[i]| ==> paths[i][d] in keys
  }

  /** A batch of overlapping path updates, applied in order to pages that agree with a reference tree
      on all touched pages, yields exactly the pages and root a fresh build over the resulting logical
      pages would store. */
  lemma {:induction false} UpdateAllEqualsRebuild<L>(h: PageHash<L>, logicals: seq<L>, pages: seq<Page<L>>,
                                                    paths: seq<seq<nat>>, contents: seq<seq<L>>, keys: set<nat>, k: nat)
    requires WellFormedWrite(paths, contents, |logicals|, k)
    requires AgreesOn(h, logicals, pages, keys) && PathsWithin(paths, keys, k)
    ensures var (r, root) := UpdateAll(h, pages, SubtreeHash(h, logicals, 0), paths, contents, k);
            var after := LogicalAfter(logicals, paths, contents, k);
            && AgreesOn(h, after, r, keys)
            && root == SubtreeHash(h, after, 0)
            && (forall n :: 0 <= n < |pages| && n !in keys ==> r[n] == pages[n])
    decreases k
  {
    hide SubtreeHash, WriteAll, RefPage, UpdatePath;
    if k > 0 {
      UpdateAllEqualsRebuild(h, logicals, pages, paths, contents, keys, k - 1);
      var prev := UpdateAll(h, pages, SubtreeHash(h, logicals, 0), paths, contents, k - 1).0;
      var before := LogicalAfter(logicals, paths, contents, k - 1);
      UpdatePathAgrees(h, before, prev, paths[k - 1], contents[k - 1], keys);
    }
  }

  /** A page no write of the batch touches keeps its whole subtree digest, so its stored page is
      already what a rebuild would store. */
  lemma {:induction false} UntouchedPages<L>(h: PageHash<L>, logicals: seq<L>, paths: seq<seq<nat>>,
                                            contents: seq<seq<L>>, k: nat, m: nat)
    requires WellFormedWrite(paths, contents, |logicals|, k) && m < |logicals|
    requires forall i :: 0 <= i < k ==> m !in paths[i]
    ensures RefPage(h, LogicalAfter(logicals, paths, contents, k), m) == RefPage(h, logicals, m)
    decreases k
  {
    if k > 0 {
      UntouchedPages(h, logicals, paths, contents, k - 1, m);
      OffPathPage(h, LogicalAfter(logicals, paths, contents, k - 1), paths[k - 1], contents[k - 1], m);
    }
  }
}
