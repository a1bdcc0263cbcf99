/** Batches over the embedded tree on values: which path reads are accepted, what a batched write
    leaves behind with and without the verified-page cache, and what both mean for an honest and for
    an arbitrary backing store (src/embedded_tree.rs). */
module EmbeddedBatch {
  import opened Common
  import opened PageStores
  import opened EmbeddedSpec

  ghost predicate Touched(paths: seq<seq<nat>>, n: nat) {
    exists i :: 0 <= i < |paths| && n in paths[i]
  }

  ghost predicate AllRooted(paths: seq<seq<nat>>, n: nat) {
    forall i :: 0 <= i < |paths| ==> RootedPath(paths[i], n)
  }

  /** Digests chain from the trusted root down to the last page of the path. */
  ghost predicate PathVerified<L>(h: PageHash<L>, pages: seq<Page<L>>, root: Hash, path: seq<nat>)
    requires RootedPath(path, |pages|)
  {
    && HashOf(h, path[0], pages[path[0]]) == root
    && forall d :: 0 < d < |path| ==>
         ChildHash(pages[path[d - 1]], path[d - 1], path[d]) == Ok(HashOf(h, path[d], pages[path[d]]))
  }

  /** The condition under which a batch of path reads succeeds. */
  ghost predicate Accepts<L>(h: PageHash<L>, pages: seq<Page<L>>, root: Hash, paths: seq<seq<nat>>) {
    forall i :: 0 <= i < |paths| ==> RootedPath(paths[i], |pages|) && PathVerified(h, pages, root, paths[i])
  }

  /** The pages a batch reads, as the store holds them. */
  ghost function PagesOf<L>(pages: seq<Page<L>>, paths: seq<seq<nat>>): map<nat, Page<L>> {
    map n: nat | n < |pages| && Touched(paths, n) :: pages[n]
  }

  /** Accepted reads form a set linked up to the root. */
  lemma AcceptedVerified<L>(h: PageHash<L>, pages: seq<Page<L>>, root: Hash, paths: seq<seq<nat>>)
    requires Accepts(h, pages, root, paths)
    ensures VerifiedSet(h, PagesOf(pages, paths), root)
  {
    var read := PagesOf(pages, paths);
    forall n | n in read
      ensures if n == 0 then HashOf(h, 0, read[0]) == root
              else Parent(n) in read && ChildHash(read[Parent(n)], Parent(n), n) == Ok(HashOf(h, n, read[n]))
    {
      AcceptedPage(h, pages, root, paths, n);
    }
  }

  lemma AcceptedPage<L>(h: PageHash<L>, pages: seq<Page<L>>, root: Hash, paths: seq<seq<nat>>, n: nat)
    requires Accepts(h, pages, root, paths) && n < |pages| && Touched(paths, n)
    ensures n == 0 ==> HashOf(h, 0, pages[0]) == root
    ensures n > 0 ==> Parent(n) < |pages| && Touched(paths, Parent(n)) &&
                      ChildHash(pages[Parent(n)], Parent(n), n) == Ok(HashOf(h, n, pages[n]))
  {
    hide HashOf, ChildHash;
    var i :| 0 <= i < |paths| && n in paths[i];
    var path := paths[i];
    var d :| 0 <= d < |path| && path[d] == n;
    if n == 0 {
      if d > 0 { RootedIncreasing(path, |pages|, 0, d); }
    } else {
      assert Parent(n) == path[d - 1];
      assert Parent(n) in paths[i];
    }
  }

  /** The converse: pages that agree with a verified set are accepted on every path the set covers. */
  lemma CoveredAccepted<L>(h: PageHash<L>, pages: seq<Page<L>>, root: Hash, paths: seq<seq<nat>>,
                           verified: map<nat, Page<L>>)
    requires VerifiedSet(h, verified, root) && AllRooted(paths, |pages|)
    requires forall n: nat :: n < |pages| && Touched(paths, n) ==> n in verified && verified[n] == pages[n]
    ensures Accepts(h, pages, root, paths)
  {
    hide HashOf, ChildHash;
    forall i | 0 <= i < |paths|
      ensures PathVerified(h, pages, root, paths[i])
    {
      var path := paths[i];
      assert path[0] == 0 && Touched(paths, 0);
      forall d | 0 < d < |path|
        ensures ChildHash(pages[path[d - 1]], path[d - 1], path[d]) == Ok(HashOf(h, path[d], pages[path[d]]))
      {
        assert path[d] in paths[i] && path[d - 1] in paths[i];
        assert Touched(paths, path[d]) && Touched(paths, path[d - 1]);
        assert Parent(path[d]) == path[d - 1];
      }
    }
  }

  /** An honest store is never refused. */
  lemma HonestAccepts<L>(h: PageHash<L>, logicals: seq<L>, paths: seq<seq<nat>>)
    requires AllRooted(paths, |logicals|)
    ensures Accepts(h, RefPages(h, logicals), SubtreeHash(h, logicals, 0), paths)
  {
    hide SubtreeHash, RefPage, HashOf, ChildHash;
    var pages := RefPages(h, logicals);
    var all := map n: nat | n < |pages| :: pages[n];
    forall n | n in all
      ensures if n == 0 then HashOf(h, 0, all[0]) == SubtreeHash(h, logicals, 0)
              else Parent(n) in all && ChildHash(all[Parent(n)], Parent(n), n) == Ok(HashOf(h, n, all[n]))
    {
      RefHash(h, logicals, n);
    }
    CoveredAccepted(h, pages, SubtreeHash(h, logicals, 0), paths, all);
  }

  /** Whatever pages the store holds: under the root of a reference tree an accepted read shows the
      reference contents, or exhibits two page inputs with one digest. */
  lemma AcceptedIsAuthentic<L>(h: PageHash<L>, logicals: seq<L>, pages: seq<Page<L>>, paths: seq<seq<nat>>)
    requires |pages| == |logicals|
    requires Accepts(h, pages, SubtreeHash(h, logicals, 0), paths)
    ensures (forall i, d :: 0 <= i < |paths| && 0 <= d < |paths[i]| ==>
               paths[i][d] < |pages| && pages[paths[i][d]] == RefPage(h, logicals, paths[i][d]))
            || CollisionIn(h, logicals, PagesOf(pages, paths))
  {
    AcceptedVerified(h, pages, SubtreeHash(h, logicals, 0), paths);
    VerifiedIsAuthentic(h, logicals, PagesOf(pages, paths));
    if !CollisionIn(h, logicals, PagesOf(pages, paths)) {
      forall i, d | 0 <= i < |paths| && 0 <= d < |paths[i]|
        ensures pages[paths[i][d]] == RefPage(h, logicals, paths[i][d])
      {
        assert paths[i][d] in paths[i];
        assert paths[i][d] in PagesOf(pages, paths);
      }
    }
  }

  /** For a hash function without collisions an accepted read shows the reference contents and digests,
      whatever the store holds. */
  lemma InjectiveReads<L(!new)>(h: PageHash<L>, logicals: seq<L>, pages: seq<Page<L>>, paths: seq<seq<nat>>)
    requires Injective(h) && |pages| == |logicals|
    requires Accepts(h, pages, SubtreeHash(h, logicals, 0), paths)
    ensures forall i, d :: 0 <= i < |paths| && 0 <= d < |paths[i]| ==>
              paths[i][d] < |pages| && pages[paths[i][d]] == RefPage(h, logicals, paths[i][d])
  {
    hide Accepts, SubtreeHash, RefPage;
    AcceptedIsAuthentic(h, logicals, pages, paths);
  }

  /** The digests of a three-page tree, written out. */
  lemma RootOfThree<L>(h: PageHash<L>, a: L, b: L, c: L)
    ensures SubtreeHash(h, [a, b, c], 0) == h(0, a, h(1, b, 0, 0), h(2, c, 0, 0))
    ensures RefPages(h, [a, b, c]) == [Page(a, h(1, b, 0, 0), h(2, c, 0, 0)), Page(b, 0, 0), Page(c, 0, 0)]
  {
    var logicals := [a, b, c];
    assert SubtreeHash(h, logicals, 1) == h(1, b, 0, 0);
    assert SubtreeHash(h, logicals, 2) == h(2, c, 0, 0);
  }

  datatype VerifiedCache<L> = VerifiedCache(root: Hash, pages: map<nat, Page<L>>)

  ghost predicate CacheUsable<L>(cache: Option<VerifiedCache<L>>, root: Hash, paths: seq<seq<nat>>) {
    && cache.Some? && cache.value.root == root
    && forall i, d :: 0 <= i < |paths| && 0 <= d < |paths[i]| ==> paths[i][d] in cache.value.pages
  }

  /** The pages a batched write starts from: cached pages where the cache is used. */
  ghost function WriteBase<L>(pages: seq<Page<L>>, cache: Option<VerifiedCache<L>>, root: Hash, paths: seq<seq<nat>>)
    : (r: seq<Page<L>>)
    ensures |r| == |pages|
  {
    if CacheUsable(cache, root, paths)
    then seq(|pages|, n requires 0 <= n < |pages| => if n in cache.value.pages then cache.value.pages[n] else pages[n])
    else pages
  }

  /** How many leading paths of the batch pass the per-path checks. */
  ghost function GoodPaths<L>(paths: seq<seq<nat>>, contents: seq<seq<L>>, n: nat, k: nat): (g: nat)
    requires WellFormedWrite(paths, contents, n, k)
    ensures k <= g <= |paths| && WellFormedWrite(paths, contents, n, g)
    ensures g < |paths| ==> !(RootedPath(paths[g], n) && |contents[g]| == |paths[g]|)
    decreases |paths| - k
  {
    if k < |paths| && RootedPath(paths[k], n) && |contents[k]| == |paths[k]|
    then GoodPaths(paths, contents, n, k + 1)
    else k
  }

  /** Written back: the touched pages from the overlay, every other page as the store has it. */
  ghost function WriteTouched<L>(pages: seq<Page<L>>, updated: seq<Page<L>>, paths: seq<seq<nat>>): (r: seq<Page<L>>)
    requires |updated| == |pages|
    ensures |r| == |pages|
    ensures forall n :: 0 <= n < |pages| ==> r[n] == if Touched(paths, n) then updated[n] else pages[n]
  {
    seq(|pages|, n requires 0 <= n < |pages| => if Touched(paths, n) then updated[n] else pages[n])
  }

  datatype Outcome<L> = Outcome(ok: bool, pages: seq<Page<L>>, root: Hash)

  /** Store and trusted root after a batched write. A path that fails its checks stops the batch
      before anything is stored, but the root has then advanced past the paths before it. */
  ghost function WriteOutcome<L>(h: PageHash<L>, pages: seq<Page<L>>, cache: Option<VerifiedCache<L>>, root: Hash,
                                 paths: seq<seq<nat>>, contents: seq<seq<L>>): (r: Outcome<L>)
    ensures |r.pages| == |pages|
  {
    if |paths| != |contents| then Outcome(false, pages, root)
    else if paths == [] then Outcome(true, pages, root)
    else if !CacheUsable(cache, root, paths) && !Accepts(h, pages, root, paths) then Outcome(false, pages, root)
    else
      var good := GoodPaths(paths, contents, |pages|, 0);
      var (updated, newRoot) := UpdateAll(h, WriteBase(pages, cache, root, paths), root, paths, contents, good);
      if good < |paths| then Outcome(false, pages, newRoot)
      else Outcome(true, WriteTouched(pages, updated, paths), newRoot)
  }

  /** Every cached page is what the store holds, and the cache was verified under its root. */
  ghost predicate CacheFresh<L>(h: PageHash<L>, pages: seq<Page<L>>, cache: Option<VerifiedCache<L>>) {
    cache.Some? ==>
      && VerifiedSet(h, cache.value.pages, cache.value.root)
      && forall n :: n in cache.value.pages ==> n < |pages| && cache.value.pages[n] == pages[n]
  }

  lemma FreshBase<L>(h: PageHash<L>, pages: seq<Page<L>>, cache: Option<VerifiedCache<L>>, root: Hash,
                     paths: seq<seq<nat>>)
    requires CacheFresh(h, pages, cache)
    ensures WriteBase(pages, cache, root, paths) == pages
    ensures CacheUsable(cache, root, paths) && AllRooted(paths, |pages|) ==> Accepts(h, pages, root, paths)
  {
    if CacheUsable(cache, root, paths) && AllRooted(paths, |pages|) {
      forall n: nat | n < |pages| && Touched(paths, n)
        ensures n in cache.value.pages
      {
        var i :| 0 <= i < |paths| && n in paths[i];
        var d :| 0 <= d < |paths[i]| && paths[i][d] == n;
      }
      CoveredAccepted(h, pages, root, paths, cache.value.pages);
    }
  }

  /** The root a batch reaches before the first path that fails its checks. */
  ghost function AdvancedRoot<L>(h: PageHash<L>, pages: seq<Page<L>>, root: Hash, paths: seq<seq<nat>>,
                                 contents: seq<seq<L>>): Hash
    requires |contents| == |paths|
  {
    UpdateAll(h, pages, root, paths, contents, GoodPaths(paths, contents, |pages|, 0)).1
  }

  /** Writing from the cache of a store unchanged since the read, against reading and verifying again.
      The two always agree on success and on the stored pages. They differ, in the trusted root alone,
      exactly when the cache is used for a batch with a path that is no path of the tree, and the good
      paths before the first bad one move the root: re-reading fails before they do. */
  lemma CacheEqualsReread<L>(h: PageHash<L>, pages: seq<Page<L>>, cache: Option<VerifiedCache<L>>, root: Hash,
                             paths: seq<seq<nat>>, contents: seq<seq<L>>)
    requires CacheFresh(h, pages, cache)
    ensures var cached := WriteOutcome(h, pages, cache, root, paths, contents);
            var reread := WriteOutcome(h, pages, None, root, paths, contents);
            && cached.ok == reread.ok && cached.pages == reread.pages
            && (cached == reread <==>
                || |contents| != |paths| || AllRooted(paths, |pages|) || !CacheUsable(cache, root, paths)
                || AdvancedRoot(h, pages, root, paths, contents) == root)
  {
    FreshBase(h, pages, cache, root, paths);
    FreshBase(h, pages, None, root, paths);
  }

  /** Two sequences of logical pages with one root digest are the same, or two reference pages of one
      index collide. */
  lemma RootDeterminesContents<L>(h: PageHash<L>, a: seq<L>, b: seq<L>)
    requires |a| == |b| && SubtreeHash(h, a, 0) == SubtreeHash(h, b, 0)
    ensures a == b || exists n :: 0 <= n < |a| && Collides(h, n, RefPage(h, b, n), RefPage(h, a, n))
  {
    var pages := map n: nat | n < |b| :: RefPage(h, b, n);
    forall n | n in pages
      ensures if n == 0 then HashOf(h, 0, pages[0]) == SubtreeHash(h, a, 0)
              else Parent(n) in pages && ChildHash(pages[Parent(n)], Parent(n), n) == Ok(HashOf(h, n, pages[n]))
    {
      RefHash(h, b, n);
    }
    hide SubtreeHash, HashOf, ChildHash;
    VerifiedIsAuthentic(h, a, pages);
    if CollisionIn(h, a, pages) {
      var n :| n in pages && n < |a| && Collides(h, n, pages[n], RefPage(h, a, n));
      assert Collides(h, n, RefPage(h, b, n), RefPage(h, a, n));
    } else {
      forall n | 0 <= n < |a|
        ensures a[n] == b[n]
      {
        assert n in pages;
        assert RefPage(h, b, n) == RefPage(h, a, n);
      }
    }
  }

  /** Whether the runs agree, from the arguments of the call alone: no mismatched lengths, no unrooted
      path covered by the cache, or the good paths write what is already there. */
  ghost predicate RunsAgree<L>(logicals: seq<L>, cache: Option<VerifiedCache<L>>, root: Hash, paths: seq<seq<nat>>,
                               contents: seq<seq<L>>) {
    || |contents| != |paths| || AllRooted(paths, |logicals|) || !CacheUsable(cache, root, paths)
    || LogicalAfter(logicals, paths, contents, GoodPaths(paths, contents, |logicals|, 0)) == logicals
  }

  /** Over an honest store: if the arguments say the runs agree they do; otherwise their roots differ,
      or two reference pages of one index are exhibited with one digest. */
  lemma HonestCacheEqualsReread<L>(h: PageHash<L>, logicals: seq<L>, cache: Option<VerifiedCache<L>>,
                                   paths: seq<seq<nat>>, contents: seq<seq<L>>)
    requires CacheFresh(h, RefPages(h, logicals), cache)
    ensures var pages, root := RefPages(h, logicals), SubtreeHash(h, logicals, 0);
            var cached := WriteOutcome(h, pages, cache, root, paths, contents);
            var reread := WriteOutcome(h, pages, None, root, paths, contents);
            && (RunsAgree(logicals, cache, root, paths, contents) ==> cached == reread)
            && (!RunsAgree(logicals, cache, root, paths, contents) ==>
                  || cached.root != reread.root
                  || var after := LogicalAfter(logicals, paths, contents, GoodPaths(paths, contents, |logicals|, 0));
                     exists n :: 0 <= n < |logicals| && Collides(h, n, RefPage(h, after, n), RefPage(h, logicals, n)))
  {
    hide SubtreeHash, RefPage, WriteOutcome, UpdateAll, LogicalAfter, GoodPaths, AllRooted, CacheUsable, CacheFresh;
    var pages, root := RefPages(h, logicals), SubtreeHash(h, logicals, 0);
    CacheEqualsReread(h, pages, cache, root, paths, contents);
    if |contents| == |paths| {
      var good := GoodPaths(paths, contents, |logicals|, 0);
      var after := LogicalAfter(logicals, paths, contents, good);
      PrefixUpdated(h, logicals, paths, contents, good);
      if SubtreeHash(h, after, 0) == root {
        RootDeterminesContents(h, logicals, after);
      }
    }
  }

  /** The proviso is needed: after a good path, a path the cache covers but that is no path of the tree
      leaves the root advanced from the cache, and untouched on re-reading. */
  lemma UnrootedBatchDiffers() returns (pages: seq<Page<int>>, cache: Option<VerifiedCache<int>>)
    ensures var h: PageHash<int> := (n, logical, left, right) => logical;
            var paths, contents := [[0], [0, 0]], [[1], [1, 1]];
            && CacheFresh(h, pages, cache)
            && WriteOutcome(h, pages, cache, 0, paths, contents) == Outcome(false, pages, 1)
            && WriteOutcome(h, pages, None, 0, paths, contents) == Outcome(false, pages, 0)
  {
    var h: PageHash<int> := (n, logical, left, right) => logical;
    var paths: seq<seq<nat>>, contents: seq<seq<int>> := [[0], [0, 0]], [[1], [1, 1]];
    pages := [Page(0, NO_CHILD, NO_CHILD)];
    var verified: map<nat, Page<int>> := map[0 := pages[0]];
    cache := Some(VerifiedCache(0, verified));
    var bad: seq<nat> := paths[1];
    assert bad[1] == 0 && bad[0] == 0;
    assert !RootedPath(paths[1], 1);
    assert RootedPath(paths[0], 1);
    assert CacheUsable(cache, 0, paths);
    assert GoodPaths(paths, contents, 1, 0) == 1;
    assert WriteBase(pages, cache, 0, paths) == pages;
    var stale := [Page(1, NO_CHILD, NO_CHILD)];
    assert Overwrite(pages, paths[0], contents[0], 0) == pages;
    assert Overwrite(pages, paths[0], contents[0], 1) == pages[0 := pages[0].(logical := 1)] == stale;
    assert Rehash(h, stale, paths[0], 0) == (stale, 1);
    assert UpdatePath(h, pages, paths[0], contents[0]) == (stale, 1);
    assert UpdateAll(h, pages, 0, paths, contents, 0).0 == pages;
    assert UpdateAll(h, pages, 0, paths, contents, 1) == (stale, 1);
    assert !Accepts(h, pages, 0, paths);
  }

  /** Over an honest store with a fresh (or no) cache, a batch succeeds exactly when its shape is
      right, and then leaves exactly the pages and root a fresh build over the resulting logical
      pages would give. */
  lemma WriteEqualsRebuild<L>(h: PageHash<L>, logicals: seq<L>, cache: Option<VerifiedCache<L>>,
                              paths: seq<seq<nat>>, contents: seq<seq<L>>)
    requires CacheFresh(h, RefPages(h, logicals), cache)
    ensures var r := WriteOutcome(h, RefPages(h, logicals), cache, SubtreeHash(h, logicals, 0), paths, contents);
            && (r.ok <==> |contents| == |paths| && WellFormedWrite(paths, contents, |logicals|, |paths|))
            && (r.ok ==> var after := LogicalAfter(logicals, paths, contents, |paths|);
                         r.pages == RefPages(h, after) && r.root == SubtreeHash(h, after, 0))
  {
    hide SubtreeHash, RefPage, VerifiedSet;
    var pages, root := RefPages(h, logicals), SubtreeHash(h, logicals, 0);
    FreshBase(h, pages, cache, root, paths);
    if |contents| == |paths| && paths != [] {
      if AllRooted(paths, |logicals|) {
        HonestAccepts(h, logicals, paths);
      }
      var good := GoodPaths(paths, contents, |pages|, 0);
      if good == |paths| {
        WholeTreeUpdated(h, logicals, paths, contents);
      }
    }
  }

  ghost function Indices(n: nat): (r: set<nat>)
    ensures forall k: nat :: k in r <==> k < n
  {
    if n == 0 then {} else Indices(n - 1) + {n - 1}
  }

  /** After the first `k` path updates of a whole reference tree the root is that of the new contents. */
  lemma PrefixUpdated<L>(h: PageHash<L>, logicals: seq<L>, paths: seq<seq<nat>>, contents: seq<seq<L>>, k: nat)
    requires WellFormedWrite(paths, contents, |logicals|, k)
    ensures UpdateAll(h, RefPages(h, logicals), SubtreeHash(h, logicals, 0), paths, contents, k).1 ==
            SubtreeHash(h, LogicalAfter(logicals, paths, contents, k), 0)
  {
    hide SubtreeHash, RefPage, UpdateAll, LogicalAfter;
    UpdateAllEqualsRebuild(h, logicals, RefPages(h, logicals), paths, contents, Indices(|logicals|), k);
  }

  lemma WholeTreeUpdated<L>(h: PageHash<L>, logicals: seq<L>, paths: seq<seq<nat>>, contents: seq<seq<L>>)
    requires WellFormedWrite(paths, contents, |logicals|, |paths|)
    ensures var pages := RefPages(h, logicals);
            var (updated, root) := UpdateAll(h, pages, SubtreeHash(h, logicals, 0), paths, contents, |paths|);
            var after := LogicalAfter(logicals, paths, contents, |paths|);
            && updated == RefPages(h, after) && WriteTouched(pages, updated, paths) == updated
            && root == SubtreeHash(h, after, 0)
  {
    hide SubtreeHash, RefPage, UpdateAll, LogicalAfter;
    var pages := RefPages(h, logicals);
    var keys := Indices(|logicals|);
    UpdateAllEqualsRebuild(h, logicals, pages, paths, contents, keys, |paths|);
    var updated := UpdateAll(h, pages, SubtreeHash(h, logicals, 0), paths, contents, |paths|).0;
    forall n | 0 <= n < |pages|
      ensures n in keys && (!Touched(paths, n) ==> updated[n] == pages[n])
    {
      if !Touched(paths, n) {
        UntouchedPages(h, logicals, paths, contents, |paths|, n);
      }
    }
  }

  /** Seen through the authentication, a batched write is the flat store's batched write. */
  lemma {:induction false} LogicalAfterIsFlatWrite<L>(logicals: seq<L>, paths: seq<seq<nat>>, contents: seq<seq<L>>,
                                                      k: nat)
    requires WellFormedWrite(paths, contents, |logicals|, k)
    ensures |Concat(paths[..k])| == |Concat(contents[..k])| && AllInRange(Concat(paths[..k]), |logicals|)
    ensures LogicalAfter(logicals, paths, contents, k) ==
            WriteAll(logicals, Concat(paths[..k]), Concat(contents[..k]), |Concat(paths[..k])|)
    decreases k
  {
    if k > 0 {
      hide Concat, WriteAll;
      LogicalAfterIsFlatWrite(logicals, paths, contents, k - 1);
      assert paths[..k] == paths[..k - 1] + [paths[k - 1]] && contents[..k] == contents[..k - 1] + [contents[k - 1]];
      ConcatSnoc(paths[..k - 1], paths[k - 1]);
      ConcatSnoc(contents[..k - 1], contents[k - 1]);
      WriteAppend(logicals, Concat(paths[..k - 1]), Concat(contents[..k - 1]), paths[k - 1], contents[k - 1],
                  |paths[k - 1]|);
    }
  }
}
