/** One authenticated store as the controller uses it (src/embedded_tree.rs behind src/circuit.rs): what
    it trusts, and what a read followed by a write of the same paths does. The pages of the inner store
    may be anything at any time. */
module TrustedPaths {
  import opened Common
  import opened Geometry
  import opened PageStores
  import opened EmbeddedSpec
  import opened EmbeddedBatch
  import opened EmbeddedTree

  /** The trusted root is that of the reference tree over `logicals`. */
  ghost predicate Trusts<L>(store: EmbeddedTreePageStore<L>, logicals: seq<L>)
    reads store
  {
    && store.Valid()
    && |logicals| == store.inner.pages.Length
    && store.rootHash == SubtreeHash(store.hash, logicals, 0)
  }

  /** The store holds what a build over `logicals` stores. */
  ghost predicate Untampered<L>(store: EmbeddedTreePageStore<L>, logicals: seq<L>)
    reads store.inner.pages
  {
    store.inner.pages[..] == RefPages(store.hash, logicals)
  }

  /** Two inputs for one page with one digest were read along the paths. */
  ghost predicate Exhibits<L>(store: EmbeddedTreePageStore<L>, logicals: seq<L>, seen: seq<Page<L>>,
                              paths: seq<seq<nat>>) {
    CollisionIn(store.hash, logicals, PagesOf(seen, paths))
  }

  /** The last read was of these paths, from the pages `seen`, and was accepted. */
  ghost predicate HasRead<L>(store: EmbeddedTreePageStore<L>, seen: seq<Page<L>>, paths: seq<seq<nat>>)
    reads store
  {
    && |seen| == store.inner.pages.Length
    && Accepts(store.hash, seen, store.rootHash, paths)
    && store.cache == Some(VerifiedCache(store.rootHash, PagesOf(seen, paths)))
  }

  /** Bucket paths are paths of the embedded tree. */
  lemma PathIsRooted(p: OramParams, leaf: nat)
    requires p.Valid() && leaf < p.leaves
    ensures RootedPath(p.PathNodes(leaf), p.BucketCount())
  {
    PathNodesDistinct(p, leaf);
    var path := p.PathNodes(leaf);
    forall d | 0 < d < |path|
      ensures path[d] == LeftChild(path[d - 1]) || path[d] == RightChild(path[d - 1])
    {
      PathParent(p, d - 1, leaf);
    }
  }

  /** Some stored page is not the reference page of its index, yet has its digest. */
  ghost predicate ForgedAt<L>(h: PageHash<L>, logicals: seq<L>, seen: seq<Page<L>>) {
    exists n :: 0 <= n < |logicals| && n < |seen| && Collides(h, n, seen[n], RefPage(h, logicals, n))
  }

  lemma ExhibitedIsForged<L>(h: PageHash<L>, logicals: seq<L>, seen: seq<Page<L>>, paths: seq<seq<nat>>)
    requires CollisionIn(h, logicals, PagesOf(seen, paths))
    ensures ForgedAt(h, logicals, seen)
  {
    hide RefPage;
    var n :| n in PagesOf(seen, paths) && n < |logicals| &&
      Collides(h, n, PagesOf(seen, paths)[n], RefPage(h, logicals, n));
    assert Collides(h, n, seen[n], RefPage(h, logicals, n));
  }

  lemma NotForged<L>(h: PageHash<L>, logicals: seq<L>, seen: seq<Page<L>>, paths: seq<seq<nat>>)
    requires !ForgedAt(h, logicals, seen)
    ensures !CollisionIn(h, logicals, PagesOf(seen, paths))
  {
    hide RefPage;
    if CollisionIn(h, logicals, PagesOf(seen, paths)) {
      ExhibitedIsForged(h, logicals, seen, paths);
    }
  }

  /** A hash function without collisions forges nothing. */
  lemma InjectiveForgesNothing<L(!new)>(h: PageHash<L>, logicals: seq<L>, seen: seq<Page<L>>)
    requires Injective(h)
    ensures !ForgedAt(h, logicals, seen)
  {
    hide RefPage;
  }

  /** The cache of an accepted read serves a write of the same paths. */
  lemma CacheServes<L>(h: PageHash<L>, seen: seq<Page<L>>, root: Hash, paths: seq<seq<nat>>)
    requires Accepts(h, seen, root, paths)
    ensures CacheUsable(Some(VerifiedCache(root, PagesOf(seen, paths))), root, paths)
    ensures PathsWithin(paths, PagesOf(seen, paths).Keys, |paths|)
  {
    hide PathVerified, PagesOf;
    var verified := PagesOf(seen, paths);
    AcceptedCovered(h, seen, root, paths);
    forall i, d | 0 <= i < |paths| && 0 <= d < |paths[i]|
      ensures paths[i][d] in verified
    {
      assert OnPath(paths[i], verified.Keys);
    }
  }

  /** Where the read was authentic, the pages a write starts from are reference pages. */
  lemma BaseIsAuthentic<L>(h: PageHash<L>, logicals: seq<L>, pages: seq<Page<L>>, verified: map<nat, Page<L>>,
                           root: Hash, paths: seq<seq<nat>>)
    requires |pages| == |logicals| && Authentic(h, logicals, verified)
    requires CacheUsable(Some(VerifiedCache(root, verified)), root, paths)
    ensures AgreesOn(h, logicals, WriteBase(pages, Some(VerifiedCache(root, verified)), root, paths), verified.Keys)
  {
    hide RefPage;
  }

  /** Writing from the cache of an accepted read, whatever became of the store's pages since: unless the
      read exhibited a collision, the write succeeds and its root is that of the written contents. */
  lemma CachedWriteAdvances<L>(h: PageHash<L>, logicals: seq<L>, seen: seq<Page<L>>, pages: seq<Page<L>>,
                               paths: seq<seq<nat>>, contents: seq<seq<L>>)
    requires |seen| == |pages| == |logicals| && paths != [] && |contents| == |paths|
    requires Accepts(h, seen, SubtreeHash(h, logicals, 0), paths)
    requires !CollisionIn(h, logicals, PagesOf(seen, paths))
    requires WellFormedWrite(paths, contents, |logicals|, |paths|)
    ensures var root := SubtreeHash(h, logicals, 0);
            var r := WriteOutcome(h, pages, Some(VerifiedCache(root, PagesOf(seen, paths))), root, paths, contents);
            r.ok && r.root == SubtreeHash(h, LogicalAfter(logicals, paths, contents, |paths|), 0)
  {
    hide SubtreeHash, RefPage, UpdateAll, LogicalAfter, PathVerified, Accepts, CacheUsable, PathsWithin, WriteBase,
         CollisionIn, AgreesOn, Authentic, VerifiedSet, WriteTouched, WellFormedWrite;
    var root := SubtreeHash(h, logicals, 0);
    var verified := PagesOf(seen, paths);
    AcceptedVerified(h, seen, root, paths);
    VerifiedIsAuthentic(h, logicals, verified);
    CacheServes(h, seen, root, paths);
    BaseIsAuthentic(h, logicals, pages, verified, root, paths);
    var base := WriteBase(pages, Some(VerifiedCache(root, verified)), root, paths);
    UpdateAllEqualsRebuild(h, logicals, base, paths, contents, verified.Keys, |paths|);
    AllGood(paths, contents, |pages|, 0);
  }

  lemma {:induction false} AllGood<L>(paths: seq<seq<nat>>, contents: seq<seq<L>>, n: nat, k: nat)
    requires WellFormedWrite(paths, contents, n, |paths|) && k <= |paths|
    ensures WellFormedWrite(paths, contents, n, k) && GoodPaths(paths, contents, n, k) == |paths|
    decreases |paths| - k
  {
    hide RootedPath;
    if k < |paths| {
      AllGood(paths, contents, n, k + 1);
    }
  }

  /** Reads the paths: under the trusted root the contents are those of `logicals`, or a collision is
      exhibited; otherwise the read is refused. */
  method ReadTrusted<L>(store: EmbeddedTreePageStore<L>, paths: seq<seq<nat>>, ghost logicals: seq<L>)
    returns (r: Result<seq<seq<L>>>)
    requires Trusts(store, logicals)
    modifies store`cache
    ensures Trusts(store, logicals)
    ensures r.Ok? <==> Accepts(store.hash, store.inner.pages[..], store.rootHash, paths)
    ensures r.Ok? ==> HasRead(store, store.inner.pages[..], paths) && |r.value| == |paths|
    ensures r.Ok? ==> forall i :: 0 <= i < |paths| ==> |r.value[i]| == |paths[i]|
    ensures r.Ok? ==>
              || Exhibits(store, logicals, store.inner.pages[..], paths)
              || forall i :: 0 <= i < |paths| ==>
                   AllInRange(paths[i], |logicals|) && r.value[i] == ReadAll(logicals, paths[i])
  {
    hide SubtreeHash, PathVerified, VerifiedSet, CollisionIn;
    r := store.ReadPaths(paths);
    if r.Ok? {
      AcceptedInRange(store.hash, store.inner.pages[..], store.rootHash, paths);
    }
  }

  lemma AcceptedInRange<L>(h: PageHash<L>, pages: seq<Page<L>>, root: Hash, paths: seq<seq<nat>>)
    requires Accepts(h, pages, root, paths)
    ensures forall i :: 0 <= i < |paths| ==> AllInRange(paths[i], |pages|)
  {
    hide PathVerified;
  }

  /** Writes the paths just read. Unless the read exhibited a collision, the store then trusts the
      written contents, whatever its pages are; a store nobody changed then holds them. */
  method WriteTrusted<L>(store: EmbeddedTreePageStore<L>, paths: seq<seq<nat>>, contents: seq<seq<L>>,
                         ghost logicals: seq<L>, ghost seen: seq<Page<L>>)
    returns (r: Result<()>)
    requires Trusts(store, logicals) && HasRead(store, seen, paths)
    requires paths != [] && |contents| == |paths| && WellFormedWrite(paths, contents, |logicals|, |paths|)
    modifies store`cache, store`rootHash, store.inner.pages
    ensures store.Valid()
    ensures old(Untampered(store, logicals)) && seen == old(store.inner.pages[..]) ==>
              Untampered(store, LogicalAfter(logicals, paths, contents, |paths|))
    ensures !Exhibits(store, logicals, seen, paths) ==>
              r.Ok? && Trusts(store, LogicalAfter(logicals, paths, contents, |paths|))
  {
    hide SubtreeHash, RefPage, Accepts, WriteOutcome, LogicalAfter, CollisionIn, VerifiedSet, PagesOf, WellFormedWrite;
    if !Exhibits(store, logicals, seen, paths) {
      CachedWriteAdvances(store.hash, logicals, seen, store.inner.pages[..], paths, contents);
    }
    if Untampered(store, logicals) && seen == store.inner.pages[..] {
      ReadIsFresh(store.hash, seen, store.rootHash, paths);
      WriteEqualsRebuild(store.hash, logicals, store.cache, paths, contents);
    }
    r := store.WritePaths(paths, contents);
  }

  /** What was just read is what the store holds. */
  lemma ReadIsFresh<L>(h: PageHash<L>, seen: seq<Page<L>>, root: Hash, paths: seq<seq<nat>>)
    requires Accepts(h, seen, root, paths)
    ensures CacheFresh(h, seen, Some(VerifiedCache(root, PagesOf(seen, paths))))
  {
    hide VerifiedSet, PathVerified;
    AcceptedVerified(h, seen, root, paths);
  }

  /** A store nobody changed is never refused, and holds no forged page. */
  lemma UntamperedReads<L>(h: PageHash<L>, logicals: seq<L>, paths: seq<seq<nat>>)
    requires AllRooted(paths, |logicals|)
    ensures Accepts(h, RefPages(h, logicals), SubtreeHash(h, logicals, 0), paths)
    ensures !ForgedAt(h, logicals, RefPages(h, logicals))
  {
    hide SubtreeHash, RefPage, Accepts;
    HonestAccepts(h, logicals, paths);
  }
}
