/** The path-level authenticated store (src/embedded_tree.rs, EmbeddedTreePageStore). The inner store
    is untrusted: its pages may be changed by anyone between calls. */
module EmbeddedTree {
  import opened Common
  import opened PageStores
  import opened EmbeddedSpec
  import opened EmbeddedBatch

  /** The members of a set in ascending order, as an ordered set lists them. */
  method Ascending(members: set<nat>, bound: nat) returns (r: seq<nat>)
    requires forall n :: n in members ==> n < bound
    ensures forall n :: n in r <==> n in members
    ensures DistinctPath(r, bound)
  {
    r := [];
    for n := 0 to bound
      invariant forall k :: 0 <= k < |r| ==> r[k] < n
      invariant forall k, l :: 0 <= k < l < |r| ==> r[k] < r[l]
      invariant forall m :: m in r <==> m in members && m < n
    {
      if n in members {
        r := r + [n];
      }
    }
  }

  method ValidatePath(path: seq<nat>, pageCount: nat) returns (r: Result<()>)
    ensures r.Ok? <==> RootedPath(path, pageCount)
  {
    if path == [] || path[0] != 0 {
      return Err(InvalidInput);
    }
    for d := 0 to |path|
      invariant forall e :: 0 <= e < d ==> path[e] < pageCount
      invariant forall e :: 0 < e < d ==> path[e] == LeftChild(path[e - 1]) || path[e] == RightChild(path[e - 1])
    {
      if path[d] >= pageCount {
        return Err(InvalidInput);
      }
      if d > 0 && path[d] != LeftChild(path[d - 1]) && path[d] != RightChild(path[d - 1]) {
        return Err(InvalidInput);
      }
    }
    return Ok(());
  }

  /** The overlay shows the listed pages of `pages`. */
  ghost predicate Reads<L>(overlay: map<nat, Page<L>>, pages: seq<Page<L>>, keys: set<nat>) {
    && overlay.Keys == keys
    && forall n :: n in overlay ==> n < |pages| && overlay[n] == pages[n]
  }

  ghost predicate OnPath(path: seq<nat>, keys: set<nat>) {
    forall d :: 0 <= d < |path| ==> path[d] in keys
  }

  method VerifyPathFromPages<L>(path: seq<nat>, pages: map<nat, Page<L>>, h: PageHash<L>, root: Hash,
                                ghost stored: seq<Page<L>>) returns (r: Result<()>)
    requires Reads(pages, stored, pages.Keys) && OnPath(path, pages.Keys) && RootedPath(path, |stored|)
    ensures r.Ok? <==> PathVerified(h, stored, root, path)
  {
    var expected := root;
    for d := 0 to |path|
      invariant d == 0 ==> expected == root
      invariant 0 < d < |path| ==> ChildHash(stored[path[d - 1]], path[d - 1], path[d]) == Ok(expected)
      invariant d > 0 ==> HashOf(h, path[0], stored[path[0]]) == root
      invariant forall e :: 0 < e < d ==>
                  ChildHash(stored[path[e - 1]], path[e - 1], path[e]) == Ok(HashOf(h, path[e], stored[path[e]]))
    {
      var page := pages[path[d]];
      if HashOf(h, path[d], page) != expected {
        return Err(InvalidInput);
      }
      if d + 1 < |path| {
        var next := ChildHash(page, path[d], path[d + 1]);
        if next.Err? {
          return Err(next.error);
        }
        expected := next.value;
      }
    }
    return Ok(());
  }

  /** New contents for one path, then digests bottom-up, on the overlay. */
  method UpdatePathPages<L>(path: seq<nat>, logicals: seq<L>, pages: map<nat, Page<L>>, h: PageHash<L>,
                            ghost base: seq<Page<L>>) returns (out: map<nat, Page<L>>, root: Hash)
    requires Reads(pages, base, pages.Keys) && OnPath(path, pages.Keys)
    requires RootedPath(path, |base|) && |logicals| == |path|
    ensures Reads(out, UpdatePath(h, base, path, logicals).0, pages.Keys)
    ensures root == UpdatePath(h, base, path, logicals).1
  {
    hide Overwrite, Rehash, SetChildHash, HashOf;
    assert path != [] && AllInRange(path, |base|);
    hide RootedPath;
    out := pages;
    OverwriteNone(base, path, logicals);
    for d := 0 to |path|
      invariant Reads(out, Overwrite(base, path, logicals, d), pages.Keys)
    {
      OverwriteNext(base, path, logicals, d, out);
      out := out[path[d] := out[path[d]].(logical := logicals[d])];
    }
    ghost var stale := Overwrite(base, path, logicals, |path|);
    root := NO_CHILD;
    for d := |path| downto 0
      invariant Reads(out, if d == |path| then stale else Rehash(h, stale, path, d).0, pages.Keys)
      invariant d < |path| ==> root == Rehash(h, stale, path, d).1
    {
      RehashNext(h, stale, path, d, out, root);
      if d + 1 < |path| {
        out := out[path[d] := SetChildHash(out[path[d]], path[d], path[d + 1], root)];
      }
      root := HashOf(h, path[d], out[path[d]]);
    }
  }

  lemma OverwriteNone<L>(base: seq<Page<L>>, path: seq<nat>, logicals: seq<L>)
    requires |logicals| == |path| && AllInRange(path, |base|)
    ensures Overwrite(base, path, logicals, 0) == base
  {
  }

  /** Writing the next content to an overlay of the overwritten pages. */
  lemma OverwriteNext<L>(base: seq<Page<L>>, path: seq<nat>, logicals: seq<L>, d: nat, out: map<nat, Page<L>>)
    requires |logicals| == |path| && d < |path| && AllInRange(path, |base|) && path[d] in out
    requires Reads(out, Overwrite(base, path, logicals, d), out.Keys)
    ensures Reads(out[path[d] := out[path[d]].(logical := logicals[d])], Overwrite(base, path, logicals, d + 1),
                  out.Keys)
  {
  }

  /** Recomputing the next digest, towards the root, on an overlay of the pages recomputed so far. */
  lemma RehashNext<L>(h: PageHash<L>, stale: seq<Page<L>>, path: seq<nat>, d: nat, out: map<nat, Page<L>>, root: Hash)
    requires d < |path| && AllInRange(path, |stale|) && path[d] in out
    requires Reads(out, if d + 1 == |path| then stale else Rehash(h, stale, path, d + 1).0, out.Keys)
    requires d + 1 < |path| ==> root == Rehash(h, stale, path, d + 1).1
    ensures var page := if d + 1 < |path| then SetChildHash(out[path[d]], path[d], path[d + 1], root) else out[path[d]];
            && Reads(out[path[d] := page], Rehash(h, stale, path, d).0, out.Keys)
            && HashOf(h, path[d], page) == Rehash(h, stale, path, d).1
  {
    hide SetChildHash, HashOf;
    if d + 1 == |path| {
      assert out[path[d] := out[path[d]]] == out;
    }
  }

  function SetOf(path: seq<nat>): (r: set<nat>)
    ensures forall n :: n in r <==> n in path
  {
    set n | n in path
  }

  lemma TouchedSnoc(paths: seq<seq<nat>>, i: nat)
    requires i < |paths|
    ensures forall n: nat :: Touched(paths[..i + 1], n) <==> Touched(paths[..i], n) || n in paths[i]
  {
    forall n: nat {:trigger Touched(paths[..i], n)}
      ensures Touched(paths[..i + 1], n) <==> Touched(paths[..i], n) || n in paths[i]
    {
      TouchedSnocAt(paths, i, n);
    }
  }

  lemma NothingTouched(paths: seq<seq<nat>>)
    ensures forall n: nat :: !Touched(paths[..0], n)
  {
  }

  lemma TouchedSnocAt(paths: seq<seq<nat>>, i: nat, n: nat)
    requires i < |paths|
    ensures Touched(paths[..i + 1], n) <==> Touched(paths[..i], n) || n in paths[i]
  {
    var some, more := paths[..i], paths[..i + 1];
    if k :| 0 <= k < |more| && n in more[k] {
      if k < i { assert n in some[k]; }
    }
    if k :| 0 <= k < |some| && n in some[k] {
      assert n in more[k];
    }
    if n in paths[i] {
      assert n in more[i];
    }
  }

  function LogicalsOf<L>(pages: seq<Page<L>>): (r: seq<L>)
    ensures |r| == |pages| && forall n :: 0 <= n < |r| ==> r[n] == pages[n].logical
  {
    seq(|pages|, n requires 0 <= n < |pages| => pages[n].logical)
  }

  lemma LogicalsOfRef<L>(h: PageHash<L>, logicals: seq<L>)
    ensures LogicalsOf(RefPages(h, logicals)) == logicals
  {
    hide SubtreeHash;
  }

  lemma ReadIsAuthentic<L>(h: PageHash<L>, logicals: seq<L>, pages: seq<Page<L>>, paths: seq<seq<nat>>)
    requires |pages| == |logicals| && Accepts(h, pages, SubtreeHash(h, logicals, 0), paths)
    ensures (forall i :: 0 <= i < |paths| ==> ReadAll(LogicalsOf(pages), paths[i]) == ReadAll(logicals, paths[i]))
            || CollisionIn(h, logicals, PagesOf(pages, paths))
  {
    hide SubtreeHash, PathVerified;
    AcceptedIsAuthentic(h, logicals, pages, paths);
  }

  lemma WroteTouched<L>(before: seq<Page<L>>, updated: seq<Page<L>>, after: seq<Page<L>>, indices: seq<nat>,
                        paths: seq<seq<nat>>)
    requires |before| == |updated| == |after|
    requires forall n: nat :: n in indices <==> Touched(paths, n)
    requires forall n :: 0 <= n < |before| ==> after[n] == if n in indices then updated[n] else before[n]
    ensures after == WriteTouched(before, updated, paths)
  {
  }

  /** An accepted read covers every page of its paths. */
  lemma AcceptedCovered<L>(h: PageHash<L>, pages: seq<Page<L>>, root: Hash, paths: seq<seq<nat>>)
    requires Accepts(h, pages, root, paths)
    ensures forall i :: 0 <= i < |paths| ==> OnPath(paths[i], PagesOf(pages, paths).Keys)
  {
    forall i, d | 0 <= i < |paths| && 0 <= d < |paths[i]|
      ensures paths[i][d] in PagesOf(pages, paths)
    {
      assert paths[i][d] in paths[i];
    }
  }

  /** Fills in all child digests, last page first, and returns the root digest. */
  method EmbedHashes<L>(pages: array<Page<L>>, hash: PageHash<L>) returns (root: Hash)
    requires pages.Length > 0
    modifies pages
    ensures pages[..] == RefPages(hash, LogicalsOf(old(pages[..])))
    ensures root == SubtreeHash(hash, LogicalsOf(old(pages[..])), 0)
  {
    hide SubtreeHash, RefPage;
    var n := pages.Length;
    ghost var logicals := LogicalsOf(pages[..]);
    var hashes := new Hash[n](_ => NO_CHILD);
    for i := n downto 0
      invariant forall k :: 0 <= k < i ==> pages[k].logical == logicals[k]
      invariant forall k :: i <= k < n ==> pages[k] == RefPage(hash, logicals, k)
      invariant forall k :: i <= k < n ==> hashes[k] == SubtreeHash(hash, logicals, k)
    {
      var left := if LeftChild(i) < n then hashes[LeftChild(i)] else NO_CHILD;
      var right := if RightChild(i) < n then hashes[RightChild(i)] else NO_CHILD;
      EmbeddedPage(hash, logicals, i);
      pages[i] := Page(pages[i].logical, left, right);
      hashes[i] := HashOf(hash, i, pages[i]);
    }
    root := hashes[0];
  }

  lemma EmbeddedPage<L>(h: PageHash<L>, logicals: seq<L>, n: nat)
    requires n < |logicals|
    ensures RefPage(h, logicals, n) ==
            Page(logicals[n],
              if LeftChild(n) < |logicals| then SubtreeHash(h, logicals, LeftChild(n)) else NO_CHILD,
              if RightChild(n) < |logicals| then SubtreeHash(h, logicals, RightChild(n)) else NO_CHILD)
    ensures HashOf(h, n, RefPage(h, logicals, n)) == SubtreeHash(h, logicals, n)
  {
  }

  class EmbeddedTreePageStore<L> {
    const inner: MemPageStore<Page<L>>
    const hash: PageHash<L>
    var rootHash: Hash
    var cache: Option<VerifiedCache<L>>

    /** A cache, when there is one, was verified under the current root. Nothing is said about the
        pages of the inner store. */
    ghost predicate Valid()
      reads this
    {
      cache.Some? ==>
        && cache.value.root == rootHash
        && VerifiedSet(hash, cache.value.pages, cache.value.root)
        && forall n :: n in cache.value.pages ==> n < inner.pages.Length
    }

    function Logicals(): seq<L>
      reads inner.pages
    {
      LogicalsOf(inner.pages[..])
    }

    /** Store and root are those of a fresh build over the logical pages. */
    ghost predicate Honest()
      reads this, inner.pages
    {
      inner.pages[..] == RefPages(hash, Logicals()) && rootHash == SubtreeHash(hash, Logicals(), 0)
    }

    /** The inner store still holds what the cache was filled from. */
    ghost predicate Fresh()
      reads this, inner.pages
    {
      CacheFresh(hash, inner.pages[..], cache)
    }

    constructor (inner: MemPageStore<Page<L>>, hash: PageHash<L>, rootHash: Hash)
      ensures this.inner == inner && this.hash == hash && this.rootHash == rootHash && cache == None
      ensures Valid()
    {
      this.inner := inner;
      this.hash := hash;
      this.rootHash := rootHash;
      this.cache := None;
    }

    /** Embeds child digests over the current logical contents; stored digests are ignored. */
    static method Build(inner: MemPageStore<Page<L>>, hash: PageHash<L>) returns (r: Result<EmbeddedTreePageStore<L>>)
      modifies inner.pages
      ensures r.Ok? <==> inner.pages.Length > 0
      ensures r.Ok? ==> fresh(r.value) && r.value.inner == inner && r.value.hash == hash && r.value.cache == None
      ensures r.Ok? ==> r.value.Valid() && r.value.Honest() && r.value.Logicals() == LogicalsOf(old(inner.pages[..]))
      ensures r.Err? ==> inner.pages[..] == old(inner.pages[..])
    {
      hide SubtreeHash, RefPage;
      var n := inner.pages.Length;
      if n == 0 {
        return Err(InvalidInput);
      }
      var pages := new Page<L>[n](i requires 0 <= i < n reads inner.pages => inner.pages[i]);
      ghost var logicals := LogicalsOf(inner.pages[..]);
      assert LogicalsOf(pages[..]) == logicals;
      var root := EmbedHashes(pages, hash);
      LogicalsOfRef(hash, logicals);
      for i := 0 to n
        invariant forall k :: 0 <= k < i ==> inner.pages[k] == RefPage(hash, logicals, k)
        invariant pages[..] == RefPages(hash, logicals)
      {
        var w := inner.WritePage(i, pages[i]);
      }
      assert inner.pages[..] == RefPages(hash, logicals);
      var store := new EmbeddedTreePageStore(inner, hash, root);
      return Ok(store);
    }

    method ReadVerifiedPaths(paths: seq<seq<nat>>) returns (r: Result<map<nat, Page<L>>>)
      ensures r.Ok? <==> Accepts(hash, inner.pages[..], rootHash, paths)
      ensures r.Ok? ==> r.value == PagesOf(inner.pages[..], paths)
    {
      hide PathVerified;
      if paths == [] {
        assert PagesOf(inner.pages[..], paths) == map[];
        return Ok(map[]);
      }
      var listed: set<nat> := {};
      for i := 0 to |paths|
        invariant AllRooted(paths[..i], inner.pages.Length)
        invariant forall n: nat :: n in listed <==> Touched(paths[..i], n)
        invariant forall n :: n in listed ==> n < inner.pages.Length
      {
        var v := ValidatePath(paths[i], inner.pages.Length);
        if v.Err? {
          return Err(v.error);
        }
        listed := listed + SetOf(paths[i]);
        TouchedSnoc(paths, i);
      }
      assert paths[..|paths|] == paths;
      var indices := Ascending(listed, inner.pages.Length);
      var read := inner.ReadPages(indices);
      var pages: map<nat, Page<L>> := map[];
      for k := 0 to |indices|
        invariant pages.Keys == SetOf(indices[..k])
        invariant forall n :: n in pages ==> n < inner.pages.Length && pages[n] == inner.pages[n]
      {
        pages := pages[indices[k] := read.value[k]];
      }
      assert indices[..|indices|] == indices;
      assert pages == PagesOf(inner.pages[..], paths);
      var v := VerifyPaths(paths, pages);
      if v.Err? {
        return Err(v.error);
      }
      return Ok(pages);
    }

    /** Verifies every path against the pages read. */
    method VerifyPaths(paths: seq<seq<nat>>, pages: map<nat, Page<L>>) returns (r: Result<()>)
      requires AllRooted(paths, inner.pages.Length) && pages == PagesOf(inner.pages[..], paths)
      ensures r.Ok? <==> Accepts(hash, inner.pages[..], rootHash, paths)
    {
      hide PathVerified;
      for i := 0 to |paths|
        invariant forall k :: 0 <= k < i ==> PathVerified(hash, inner.pages[..], rootHash, paths[k])
      {
        forall d | 0 <= d < |paths[i]|
          ensures paths[i][d] in pages
        {
          assert paths[i][d] in paths[i];
          assert Touched(paths, paths[i][d]);
        }
        var v := VerifyPathFromPages(paths[i], pages, hash, rootHash, inner.pages[..]);
        if v.Err? {
          return Err(v.error);
        }
      }
      return Ok(());
    }

    /** Reads and verifies several paths. Under the root of any reference tree, whatever the inner
        store holds, the result is the reference contents or two inputs with one digest are shown. */
    method ReadPaths(paths: seq<seq<nat>>) returns (r: Result<seq<seq<L>>>)
      requires Valid()
      modifies this`cache
      ensures Valid() && (old(Fresh()) ==> Fresh())
      ensures r.Ok? <==> Accepts(hash, inner.pages[..], rootHash, paths)
      ensures cache == if r.Ok? then Some(VerifiedCache(rootHash, PagesOf(inner.pages[..], paths))) else old(cache)
      ensures r.Ok? ==>
                && |r.value| == |paths|
                && forall i :: 0 <= i < |paths| ==>
                     AllInRange(paths[i], inner.pages.Length) &&
                     r.value[i] == ReadAll(LogicalsOf(inner.pages[..]), paths[i])
      ensures r.Ok? ==> forall logicals ::
                |logicals| == inner.pages.Length && rootHash == SubtreeHash(hash, logicals, 0) ==>
                  || (forall i :: 0 <= i < |paths| ==> r.value[i] == ReadAll(logicals, paths[i]))
                  || CollisionIn(hash, logicals, PagesOf(inner.pages[..], paths))
    {
      var read := ReadVerifiedPaths(paths);
      if read.Err? {
        return Err(read.error);
      }
      var pages := read.value;
      var out := [];
      for i := 0 to |paths|
        invariant |out| == i
        invariant forall k :: 0 <= k < i ==> out[k] == ReadAll(LogicalsOf(inner.pages[..]), paths[k])
      {
        var contents := [];
        for d := 0 to |paths[i]|
          invariant |contents| == d
          invariant forall e :: 0 <= e < d ==> contents[e] == inner.pages[paths[i][e]].logical
        {
          assert paths[i][d] in paths[i];
          contents := contents + [pages[paths[i][d]].logical];
        }
        out := out + [contents];
      }
      AcceptedVerified(hash, inner.pages[..], rootHash, paths);
      cache := Some(VerifiedCache(rootHash, pages));
      forall logicals | |logicals| == inner.pages.Length && rootHash == SubtreeHash(hash, logicals, 0)
        ensures (forall i :: 0 <= i < |paths| ==> out[i] == ReadAll(logicals, paths[i]))
                || CollisionIn(hash, logicals, PagesOf(inner.pages[..], paths))
      {
        ReadIsAuthentic(hash, logicals, inner.pages[..], paths);
      }
      return Ok(out);
    }

    /** The update loop of a batch on the overlay, then the write of the dirty pages. */
    method ApplyPaths(paths: seq<seq<nat>>, contents: seq<seq<L>>, read: map<nat, Page<L>>, ghost base: seq<Page<L>>)
      returns (r: Result<()>)
      requires |contents| == |paths| && paths != [] && |base| == inner.pages.Length
      requires Reads(read, base, read.Keys)
      requires forall i :: 0 <= i < |paths| ==> OnPath(paths[i], read.Keys)
      modifies this`rootHash, inner.pages
      ensures var good := GoodPaths(paths, contents, |base|, 0);
              && (r.Ok? <==> good == |paths|)
              && rootHash == UpdateAll(hash, base, old(rootHash), paths, contents, good).1
              && inner.pages[..] == if r.Ok?
                                    then WriteTouched(old(inner.pages[..]),
                                                      UpdateAll(hash, base, old(rootHash), paths, contents, good).0,
                                                      paths)
                                    else old(inner.pages[..])
    {
      hide Touched, UpdatePath, RootedPath;
      ghost var n := |base|;
      var pages := read;
      var dirty: set<nat> := {};
      NothingTouched(paths);
      for i := 0 to |paths|
        invariant WellFormedWrite(paths, contents, n, i)
        invariant GoodPaths(paths, contents, n, 0) == GoodPaths(paths, contents, n, i)
        invariant Reads(pages, UpdateAll(hash, base, old(rootHash), paths, contents, i).0, read.Keys)
        invariant rootHash == UpdateAll(hash, base, old(rootHash), paths, contents, i).1
        invariant inner.pages[..] == old(inner.pages[..])
        invariant forall n: nat :: n in dirty <==> Touched(paths[..i], n)
        invariant dirty <= read.Keys
      {
        if |paths[i]| != |contents[i]| {
          return Err(InvalidInput);
        }
        var v := ValidatePath(paths[i], inner.pages.Length);
        if v.Err? {
          return Err(v.error);
        }
        pages, rootHash := UpdatePathPages(paths[i], contents[i], pages, hash,
          UpdateAll(hash, base, old(rootHash), paths, contents, i).0);
        dirty := dirty + SetOf(paths[i]);
        TouchedSnoc(paths, i);
      }
      assert paths[..|paths|] == paths;
      WriteDirty(pages, dirty, UpdateAll(hash, base, old(rootHash), paths, contents, |paths|).0, paths);
      return Ok(());
    }

    method WriteDirty(pages: map<nat, Page<L>>, dirty: set<nat>, ghost updated: seq<Page<L>>,
                      ghost paths: seq<seq<nat>>)
      requires |updated| == inner.pages.Length && Reads(pages, updated, pages.Keys) && dirty <= pages.Keys
      requires forall n: nat :: n in dirty <==> Touched(paths, n)
      modifies inner.pages
      ensures inner.pages[..] == WriteTouched(old(inner.pages[..]), updated, paths)
    {
      hide Touched;
      var indices := Ascending(dirty, inner.pages.Length);
      var physical: seq<Page<L>> := [];
      for k := 0 to |indices|
        invariant |physical| == k
        invariant forall l :: 0 <= l < k ==> physical[l] == updated[indices[l]]
      {
        physical := physical + [pages[indices[k]]];
      }
      WritePathFrame(inner.pages[..], indices, physical, |indices|);
      var w := inner.WritePages(indices, physical);
      assert indices[..|indices|] == indices;
      WroteTouched(old(inner.pages[..]), updated, inner.pages[..], indices, paths);
    }

    method CacheCoversPaths(pages: map<nat, Page<L>>, paths: seq<seq<nat>>) returns (covers: bool)
      ensures covers <==> forall i, d :: 0 <= i < |paths| && 0 <= d < |paths[i]| ==> paths[i][d] in pages
    {
      for i := 0 to |paths|
        invariant forall k, d :: 0 <= k < i && 0 <= d < |paths[k]| ==> paths[k][d] in pages
      {
        for d := 0 to |paths[i]|
          invariant forall e :: 0 <= e < d ==> paths[i][e] in pages
        {
          if paths[i][d] !in pages {
            return false;
          }
        }
      }
      return true;
    }

    /** Batched update of overlapping paths. The whole outcome, failures included, is `WriteOutcome`;
        over an honest store it is what a fresh build over the new logical pages would store. */
    method WritePaths(paths: seq<seq<nat>>, contents: seq<seq<L>>) returns (r: Result<()>)
      requires Valid()
      modifies this`cache, this`rootHash, inner.pages
      ensures Valid()
      ensures Outcome(r.Ok?, inner.pages[..], rootHash) ==
              WriteOutcome(hash, old(inner.pages[..]), old(cache), old(rootHash), paths, contents)
      ensures cache == if |paths| != |contents| || paths == [] then old(cache) else None
      ensures old(Honest() && Fresh()) ==>
                && (r.Ok? <==> |contents| == |paths| && WellFormedWrite(paths, contents, inner.pages.Length, |paths|))
                && (r.Ok? ==> Honest() && Logicals() == LogicalAfter(old(Logicals()), paths, contents, |paths|))
    {
      hide Accepts, WriteOutcome, SubtreeHash, RefPage, UpdateAll, LogicalAfter, WellFormedWrite, VerifiedSet;
      if Honest() && Fresh() {
        WriteEqualsRebuild(hash, Logicals(), cache, paths, contents);
        if |contents| == |paths| && WellFormedWrite(paths, contents, inner.pages.Length, |paths|) {
          LogicalsOfRef(hash, LogicalAfter(Logicals(), paths, contents, |paths|));
        }
      }
      r := UpdatePaths(paths, contents);
    }

    method UpdatePaths(paths: seq<seq<nat>>, contents: seq<seq<L>>) returns (r: Result<()>)
      requires Valid()
      modifies this`cache, this`rootHash, inner.pages
      ensures Valid()
      ensures Outcome(r.Ok?, inner.pages[..], rootHash) ==
              WriteOutcome(hash, old(inner.pages[..]), old(cache), old(rootHash), paths, contents)
      ensures cache == if |paths| != |contents| || paths == [] then old(cache) else None
    {
      hide SubtreeHash, UpdateAll, UpdatePath, GoodPaths, VerifiedSet, PathVerified;
      if |paths| != |contents| {
        return Err(InvalidInput);
      }
      if paths == [] {
        return Ok(());
      }
      ghost var base := WriteBase(inner.pages[..], cache, rootHash, paths);
      var taken := cache;
      cache := None;
      var useCache := taken.Some? && taken.value.root == rootHash;
      if useCache {
        useCache := CacheCoversPaths(taken.value.pages, paths);
      }
      var pages: map<nat, Page<L>>;
      if useCache {
        pages := taken.value.pages;
      } else {
        var read := ReadVerifiedPaths(paths);
        if read.Err? {
          return Err(read.error);
        }
        pages := read.value;
        AcceptedCovered(hash, inner.pages[..], rootHash, paths);
      }
      assert Reads(pages, base, pages.Keys);
      r := ApplyPaths(paths, contents, pages, base);
    }
  }
}
