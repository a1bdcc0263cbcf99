/** The page overlay of a batch: every page of every path, read once, updated in memory, written
    back once (src/circuit.rs, overlay_path_pages and collect_overlay_paths). */
module PathOverlay {
  import opened Common
  import opened PageStores

  /** The overlay shows exactly the listed pages, as the store has them. */
  ghost predicate Mirrors<P>(overlay: map<nat, P>, paths: seq<seq<nat>>, pages: seq<P>) {
    && (forall n :: n in overlay ==> n < |pages| && overlay[n] == pages[n])
    && (forall i :: 0 <= i < |paths| ==> Covered(overlay, paths[i]))
  }

  ghost predicate Covered<P>(overlay: map<nat, P>, path: seq<nat>) {
    forall d :: 0 <= d < |path| ==> path[d] in overlay
  }

  ghost predicate OnlyListed<P>(overlay: map<nat, P>, paths: seq<seq<nat>>) {
    forall n :: n in overlay ==> exists i :: 0 <= i < |paths| && n in paths[i]
  }

  /** One page per listed position, each of the store's page size. */
  ghost predicate PagesFit<T>(paths: seq<seq<nat>>, pathPages: seq<seq<seq<T>>>, pageSize: nat) {
    && |pathPages| == |paths|
    && forall i :: 0 <= i < |paths| ==> PathFits(paths[i], pathPages[i], pageSize)
  }

  ghost predicate PathFits<T>(path: seq<nat>, pages: seq<seq<T>>, pageSize: nat) {
    |pages| == |path| && forall d :: 0 <= d < |pages| ==> |pages[d]| == pageSize
  }

  ghost predicate Listed<P>(paths: seq<seq<nat>>, pathPages: seq<seq<P>>, i: int, d: int) {
    0 <= i < |paths| && i < |pathPages| && 0 <= d < |paths[i]| && d < |pathPages[i]|
  }

  /** Page `n` was read as `page` at some listed position. */
  ghost predicate ReadAs<P>(paths: seq<seq<nat>>, pathPages: seq<seq<P>>, n: nat, page: P) {
    exists i, d :: Listed(paths, pathPages, i, d) && paths[i][d] == n && pathPages[i][d] == page
  }

  /** No page was read with two contents. */
  ghost predicate Consistent<P>(paths: seq<seq<nat>>, pathPages: seq<seq<P>>) {
    forall i, d, j, e {:trigger pathPages[i][d], pathPages[j][e]} ::
      Listed(paths, pathPages, i, d) && Listed(paths, pathPages, j, e) && paths[i][d] == paths[j][e] ==>
        pathPages[i][d] == pathPages[j][e]
  }

  /** Joins path reads into one overlay: fails exactly on pages of wrong number or size and on two
      contents for one page. */
  method OverlayPathPages<T(==)>(paths: seq<seq<nat>>, pathPages: seq<seq<seq<T>>>, pageSize: nat)
    returns (r: Result<map<nat, seq<T>>>)
    ensures r.Ok? <==> PagesFit(paths, pathPages, pageSize) && Consistent(paths, pathPages)
    ensures r.Ok? ==> Shows(r.value, paths, pathPages) && OnlyListed(r.value, paths)
  {
    if |paths| != |pathPages| {
      return Err(InvalidInput);
    }
    var overlay: map<nat, seq<T>> := map[];
    for i := 0 to |paths|
      invariant forall k :: 0 <= k < i ==> PathFits(paths[k], pathPages[k], pageSize)
      invariant forall k :: 0 <= k < i ==> ShowsPath(overlay, paths[k], pathPages[k])
      invariant forall n :: n in overlay ==> ReadAs(paths, pathPages, n, overlay[n])
    {
      if |paths[i]| != |pathPages[i]| {
        return Err(InvalidInput);
      }
      for d := 0 to |paths[i]|
        invariant forall e :: 0 <= e < d ==> |pathPages[i][e]| == pageSize
        invariant forall k :: 0 <= k < i ==> ShowsPath(overlay, paths[k], pathPages[k])
        invariant ShowsPath(overlay, paths[i][..d], pathPages[i][..d])
        invariant forall n :: n in overlay ==> ReadAs(paths, pathPages, n, overlay[n])
      {
        var pageIdx, page := paths[i][d], pathPages[i][d];
        assert Listed(paths, pathPages, i, d) && ReadAs(paths, pathPages, pageIdx, page);
        if |page| != pageSize {
          return Err(InvalidInput);
        }
        if pageIdx in overlay {
          if overlay[pageIdx] != page {
            ghost var j, e :| Listed(paths, pathPages, j, e) && paths[j][e] == pageIdx &&
              pathPages[j][e] == overlay[pageIdx];
            assert Listed(paths, pathPages, i, d) && pathPages[i][d] != pathPages[j][e];
            return Err(InvalidInput);
          }
        } else {
          overlay := overlay[pageIdx := page];
        }
      }
      assert paths[i][..|paths[i]|] == paths[i] && pathPages[i][..|paths[i]|] == pathPages[i];
    }
    ShownOnce(overlay, paths, pathPages);
    return Ok(overlay);
  }

  /** An overlay that shows every read and nothing else settles both conditions. */
  lemma ShownOnce<P>(overlay: map<nat, P>, paths: seq<seq<nat>>, pathPages: seq<seq<P>>)
    requires Shows(overlay, paths, pathPages)
    requires forall n :: n in overlay ==> ReadAs(paths, pathPages, n, overlay[n])
    ensures Consistent(paths, pathPages) && OnlyListed(overlay, paths)
  {
    forall i, d | Listed(paths, pathPages, i, d)
      ensures paths[i][d] in overlay && overlay[paths[i][d]] == pathPages[i][d]
    {
      assert ShowsPath(overlay, paths[i], pathPages[i]);
    }
    forall n | n in overlay
      ensures exists i :: 0 <= i < |paths| && n in paths[i]
    {
      var i, d :| Listed(paths, pathPages, i, d) && paths[i][d] == n && pathPages[i][d] == overlay[n];
    }
  }

  /** Reads of an unchanged store fit and never disagree. */
  lemma StoreReadsAgree<T>(pages: seq<seq<T>>, paths: seq<seq<nat>>, pathPages: seq<seq<seq<T>>>, pageSize: nat)
    requires |pathPages| == |paths| && forall n :: 0 <= n < |pages| ==> |pages[n]| == pageSize
    requires forall i :: 0 <= i < |paths| ==> AllInRange(paths[i], |pages|) && pathPages[i] == ReadAll(pages, paths[i])
    ensures PagesFit(paths, pathPages, pageSize) && Consistent(paths, pathPages)
  {
    forall i, d | Listed(paths, pathPages, i, d)
      ensures paths[i][d] < |pages| && pathPages[i][d] == pages[paths[i][d]]
    {
    }
  }

  lemma ReadsMirrorStore<P>(pages: seq<P>, paths: seq<seq<nat>>, pathPages: seq<seq<P>>, overlay: map<nat, P>)
    requires |pathPages| == |paths| && Shows(overlay, paths, pathPages) && OnlyListed(overlay, paths)
    requires forall i :: 0 <= i < |paths| ==> AllInRange(paths[i], |pages|) && pathPages[i] == ReadAll(pages, paths[i])
    ensures Mirrors(overlay, paths, pages)
  {
    forall n | n in overlay
      ensures n < |pages| && overlay[n] == pages[n]
    {
      var i :| 0 <= i < |paths| && n in paths[i];
      assert ShowsPath(overlay, paths[i], pathPages[i]);
      var d :| 0 <= d < |paths[i]| && paths[i][d] == n;
    }
    forall i | 0 <= i < |paths|
      ensures Covered(overlay, paths[i])
    {
      assert ShowsPath(overlay, paths[i], pathPages[i]);
    }
  }

  method CollectOverlayPaths<P>(paths: seq<seq<nat>>, overlay: map<nat, P>) returns (r: Result<seq<seq<P>>>)
    ensures r.Ok? <==> forall i :: 0 <= i < |paths| ==> Covered(overlay, paths[i])
    ensures r.Ok? ==> Shows(overlay, paths, r.value)
  {
    var out: seq<seq<P>> := [];
    for i := 0 to |paths|
      invariant |out| == i
      invariant forall k :: 0 <= k < i ==> Covered(overlay, paths[k]) && ShowsPath(overlay, paths[k], out[k])
    {
      var pages: seq<P> := [];
      for d := 0 to |paths[i]|
        invariant |pages| == d
        invariant forall e :: 0 <= e < d ==> paths[i][e] in overlay && pages[e] == overlay[paths[i][e]]
      {
        if paths[i][d] !in overlay {
          assert !Covered(overlay, paths[i]);
          return Err(InvalidInput);
        }
        pages := pages + [overlay[paths[i][d]]];
      }
      out := out + [pages];
    }
    return Ok(out);
  }

  /** `contents` lists, path by path, what the overlay shows. */
  ghost predicate Shows<P>(overlay: map<nat, P>, paths: seq<seq<nat>>, contents: seq<seq<P>>) {
    && |contents| == |paths|
    && forall i :: 0 <= i < |paths| ==> ShowsPath(overlay, paths[i], contents[i])
  }

  ghost predicate ShowsPath<P>(overlay: map<nat, P>, path: seq<nat>, content: seq<P>) {
    && |content| == |path|
    && forall d :: 0 <= d < |path| ==> path[d] in overlay && content[d] == overlay[path[d]]
  }

  lemma {:induction false} ConcatShows<P>(overlay: map<nat, P>, paths: seq<seq<nat>>, contents: seq<seq<P>>)
    requires Shows(overlay, paths, contents)
    ensures ShowsPath(overlay, Concat(paths), Concat(contents))
  {
    if paths != [] {
      ConcatShows(overlay, paths[1..], contents[1..]);
      assert ShowsPath(overlay, paths[0], contents[0]);
    }
  }

  ghost function ContentOf<P>(overlay: map<nat, P>, other: P): nat -> P {
    n => if n in overlay then overlay[n] else other
  }

  /** Writing the overlay back along all paths leaves every listed page as the overlay shows it and
      every other page as it was. */
  lemma WriteBack<P>(pages: seq<P>, paths: seq<seq<nat>>, contents: seq<seq<P>>, overlay: map<nat, P>)
    requires AllInRange(Concat(paths), |pages|) && Shows(overlay, paths, contents)
    requires OnlyListed(overlay, paths)
    ensures |Concat(contents)| == |Concat(paths)|
    ensures forall n :: 0 <= n < |pages| ==>
              WriteAll(pages, Concat(paths), Concat(contents), |Concat(paths)|)[n] ==
              if n in overlay then overlay[n] else pages[n]
  {
    hide WriteAll, Concat;
    ConcatShows(overlay, paths, contents);
    WriteShown(pages, Concat(paths), Concat(contents), overlay);
    hide Shows, OnlyListed, AllInRange;
    forall n | 0 <= n < |pages|
      ensures n in Concat(paths) <==> n in overlay
    {
      ListedPage(overlay, paths, contents, n);
    }
  }

  lemma ListedPage<P>(overlay: map<nat, P>, paths: seq<seq<nat>>, contents: seq<seq<P>>, n: nat)
    requires Shows(overlay, paths, contents) && OnlyListed(overlay, paths)
    ensures n in Concat(paths) <==> n in overlay
  {
    hide Concat;
    ConcatMember(paths, n);
    if i :| 0 <= i < |paths| && n in paths[i] {
      assert ShowsPath(overlay, paths[i], contents[i]);
    }
  }

  lemma WriteShown<P>(pages: seq<P>, indices: seq<nat>, contents: seq<P>, overlay: map<nat, P>)
    requires AllInRange(indices, |pages|) && ShowsPath(overlay, indices, contents)
    ensures forall n :: 0 <= n < |pages| ==>
              WriteAll(pages, indices, contents, |indices|)[n] == if n in indices then overlay[n] else pages[n]
  {
    if |indices| > 0 {
      WriteConsistent(pages, indices, contents, |indices|, ContentOf(overlay, contents[0]));
      assert indices[..|indices|] == indices;
    }
  }
}
