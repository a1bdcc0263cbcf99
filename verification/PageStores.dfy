/** Page stores: the plain in-memory store and the path-level adapter over it (src/store.rs).

    A page is an opaque value of type `P`; a store is an array of pages. */
module PageStores {
  import opened Common

  /** The pages named by `indices`, in the caller's order. */
  function ReadAll<P>(pages: seq<P>, indices: seq<nat>): (r: seq<P>)
    requires forall k :: 0 <= k < |indices| ==> indices[k] < |pages|
    ensures |r| == |indices|
    ensures forall k :: 0 <= k < |indices| ==> r[k] == pages[indices[k]]
  {
    seq(|indices|, k requires 0 <= k < |indices| => pages[indices[k]])
  }

  /** The store after the first `k` writes, one by one in the caller's order. */
  function WriteAll<P>(pages: seq<P>, indices: seq<nat>, contents: seq<P>, k: nat): (after: seq<P>)
    requires |contents| == |indices| && k <= |indices|
    requires forall i :: 0 <= i < |indices| ==> indices[i] < |pages|
    ensures |after| == |pages|
  {
    if k == 0 then pages else WriteAll(pages, indices, contents, k - 1)[indices[k - 1] := contents[k - 1]]
  }

  /** `path` lists distinct pages of a store with `n` pages. */
  ghost predicate DistinctPath(path: seq<nat>, n: nat) {
    && (forall d :: 0 <= d < |path| ==> path[d] < n)
    && (forall d, e :: 0 <= d < e < |path| ==> path[d] != path[e])
  }

  /** A path write changes exactly the pages it lists. */
  lemma {:induction false} WritePathFrame<T>(tree: seq<T>, path: seq<nat>, pages: seq<T>, k: nat)
    requires |pages| == |path| && k <= |path| && DistinctPath(path, |tree|)
    ensures forall d :: 0 <= d < k ==> WriteAll(tree, path, pages, k)[path[d]] == pages[d]
    ensures forall n :: 0 <= n < |tree| && n !in path[..k] ==> WriteAll(tree, path, pages, k)[n] == tree[n]
  {
    if k > 0 {
      WritePathFrame(tree, path, pages, k - 1);
      assert path[..k] == path[..k - 1] + [path[k - 1]];
    }
  }

  predicate AllInRange(indices: seq<nat>, n: nat) {
    forall k :: 0 <= k < |indices| ==> indices[k] < n
  }

  /** Writes that agree on repeated pages leave each written page with its agreed content. */
  lemma {:induction false} WriteConsistent<P>(pages: seq<P>, indices: seq<nat>, contents: seq<P>, k: nat,
                                             content: nat -> P)
    requires |contents| == |indices| && k <= |indices| && AllInRange(indices, |pages|)
    requires forall i :: 0 <= i < |indices| ==> contents[i] == content(indices[i])
    ensures forall n :: 0 <= n < |pages| ==>
              WriteAll(pages, indices, contents, k)[n] == if n in indices[..k] then content(n) else pages[n]
  {
    if k > 0 {
      WriteConsistent(pages, indices, contents, k - 1, content);
      assert indices[..k] == indices[..k - 1] + [indices[k - 1]];
    }
  }

  lemma {:induction false} WriteAppend<P>(pages: seq<P>, indices: seq<nat>, contents: seq<P>, more: seq<nat>,
                                          moreContents: seq<P>, k: nat)
    requires |contents| == |indices| && |moreContents| == |more| && k <= |more|
    requires AllInRange(indices, |pages|) && AllInRange(more, |pages|)
    ensures AllInRange(indices + more, |pages|)
    ensures WriteAll(pages, indices + more, contents + moreContents, |indices| + k) ==
            WriteAll(WriteAll(pages, indices, contents, |indices|), more, moreContents, k)
    decreases k
  {
    if k == 0 {
      WritePrefix(pages, indices, contents, more, moreContents, |indices|);
    } else {
      WriteAppend(pages, indices, contents, more, moreContents, k - 1);
    }
  }

  lemma {:induction false} WritePrefix<P>(pages: seq<P>, indices: seq<nat>, contents: seq<P>, more: seq<nat>,
                                          moreContents: seq<P>, k: nat)
    requires |contents| == |indices| && |moreContents| == |more| && k <= |indices|
    requires AllInRange(indices, |pages|) && AllInRange(more, |pages|)
    ensures AllInRange(indices + more, |pages|)
    ensures WriteAll(pages, indices + more, contents + moreContents, k) == WriteAll(pages, indices, contents, k)
    decreases k
  {
    if k > 0 {
      WritePrefix(pages, indices, contents, more, moreContents, k - 1);
    }
  }

  function Concat<T>(lists: seq<seq<T>>): seq<T> {
    if lists == [] then [] else lists[0] + Concat(lists[1..])
  }

  lemma {:induction false} ConcatSnoc<T>(lists: seq<seq<T>>, last: seq<T>)
    ensures Concat(lists + [last]) == Concat(lists) + last
  {
    if lists == [] {
      assert lists + [last] == [last];
    } else {
      ConcatSnoc(lists[1..], last);
      assert (lists + [last])[1..] == lists[1..] + [last];
    }
  }

  lemma {:induction false} ConcatSplit<T>(lists: seq<seq<T>>, k: nat)
    requires k <= |lists|
    ensures Concat(lists) == Concat(lists[..k]) + Concat(lists[k..])
  {
    if k == 0 {
      assert lists[0..] == lists;
    } else {
      ConcatSplit(lists[1..], k - 1);
      assert lists[..k][1..] == lists[1..][..k - 1] && lists[1..][k - 1..] == lists[k..];
    }
  }

  lemma NothingConcatenated<T>(lists: seq<seq<T>>)
    ensures |Concat(lists[..0])| == 0
  {
  }

  /** Reading the concatenation of lists reads each list in its place. */
  lemma Group<P>(pages: seq<P>, lists: seq<seq<nat>>, i: nat, read: seq<P>)
    requires i < |lists| && AllInRange(Concat(lists), |pages|) && read == ReadAll(pages, Concat(lists))
    ensures var next := |Concat(lists[..i])|;
            && next + |lists[i]| == |Concat(lists[..i + 1])| <= |read|
            && AllInRange(lists[i], |pages|)
            && read[next..next + |lists[i]|] == ReadAll(pages, lists[i])
  {
    ConcatSnoc(lists[..i], lists[i]);
    assert lists[..i + 1] == lists[..i] + [lists[i]];
    ConcatSplit(lists, i + 1);
    hide Concat;
    var flat, next := Concat(lists), |Concat(lists[..i])|;
    assert flat[next..next + |lists[i]|] == lists[i];
    forall d | 0 <= d < |lists[i]|
      ensures lists[i][d] < |pages| && read[next + d] == pages[lists[i][d]]
    {
      assert flat[next + d] == lists[i][d];
    }
  }

  lemma {:induction false} ConcatMember<T>(lists: seq<seq<T>>, x: T)
    ensures x in Concat(lists) <==> exists i :: 0 <= i < |lists| && x in lists[i]
  {
    if lists != [] {
      ConcatMember(lists[1..], x);
      if x in Concat(lists[1..]) {
        var i :| 0 <= i < |lists[1..]| && x in lists[1..][i];
        assert x in lists[i + 1];
      }
      if i :| 0 <= i < |lists| && x in lists[i] {
        if i > 0 { assert x in lists[1..][i - 1]; }
      }
    }
  }

  class MemPageStore<P> {
    const pages: array<P>

    constructor (pageCount: nat, fill: P)
      ensures fresh(pages) && pages.Length == pageCount
      ensures forall i :: 0 <= i < pageCount ==> pages[i] == fill
    {
      pages := new P[pageCount](_ => fill);
    }

    method ReadPage(pageIdx: nat) returns (r: Result<P>)
      ensures r.Ok? <==> pageIdx < pages.Length
      ensures r.Ok? ==> r.value == pages[pageIdx]
    {
      if pageIdx >= pages.Length {
        return Err(InvalidInput);
      }
      return Ok(pages[pageIdx]);
    }

    method WritePage(pageIdx: nat, content: P) returns (r: Result<()>)
      modifies pages
      ensures r.Ok? <==> pageIdx < pages.Length
      ensures pages[..] == if r.Ok? then old(pages[..])[pageIdx := content] else old(pages[..])
    {
      if pageIdx >= pages.Length {
        return Err(InvalidInput);
      }
      pages[pageIdx] := content;
      return Ok(());
    }

    method ReadPages(indices: seq<nat>) returns (r: Result<seq<P>>)
      ensures r.Ok? <==> AllInRange(indices, pages.Length)
      ensures r.Ok? ==> r.value == ReadAll(pages[..], indices)
    {
      var out := [];
      for k := 0 to |indices|
        invariant |out| == k && AllInRange(indices[..k], pages.Length)
        invariant forall i :: 0 <= i < k ==> indices[i] < pages.Length && out[i] == pages[indices[i]]
      {
        var page := ReadPage(indices[k]);
        if page.Err? {
          return Err(page.error);
        }
        out := out + [page.value];
      }
      return Ok(out);
    }

    /** One page at a time; an out-of-range index stops the batch after the writes before it. */
    method WritePages(indices: seq<nat>, contents: seq<P>) returns (r: Result<()>)
      modifies pages
      ensures r.Ok? <==> |indices| == |contents| && AllInRange(indices, pages.Length)
      ensures r.Ok? ==> pages[..] == WriteAll(old(pages[..]), indices, contents, |indices|)
      ensures |indices| != |contents| ==> pages[..] == old(pages[..])
    {
      if |indices| != |contents| {
        return Err(InvalidInput);
      }
      for k := 0 to |indices|
        invariant AllInRange(indices[..k], pages.Length)
        invariant AllInRange(indices, pages.Length) ==>
                    pages[..] == WriteAll(old(pages[..]), indices, contents, k)
      {
        var w := WritePage(indices[k], contents[k]);
        if w.Err? {
          return Err(w.error);
        }
        assert AllInRange(indices[..k + 1], pages.Length);
      }
      assert indices[..|indices|] == indices;
      return Ok(());
    }

    /** Several paths in one request: the paths are flattened, read once, and regrouped. */
    method ReadPathsPages(paths: seq<seq<nat>>) returns (r: Result<seq<seq<P>>>)
      ensures r.Ok? <==> AllInRange(Concat(paths), pages.Length)
      ensures r.Ok? ==>
                && |r.value| == |paths|
                && forall i :: 0 <= i < |paths| ==>
                     AllInRange(paths[i], pages.Length) && r.value[i] == ReadAll(pages[..], paths[i])
    {
      var flat := Flat(paths);
      var read := ReadPages(flat);
      if read.Err? {
        return Err(read.error);
      }
      var out: seq<seq<P>> := [];
      var next := 0;
      hide Concat, ReadAll;
      assert next == |Concat(paths[..0])| by { NothingConcatenated(paths); }
      for i := 0 to |paths|
        invariant |out| == i && next == |Concat(paths[..i])|
        invariant forall k :: 0 <= k < i ==>
                    AllInRange(paths[k], pages.Length) && out[k] == ReadAll(pages[..], paths[k])
      {
        Group(pages[..], paths, i, read.value);
        out := out + [read.value[next..next + |paths[i]|]];
        next := next + |paths[i]|;
      }
      return Ok(out);
    }

    method Flat<T>(lists: seq<seq<T>>) returns (flat: seq<T>)
      ensures flat == Concat(lists)
    {
      flat := [];
      for i := 0 to |lists|
        invariant flat == Concat(lists[..i])
      {
        ConcatSnoc(lists[..i], lists[i]);
        assert lists[..i + 1] == lists[..i] + [lists[i]];
        flat := flat + lists[i];
      }
      assert lists[..|lists|] == lists;
    }

    method WritePathsPages(paths: seq<seq<nat>>, contents: seq<seq<P>>) returns (r: Result<()>)
      modifies pages
      ensures r.Ok? <==>
                && |paths| == |contents|
                && (forall i :: 0 <= i < |paths| ==> |paths[i]| == |contents[i]|)
                && AllInRange(Concat(paths), pages.Length)
      ensures r.Ok? ==>
                && |Concat(contents)| == |Concat(paths)|
                && pages[..] == WriteAll(old(pages[..]), Concat(paths), Concat(contents), |Concat(paths)|)
    {
      if |paths| != |contents| {
        return Err(InvalidInput);
      }
      for i := 0 to |paths|
        invariant forall k :: 0 <= k < i ==> |paths[k]| == |contents[k]|
      {
        if |paths[i]| != |contents[i]| {
          return Err(InvalidInput);
        }
      }
      ConcatLengths(paths, contents);
      var flatPath := Flat(paths);
      var flatPages := Flat(contents);
      r := WritePages(flatPath, flatPages);
    }
  }

  lemma {:induction false} ConcatLengths<S, T>(a: seq<seq<S>>, b: seq<seq<T>>)
    requires |a| == |b| && forall i :: 0 <= i < |a| ==> |a[i]| == |b[i]|
    ensures |Concat(a)| == |Concat(b)|
  {
    if a != [] {
      ConcatLengths(a[1..], b[1..]);
    }
  }

  /** Somebody with access to the medium replaces every page. */
  method Replace<P>(pages: array<P>, image: seq<P>)
    requires |image| == pages.Length
    modifies pages
    ensures pages[..] == image
  {
    for i := 0 to pages.Length
      invariant forall k :: 0 <= k < i ==> pages[k] == image[k]
    {
      pages[i] := image[i];
    }
  }
}
