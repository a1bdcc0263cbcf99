/** Write-back cache of a fixed prefix of pages (src/store.rs, FrontCachedPageStore). */
module FrontCache {
  import opened Common
  import opened PageStores

  class FrontCachedPageStore<P> {
    const inner: MemPageStore<P>
    const cachedPages: nat
    const cached: array<P>
    const dirty: array<bool>

    ghost predicate Valid() {
      && cached.Length == dirty.Length == cachedPages <= inner.pages.Length
      && cached != inner.pages
      && (dirty as object) != inner.pages
      && (dirty as object) != cached
    }

    /** What the store presents to its readers. */
    ghost function View(): (r: seq<P>)
      requires Valid()
      reads cached, inner.pages
      ensures |r| == inner.pages.Length
    {
      cached[..] + inner.pages[cachedPages..]
    }

    /** A page not marked dirty is in the inner store as cached. */
    ghost predicate Coherent()
      requires Valid()
      reads cached, dirty, inner.pages
    {
      forall n :: 0 <= n < cachedPages && !dirty[n] ==> cached[n] == inner.pages[n]
    }

    constructor (inner: MemPageStore<P>, cachedPages: nat, fill: P)
      requires cachedPages <= inner.pages.Length
      ensures Valid() && this.inner == inner && this.cachedPages == cachedPages
      ensures fresh(cached) && fresh(dirty)
      ensures forall n :: 0 <= n < cachedPages ==> cached[n] == fill && !dirty[n]
    {
      this.inner, this.cachedPages := inner, cachedPages;
      this.cached := new P[cachedPages](_ => fill);
      this.dirty := new bool[cachedPages](_ => false);
    }

    /** Loads the prefix from the inner store. */
    static method New(inner: MemPageStore<P>, cachedPages: nat, blank: P) returns (r: Result<FrontCachedPageStore<P>>)
      ensures r.Ok? <==> cachedPages <= inner.pages.Length
      ensures r.Ok? ==>
                && fresh(r.value) && fresh(r.value.cached) && fresh(r.value.dirty)
                && r.value.inner == inner && r.value.cachedPages == cachedPages
                && r.value.Valid() && r.value.Coherent() && r.value.View() == inner.pages[..]
    {
      if cachedPages > inner.pages.Length {
        return Err(InvalidInput);
      }
      var store := new FrontCachedPageStore(inner, cachedPages, blank);
      for n := 0 to cachedPages
        invariant forall k :: 0 <= k < n ==> store.cached[k] == inner.pages[k]
        invariant forall k :: 0 <= k < cachedPages ==> !store.dirty[k]
      {
        var page := inner.ReadPage(n);
        store.cached[n] := page.value;
      }
      return Ok(store);
    }

    /** A blank prefix without reading. It is coherent exactly when the inner prefix is blank, so the
        caller must first write every other cached page. */
    static method NewZeroed(inner: MemPageStore<P>, cachedPages: nat, blank: P)
      returns (r: Result<FrontCachedPageStore<P>>)
      ensures r.Ok? <==> cachedPages <= inner.pages.Length
      ensures r.Ok? ==>
                && fresh(r.value) && fresh(r.value.cached) && fresh(r.value.dirty)
                && r.value.inner == inner && r.value.cachedPages == cachedPages && r.value.Valid()
                && (forall n :: 0 <= n < cachedPages ==> !r.value.dirty[n])
                && (r.value.Coherent() <==> forall n :: 0 <= n < cachedPages ==> inner.pages[n] == blank)
                && (r.value.View() == inner.pages[..] <==> forall n :: 0 <= n < cachedPages ==> inner.pages[n] == blank)
    {
      if cachedPages > inner.pages.Length {
        return Err(InvalidInput);
      }
      var store := new FrontCachedPageStore(inner, cachedPages, blank);
      assert forall n :: 0 <= n < cachedPages ==> store.View()[n] == blank;
      assert forall n :: cachedPages <= n < inner.pages.Length ==> store.View()[n] == inner.pages[n];
      return Ok(store);
    }

    /** A blank cache before its first read: every cached page is written once, in any order. Then the
        store is coherent, whatever the inner prefix held, and shows the new pages. */
    method Initialize(order: seq<nat>, contents: seq<P>)
      requires Valid() && |contents| == |order|
      requires forall k :: 0 <= k < |order| ==> order[k] < cachedPages
      requires forall n: nat :: n < cachedPages ==> n in order
      modifies cached, dirty, inner.pages
      ensures Coherent() && inner.pages[..cachedPages] == old(inner.pages[..cachedPages])
      ensures View() == WriteAll(old(View()), order, contents, |order|)
    {
      for k := 0 to |order|
        invariant View() == WriteAll(old(View()), order, contents, k)
        invariant forall n :: 0 <= n < cachedPages && n in order[..k] ==> dirty[n]
        invariant inner.pages[..cachedPages] == old(inner.pages[..cachedPages])
      {
        var w := WritePage(order[k], contents[k]);
        assert order[..k + 1] == order[..k] + [order[k]];
      }
      assert order[..|order|] == order;
    }

    method ReadPage(pageIdx: nat) returns (r: Result<P>)
      requires Valid()
      ensures r.Ok? <==> pageIdx < inner.pages.Length
      ensures r.Ok? ==> r.value == View()[pageIdx]
    {
      if pageIdx >= inner.pages.Length {
        return Err(InvalidInput);
      }
      if pageIdx < cachedPages {
        return Ok(cached[pageIdx]);
      }
      r := inner.ReadPage(pageIdx);
    }

    method WritePage(pageIdx: nat, content: P) returns (r: Result<()>)
      requires Valid()
      modifies cached, dirty, inner.pages
      ensures r.Ok? <==> pageIdx < inner.pages.Length
      ensures View() == if r.Ok? then old(View())[pageIdx := content] else old(View())
      ensures forall n :: 0 <= n < cachedPages ==> dirty[n] == (n == pageIdx || old(dirty[n]))
      ensures forall n :: 0 <= n < cachedPages ==> inner.pages[n] == old(inner.pages[n])
      ensures old(Coherent()) ==> Coherent()
    {
      if pageIdx >= inner.pages.Length {
        return Err(InvalidInput);
      }
      if pageIdx < cachedPages {
        cached[pageIdx] := content;
        dirty[pageIdx] := true;
        assert View() == old(View())[pageIdx := content];
        return Ok(());
      }
      r := inner.WritePage(pageIdx, content);
      assert View() == old(View())[pageIdx := content];
    }

    /** Cached pages from memory, the others in one inner request, in the caller's order. */
    method ReadPages(indices: seq<nat>, blank: P) returns (r: Result<seq<P>>)
      requires Valid()
      ensures r.Ok? <==> AllInRange(indices, inner.pages.Length)
      ensures r.Ok? ==> r.value == ReadAll(View(), indices)
    {
      var pages := new P[|indices|](_ => blank);
      var positions: seq<nat> := [];
      var innerIndices: seq<nat> := [];
      for pos := 0 to |indices|
        invariant AllInRange(indices[..pos], inner.pages.Length)
        invariant Split(indices[..pos], positions, innerIndices)
        invariant forall k :: 0 <= k < pos && indices[k] < cachedPages ==> pages[k] == cached[indices[k]]
      {
        if indices[pos] >= inner.pages.Length {
          return Err(InvalidInput);
        }
        if indices[pos] < cachedPages {
          pages[pos] := cached[indices[pos]];
          SplitCached(indices, pos, positions, innerIndices);
        } else {
          SplitInner(indices, pos, positions, innerIndices);
          positions := positions + [pos];
          innerIndices := innerIndices + [indices[pos]];
        }
      }
      assert indices[..|indices|] == indices;
      if innerIndices != [] {
        var innerPages := inner.ReadPages(innerIndices);
        Scatter(indices, positions, innerIndices, innerPages.value, pages);
      }
      forall k | 0 <= k < |indices|
        ensures pages[k] == View()[indices[k]]
      {
        if indices[k] >= cachedPages {
          assert k in positions;
        }
      }
      return Ok(pages[..]);
    }

    /** Hands the inner pages to the positions that asked for them. */
    method Scatter(indices: seq<nat>, positions: seq<nat>, innerIndices: seq<nat>, innerPages: seq<P>, pages: array<P>)
      requires Valid() && pages.Length == |indices| && AllInRange(indices, inner.pages.Length)
      requires Split(indices, positions, innerIndices) && |innerPages| == |positions|
      requires pages != cached && pages != inner.pages
      requires forall k :: 0 <= k < |positions| ==> innerPages[k] == inner.pages[innerIndices[k]]
      modifies pages
      ensures forall j :: 0 <= j < |indices| && indices[j] < cachedPages ==> pages[j] == old(pages[j])
      ensures forall j :: 0 <= j < |positions| ==> pages[positions[j]] == inner.pages[indices[positions[j]]]
    {
      for k := 0 to |positions|
        invariant forall j :: 0 <= j < |indices| && indices[j] < cachedPages ==> pages[j] == old(pages[j])
        invariant forall j :: 0 <= j < k ==> pages[positions[j]] == inner.pages[indices[positions[j]]]
      {
        pages[positions[k]] := innerPages[k];
      }
    }

    /** Cached pages at once, the others collected into one inner request. The view ends as after one
        write per index in the caller's order. */
    method WritePages(indices: seq<nat>, contents: seq<P>) returns (r: Result<()>)
      requires Valid()
      modifies cached, dirty, inner.pages
      ensures r.Ok? <==> |contents| == |indices| && AllInRange(indices, inner.pages.Length)
      ensures r.Ok? ==> View() == WriteAll(old(View()), indices, contents, |indices|)
      ensures old(Coherent()) ==> Coherent()
      ensures |contents| != |indices| ==> View() == old(View())
    {
      if |indices| != |contents| {
        return Err(InvalidInput);
      }
      hide WriteAll;
      var innerIndices: seq<nat> := [];
      var innerPages: seq<P> := [];
      PendingStart(View(), inner.pages[..], indices, contents, cached[..]);
      for k := 0 to |indices|
        invariant AllInRange(indices[..k], inner.pages.Length)
        invariant Pending(old(View()), inner.pages[..], indices, contents, k, cached[..], innerIndices, innerPages)
        invariant inner.pages[..] == old(inner.pages[..])
        invariant old(Coherent()) ==> Coherent()
      {
        if indices[k] >= inner.pages.Length {
          return Err(InvalidInput);
        }
        PendingStep(old(View()), inner.pages[..], indices, contents, k, cached[..], innerIndices, innerPages);
        if indices[k] < cachedPages {
          ghost var before := cached[..];
          cached[indices[k]] := contents[k];
          dirty[indices[k]] := true;
          assert cached[..] == before[indices[k] := contents[k]];
        } else {
          innerIndices := innerIndices + [indices[k]];
          innerPages := innerPages + [contents[k]];
        }
      }
      assert indices[..|indices|] == indices;
      PendingEnd(old(View()), inner.pages[..], indices, contents, cached[..], innerIndices, innerPages);
      ghost var inner0 := inner.pages[..];
      if innerIndices != [] {
        var w := inner.WritePages(innerIndices, innerPages);
      }
      assert inner.pages[..] == WriteAll(inner0, innerIndices, innerPages, |innerIndices|);
      return Ok(());
    }

    /** After `k` writes: the cached prefix already shows them, the collected inner writes will. */
    ghost predicate Pending(view0: seq<P>, inner0: seq<P>, indices: seq<nat>, contents: seq<P>, k: nat,
                            prefix: seq<P>, innerIndices: seq<nat>, innerPages: seq<P>)
    {
      && |contents| == |indices| && k <= |indices| && |view0| == |inner0| && |prefix| == cachedPages <= |view0|
      && |innerIndices| == |innerPages| && AllInRange(indices[..k], |view0|)
      && (forall i :: 0 <= i < |innerIndices| ==> cachedPages <= innerIndices[i] < |inner0|)
      && var shown := prefix + WriteAll(inner0, innerIndices, innerPages, |innerIndices|)[cachedPages..];
         shown == WriteAll(view0, indices[..k], contents[..k], k)
    }

    lemma PendingStart(view0: seq<P>, inner0: seq<P>, indices: seq<nat>, contents: seq<P>, prefix: seq<P>)
      requires |contents| == |indices| && |prefix| == cachedPages <= |inner0| && view0 == prefix + inner0[cachedPages..]
      ensures Pending(view0, inner0, indices, contents, 0, prefix, [], [])
    {
    }

    lemma PendingStep(view0: seq<P>, inner0: seq<P>, indices: seq<nat>, contents: seq<P>, k: nat,
                      prefix: seq<P>, innerIndices: seq<nat>, innerPages: seq<P>)
      requires Pending(view0, inner0, indices, contents, k, prefix, innerIndices, innerPages)
      requires k < |indices| && indices[k] < |view0|
      ensures indices[k] < cachedPages ==>
                Pending(view0, inner0, indices, contents, k + 1, prefix[indices[k] := contents[k]], innerIndices,
                        innerPages)
      ensures indices[k] >= cachedPages ==>
                Pending(view0, inner0, indices, contents, k + 1, prefix, innerIndices + [indices[k]],
                        innerPages + [contents[k]])
    {
      WriteSnoc(view0, indices, contents, k);
      if indices[k] >= cachedPages {
        var longer, pages := innerIndices + [indices[k]], innerPages + [contents[k]];
        WriteSnoc(inner0, longer, pages, |innerIndices|);
        assert longer[..|innerIndices|] == innerIndices && pages[..|innerIndices|] == innerPages;
        assert longer[..|longer|] == longer && pages[..|longer|] == pages;
      }
      hide WriteAll;
    }

    lemma PendingEnd(view0: seq<P>, inner0: seq<P>, indices: seq<nat>, contents: seq<P>,
                     prefix: seq<P>, innerIndices: seq<nat>, innerPages: seq<P>)
      requires Pending(view0, inner0, indices, contents, |indices|, prefix, innerIndices, innerPages)
      ensures AllInRange(indices, |view0|) && AllInRange(innerIndices, |inner0|)
      ensures prefix + WriteAll(inner0, innerIndices, innerPages, |innerIndices|)[cachedPages..] ==
              WriteAll(view0, indices, contents, |indices|)
      ensures forall n :: 0 <= n < cachedPages ==>
                WriteAll(inner0, innerIndices, innerPages, |innerIndices|)[n] == inner0[n]
    {
      WritesAbove(inner0, innerIndices, innerPages, cachedPages, |innerIndices|);
      assert indices[..|indices|] == indices && contents[..|contents|] == contents;
    }

    /** Writes the dirty pages back and nothing else; the view stays. Of a coherent store the inner
        store becomes the view. */
    method Flush()
      requires Valid()
      modifies dirty, inner.pages
      ensures View() == old(View())
      ensures forall n :: 0 <= n < cachedPages ==> !dirty[n]
      ensures forall n :: 0 <= n < inner.pages.Length ==>
                inner.pages[n] == if n < cachedPages && old(dirty[n]) then cached[n] else old(inner.pages[n])
      ensures old(Coherent()) ==> Coherent() && inner.pages[..] == View()
    {
      for n := 0 to cachedPages
        invariant forall k :: 0 <= k < n ==> !dirty[k]
        invariant forall k :: n <= k < cachedPages ==> dirty[k] == old(dirty[k])
        invariant forall k :: 0 <= k < inner.pages.Length ==>
                    inner.pages[k] == if k < n && old(dirty[k]) then cached[k] else old(inner.pages[k])
      {
        if dirty[n] {
          var w := inner.WritePage(n, cached[n]);
          dirty[n] := false;
        }
      }
      assert View() == old(View());
    }

    /** Positions and pages of the requests that go to the inner store, in order. */
    ghost predicate Split(indices: seq<nat>, positions: seq<nat>, innerIndices: seq<nat>) {
      && |positions| == |innerIndices|
      && (forall k :: 0 <= k < |positions| ==>
            positions[k] < |indices| && innerIndices[k] == indices[positions[k]] && innerIndices[k] >= cachedPages)
      && (forall i, j :: 0 <= i < j < |positions| ==> positions[i] < positions[j])
      && (forall pos: nat :: pos < |indices| && indices[pos] >= cachedPages ==> pos in positions)
    }

    lemma SplitCached(indices: seq<nat>, pos: nat, positions: seq<nat>, innerIndices: seq<nat>)
      requires pos < |indices| && indices[pos] < cachedPages && Split(indices[..pos], positions, innerIndices)
      ensures Split(indices[..pos + 1], positions, innerIndices)
    {
    }

    lemma SplitInner(indices: seq<nat>, pos: nat, positions: seq<nat>, innerIndices: seq<nat>)
      requires pos < |indices| && indices[pos] >= cachedPages && Split(indices[..pos], positions, innerIndices)
      ensures Split(indices[..pos + 1], positions + [pos], innerIndices + [indices[pos]])
    {
      forall p: nat | p < pos + 1 && indices[p] >= cachedPages
        ensures p in positions + [pos]
      {
        if p < pos { assert indices[..pos][p] == indices[p]; }
      }
    }
  }

  /** Writes at or above a page leave the pages before it alone. */
  lemma {:induction false} WritesAbove<P>(pages: seq<P>, indices: seq<nat>, contents: seq<P>, first: nat, k: nat)
    requires |contents| == |indices| && k <= |indices| && AllInRange(indices, |pages|)
    requires forall i :: 0 <= i < |indices| ==> first <= indices[i]
    ensures forall n :: 0 <= n < first && n < |pages| ==> WriteAll(pages, indices, contents, k)[n] == pages[n]
  {
    if k > 0 {
      WritesAbove(pages, indices, contents, first, k - 1);
    }
  }

  /** One more write at the end of a list. */
  lemma WriteSnoc<P>(pages: seq<P>, indices: seq<nat>, contents: seq<P>, k: nat)
    requires |contents| == |indices| && k < |indices| && AllInRange(indices[..k + 1], |pages|)
    ensures AllInRange(indices[..k], |pages|)
    ensures WriteAll(pages, indices[..k + 1], contents[..k + 1], k + 1) ==
            WriteAll(pages, indices[..k], contents[..k], k)[indices[k] := contents[k]]
  {
    assert indices[..k + 1] == indices[..k] + [indices[k]] && contents[..k + 1] == contents[..k] + [contents[k]];
    WritePrefix(pages, indices[..k], contents[..k], [indices[k]], [contents[k]], k);
  }
}
