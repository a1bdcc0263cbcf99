/** One access step and one eviction step on a page overlay (src/circuit.rs,
    remove_target_from_overlays and evict_path_in_overlays), and the path-list form of a single
    access (read_and_remove_target_path). */
module OverlayOps {
  import opened Common
  import opened Geometry
  import opened Blocks
  import opened EvictionPlan
  import opened PageStores
  import opened PathOverlay
  import opened OramSpec
  import opened OramScans
  import opened StashOps
  import opened EvictionOps

  type MetaOverlay = map<nat, seq<Slot>>
  type PayloadOverlay<V> = map<nat, seq<V>>

  /** Metadata and payload overlays together show pages of the tree. */
  ghost predicate ShowsTree<V>(tree: Pages<V>, mo: MetaOverlay, po: PayloadOverlay<V>) {
    && mo.Keys == po.Keys
    && forall n :: n in mo ==> n < |tree| && |mo[n]| == |po[n]| && Join(mo[n], po[n]) == tree[n]
  }

  /** Progress of the target scan after `done` pages: once the target is found, the remaining pages
      are left alone. */
  ghost predicate ScanProgress<V>(before: Pages<V>, done: Pages<V>, id: nat, zero: V, removed: bool,
                                  selected: Block<V>) {
    && |done| <= |before|
    && var rest := before[|done|..];
       TakeFromPath(before, id, zero) ==
       if removed then (done + rest, Some(selected))
       else (done + TakeFromPath(rest, id, zero).0, TakeFromPath(rest, id, zero).1)
  }

  lemma ScanStep<V>(before: Pages<V>, done: Pages<V>, id: nat, zero: V, removed: bool, selected: Block<V>)
    requires |done| < |before| && ScanProgress(before, done, id, zero, removed, selected)
    ensures removed ==> ScanProgress(before, done + [before[|done|]], id, zero, true, selected)
    ensures !removed ==>
              var (page, taken) := TakeFromBucket(before[|done|], id, zero);
              ScanProgress(before, done + [page], id, zero, taken.Some?, if taken.Some? then taken.value else selected)
  {
    var d := |done|;
    assert before[d..] == [before[d]] + before[d + 1..];
    var page := if removed then before[d] else TakeFromBucket(before[d], id, zero).0;
    var rest := TakeFromPath(before[d + 1..], id, zero).0;
    assert done + ([page] + before[d + 1..]) == (done + [page]) + before[d + 1..];
    assert done + ([page] + rest) == (done + [page]) + rest;
  }

  lemma ScanStart<V>(before: Pages<V>, id: nat, zero: V)
    ensures ScanProgress(before, [], id, zero, false, Dummy(zero))
  {
    assert before[0..] == before;
    assert [] + TakeFromPath(before, id, zero).0 == TakeFromPath(before, id, zero).0;
  }

  lemma ScanEnd<V>(before: Pages<V>, done: Pages<V>, id: nat, zero: V, removed: bool, selected: Block<V>)
    requires |done| == |before| && ScanProgress(before, done, id, zero, removed, selected)
    ensures TakeFromPath(before, id, zero) == (done, if removed then Some(selected) else None)
  {
    assert before[|done|..] == [];
    assert done + [] == done;
  }

  ghost predicate JoinedPages<V>(metas: seq<seq<Slot>>, payloads: seq<seq<V>>, pages: Pages<V>) {
    && |metas| == |payloads| == |pages|
    && forall d :: 0 <= d < |pages| ==>
         |metas[d]| == |payloads[d]| && Join(metas[d], payloads[d]) == pages[d]
  }

  /** Scans the pages of one path and moves the target to the stash. */
  method FetchFromPages<V>(stash: array<Block<V>>, metas: seq<seq<Slot>>, payloads: seq<seq<V>>,
                           id: nat, zero: V, ghost before: Pages<V>)
    returns (r: Result<(seq<seq<Slot>>, seq<seq<V>>)>)
    requires JoinedPages(metas, payloads, before)
    modifies stash
    ensures var spec := Fetched(old(stash[..]), before, id, zero);
            && (r.Ok? <==> spec.Ok?)
            && (r.Ok? ==> stash[..] == spec.value.0 && JoinedPages(r.value.0, r.value.1, spec.value.1))
            && (r.Err? ==> r.error == StashOverflow && stash[..] == old(stash[..]))
  {
    hide ScanProgress;
    var newMetas: seq<seq<Slot>>, newPayloads: seq<seq<V>> := [], [];
    var selected, removed := Dummy(zero), false;
    ghost var done: Pages<V> := [];
    ScanStart(before, id, zero);
    for d := 0 to |metas|
      invariant stash[..] == old(stash[..])
      invariant |done| == d && JoinedPages(newMetas, newPayloads, done)
      invariant ScanProgress(before, done, id, zero, removed, selected)
      invariant !removed ==> !selected.occupied
      invariant removed ==> selected.occupied
    {
      assert Join(metas[d], payloads[d]) == before[d];
      ScanStep(before, done, id, zero, removed, selected);
      var meta, payload;
      meta, payload, selected, removed := SelectAndRemove(metas[d], payloads[d], id, zero, selected, removed);
      newMetas := newMetas + [meta];
      newPayloads := newPayloads + [payload];
      done := done + [Join(meta, payload)];
    }
    ScanEnd(before, done, id, zero, removed, selected);
    var inserted := InsertIntoStash(stash, selected);
    if inserted.Err? {
      return Err(inserted.error);
    }
    return Ok((newMetas, newPayloads));
  }

  /** The overlay pages of a path, as page lists. */
  method PathFromOverlay<P>(path: seq<nat>, overlay: map<nat, P>) returns (pages: seq<P>)
    requires Covered(overlay, path)
    ensures |pages| == |path| && forall d :: 0 <= d < |path| ==> pages[d] == overlay[path[d]]
  {
    pages := [];
    for d := 0 to |path|
      invariant |pages| == d && forall e :: 0 <= e < d ==> pages[e] == overlay[path[e]]
    {
      pages := pages + [overlay[path[d]]];
    }
  }

  /** Puts page lists back into the overlay, page by page. */
  method StoreInOverlay<P>(path: seq<nat>, pages: seq<P>, overlay: map<nat, P>, ghost n: nat)
    returns (overlay': map<nat, P>)
    requires |pages| == |path| && Covered(overlay, path) && DistinctPath(path, n)
    ensures Replaced(path, pages, overlay, overlay')
  {
    overlay' := overlay;
    for d := 0 to |path|
      invariant overlay'.Keys == overlay.Keys
      invariant forall e :: 0 <= e < d ==> overlay'[path[e]] == pages[e]
      invariant forall k :: k in overlay && k !in path ==> overlay'[k] == overlay[k]
    {
      overlay' := overlay'[path[d] := pages[d]];
    }
  }

  /** The overlay changed exactly along the path, to the given pages. */
  ghost predicate Replaced<P>(path: seq<nat>, pages: seq<P>, before: map<nat, P>, after: map<nat, P>) {
    && after.Keys == before.Keys && |pages| == |path|
    && (forall d :: 0 <= d < |path| ==> path[d] in after && after[path[d]] == pages[d])
    && (forall k :: k in before && k !in path ==> after[k] == before[k])
  }

  lemma OverlayPageAfter<V>(tree: Pages<V>, path: seq<nat>, pages: Pages<V>, mo: MetaOverlay, po: PayloadOverlay<V>,
                            metas: seq<seq<Slot>>, payloads: seq<seq<V>>, mo': MetaOverlay, po': PayloadOverlay<V>,
                            n: nat)
    requires ShowsTree(tree, mo, po) && DistinctPath(path, |tree|)
    requires |pages| == |path| && JoinedPages(metas, payloads, pages)
    requires Replaced(path, metas, mo, mo') && Replaced(path, payloads, po, po')
    requires n in mo'
    ensures var after := WriteAll(tree, path, pages, |path|);
            n in po' && n < |after| && |mo'[n]| == |po'[n]| && Join(mo'[n], po'[n]) == after[n]
  {
    hide WriteAll, Join;
    WritePathFrame(tree, path, pages, |path|);
    assert path[..|path|] == path;
    assert n in mo && n in po;
    if n in path {
      var d :| 0 <= d < |path| && path[d] == n;
      OverlayShowsPage(metas, payloads, pages, d);
    }
  }

  /** Replacing the pages of a path in both overlays shows the tree with that path rewritten. */
  lemma OverlayShowsWrite<V>(tree: Pages<V>, path: seq<nat>, pages: Pages<V>, mo: MetaOverlay, po: PayloadOverlay<V>,
                             metas: seq<seq<Slot>>, payloads: seq<seq<V>>, mo': MetaOverlay, po': PayloadOverlay<V>)
    requires ShowsTree(tree, mo, po) && DistinctPath(path, |tree|)
    requires |pages| == |path| && JoinedPages(metas, payloads, pages)
    requires Replaced(path, metas, mo, mo') && Replaced(path, payloads, po, po')
    ensures ShowsTree(WriteAll(tree, path, pages, |path|), mo', po')
  {
    hide WriteAll, Join, JoinedPages, DistinctPath;
    forall n | n in mo'
      ensures var after := WriteAll(tree, path, pages, |path|);
              n in po' && n < |after| && |mo'[n]| == |po'[n]| && Join(mo'[n], po'[n]) == after[n]
    {
      OverlayPageAfter(tree, path, pages, mo, po, metas, payloads, mo', po', n);
    }
  }

  lemma OverlayShowsPage<V>(metas: seq<seq<Slot>>, payloads: seq<seq<V>>, pages: Pages<V>, d: nat)
    requires JoinedPages(metas, payloads, pages) && d < |pages|
    ensures |metas[d]| == |payloads[d]| && Join(metas[d], payloads[d]) == pages[d]
  {
  }

  lemma OverlayJoins<V>(tree: Pages<V>, path: seq<nat>, mo: MetaOverlay, po: PayloadOverlay<V>,
                        metas: seq<seq<Slot>>, payloads: seq<seq<V>>)
    requires ShowsTree(tree, mo, po) && Covered(mo, path) && Covered(po, path)
    requires |metas| == |payloads| == |path|
    requires forall d :: 0 <= d < |path| ==> metas[d] == mo[path[d]] && payloads[d] == po[path[d]]
    ensures AllInRange(path, |tree|)
    ensures JoinedPages(metas, payloads, ReadAll(tree, path))
  {
  }

  method RemoveTargetFromOverlays<V>(stash: array<Block<V>>, path: seq<nat>, id: nat, zero: V,
                                     mo: MetaOverlay, po: PayloadOverlay<V>, ghost tree: Pages<V>)
    returns (r: Result<(MetaOverlay, PayloadOverlay<V>)>)
    requires ShowsTree(tree, mo, po) && Covered(mo, path) && DistinctPath(path, |tree|)
    modifies stash
    ensures var spec := Fetched(old(stash[..]), ReadAll(tree, path), id, zero);
            && (r.Ok? <==> spec.Ok?)
            && (r.Ok? ==>
                  && stash[..] == spec.value.0 && |spec.value.1| == |path|
                  && r.value.0.Keys == mo.Keys
                  && ShowsTree(WriteAll(tree, path, spec.value.1, |path|), r.value.0, r.value.1))
            && (r.Err? ==> r.error == StashOverflow)
  {
    var metas := PathFromOverlay(path, mo);
    assert Covered(po, path);
    var payloads := PathFromOverlay(path, po);
    OverlayJoins(tree, path, mo, po, metas, payloads);
    var fetched := FetchFromPages(stash, metas, payloads, id, zero, ReadAll(tree, path));
    if fetched.Err? {
      return Err(fetched.error);
    }
    ghost var pages := Fetched(old(stash[..]), ReadAll(tree, path), id, zero).value.1;
    var mo' := StoreInOverlay(path, fetched.value.0, mo, |tree|);
    var po' := StoreInOverlay(path, fetched.value.1, po, |tree|);
    OverlayShowsWrite(tree, path, pages, mo, po, fetched.value.0, fetched.value.1, mo', po');
    return Ok((mo', po'));
  }

  lemma CandidatesJoin<V>(stash: seq<Block<V>>, metas: seq<seq<Slot>>, payloads: seq<seq<V>>, pages: Pages<V>)
    requires JoinedPages(metas, payloads, pages)
    ensures |SlotsOf(stash) + Concat(metas)| == |PayloadsOf(stash) + Concat(payloads)|
    ensures Join(SlotsOf(stash) + Concat(metas), PayloadsOf(stash) + Concat(payloads)) == stash + Concat(pages)
  {
    JoinConcat(metas, payloads, pages);
  }

  lemma SlotReachesAgree<V>(p: OramParams, evict: nat, cands: seq<Slot>, blocks: seq<Block<V>>)
    requires p.leaves > 0 && cands == SlotsOf(blocks)
    ensures SlotReaches(p, evict, cands) == Reaches(p, evict, blocks)
  {
  }

  /** One eviction: plan over stash and path, check capacity, clear, reinsert, rebuild. */
  method EvictPathPages<V>(p: OramParams, ghost evict: nat, path: seq<nat>, stash: array<Block<V>>, zero: V,
                           metas: seq<seq<Slot>>, payloads: seq<seq<V>>, ghost c: Config<V>, ghost pages: Pages<V>)
    returns (r: Result<(seq<seq<Slot>>, seq<seq<V>>)>)
    requires p.Valid() && evict < p.leaves && path == p.PathNodes(evict)
    requires c.params == p && c.zero == zero
    requires JoinedPages(metas, payloads, pages)
    modifies stash
    ensures var spec := EvictPath(c, old(stash[..]), pages, evict);
            && (r.Ok? <==> spec.Ok?)
            && (r.Ok? ==> stash[..] == spec.value.0 && JoinedPages(r.value.0, r.value.1, spec.value.1))
            && (r.Err? ==> r.error == StashOverflow && stash[..] == old(stash[..]))
  {
    hide SlotReach, Greedy, OramParams.NodeIndex;
    ghost var stash0 := stash[..];
    ghost var blocks := stash0 + Concat(pages);
    CandidatesJoin(stash0, metas, payloads, pages);
    var cands, indices := CollectCandidates(stash, metas);
    assert cands == SlotsOf(blocks);
    SlotReachesAgree(p, evict, cands, blocks);
    var selected, placements := PlanEvictionPlacements(p, evict, path, cands);
    NumberingAgrees(indices, stash.Length, metas, payloads, pages);
    var loaded := LoadPayloads(stash, indices, payloads, zero);
    assert Join(cands, loaded) == blocks;
    var fits := EnsureEvictionStashCapacity(stash, Concat(pages), cands, selected, zero);
    if fits.Err? {
      return Err(fits.error);
    }
    ClearSelected(stash, selected[..stash.Length], zero);
    var back := Leftovers(cands, loaded, selected, stash.Length, zero, Concat(pages));
    var reinserted := ReinsertLeftovers(stash, back);
    GreedyInRange(Reaches(p, evict, blocks), p.Height(), p.bucketSize);
    var newMetas, newPayloads := RebuildPages(placements, cands, loaded, zero);
    return Ok((newMetas, newPayloads));
  }

  lemma {:induction false} SameConcatLengths<S, T>(a: seq<seq<S>>, b: seq<seq<T>>, d: nat)
    requires |a| == |b| && d <= |a| && forall i :: 0 <= i < |a| ==> |a[i]| == |b[i]|
    ensures |Concat(a[..d])| == |Concat(b[..d])|
  {
    ConcatLengths(a[..d], b[..d]);
  }

  lemma NumberingAgrees<V>(indices: seq<seq<nat>>, base: nat, metas: seq<seq<Slot>>, payloads: seq<seq<V>>,
                           pages: Pages<V>)
    requires JoinedPages(metas, payloads, pages) && Numbering(indices, base, metas)
    ensures Numbering(indices, base, payloads)
  {
    forall d | 0 <= d < |payloads|
      ensures Offset(base, payloads, d) == Offset(base, metas, d) && |payloads[d]| == |metas[d]|
    {
      SameConcatLengths(metas, payloads, d);
    }
  }

  /** The path candidates the plan left over, in candidate order; selected ones become dummies. */
  method Leftovers<V>(cands: seq<Slot>, loaded: seq<V>, selected: seq<bool>, from: nat, zero: V,
                      ghost path: seq<Block<V>>)
    returns (back: seq<Block<V>>)
    requires |cands| == |loaded| == |selected| && from <= |cands|
    requires Join(cands, loaded)[from..] == path
    ensures back == Keep(path, selected[from..], zero)
  {
    back := [];
    for i := from to |cands|
      invariant |back| == i - from
      invariant forall k :: 0 <= k < |back| ==> back[k] == Keep(path, selected[from..], zero)[k]
    {
      assert path[i - from] == Join(cands, loaded)[i];
      var reinsert := !(cands[i].occupied && selected[i]);
      var block := Block(cands[i].occupied, cands[i].id, cands[i].leaf, loaded[i]);
      back := back + [if reinsert then block else Dummy(zero)];
    }
  }

  method RebuildPages<V>(placements: seq<Slots>, cands: seq<Slot>, loaded: seq<V>, zero: V)
    returns (metas: seq<seq<Slot>>, payloads: seq<seq<V>>)
    requires |cands| == |loaded| && InRange(placements, |cands|)
    ensures JoinedPages(metas, payloads, BuildPages(Join(cands, loaded), placements, zero))
  {
    metas, payloads := [], [];
    ghost var all := BuildPages(Join(cands, loaded), placements, zero);
    for d := 0 to |placements|
      invariant JoinedPages(metas, payloads, all[..d])
    {
      assert forall j :: 0 <= j < |placements[d]| && placements[d][j].Some? ==> placements[d][j].value < |cands|;
      var meta, pay := RebuildPage(placements[d], cands, loaded, zero);
      assert Join(meta, pay) == all[d];
      metas, payloads := metas + [meta], payloads + [pay];
    }
    assert all[..|placements|] == all;
  }

  method EvictPathInOverlays<V>(p: OramParams, ghost evict: nat, path: seq<nat>, stash: array<Block<V>>, zero: V,
                                mo: MetaOverlay, po: PayloadOverlay<V>, ghost c: Config<V>, ghost tree: Pages<V>)
    returns (r: Result<(MetaOverlay, PayloadOverlay<V>)>)
    requires p.Valid() && evict < p.leaves && path == p.PathNodes(evict)
    requires c.params == p && c.zero == zero
    requires ShowsTree(tree, mo, po) && Covered(mo, path) && DistinctPath(path, |tree|)
    modifies stash
    ensures var spec := EvictPath(c, old(stash[..]), ReadAll(tree, path), evict);
            && (r.Ok? <==> spec.Ok?)
            && (r.Ok? ==>
                  && stash[..] == spec.value.0 && |spec.value.1| == |path|
                  && r.value.0.Keys == mo.Keys
                  && ShowsTree(WriteAll(tree, path, spec.value.1, |path|), r.value.0, r.value.1))
            && (r.Err? ==> r.error == StashOverflow)
  {
    hide EvictPath;
    var metas := PathFromOverlay(path, mo);
    assert Covered(po, path);
    var payloads := PathFromOverlay(path, po);
    OverlayJoins(tree, path, mo, po, metas, payloads);
    var evicted := EvictPathPages(p, evict, path, stash, zero, metas, payloads, c, ReadAll(tree, path));
    if evicted.Err? {
      return Err(evicted.error);
    }
    ghost var pages := EvictPath(c, old(stash[..]), ReadAll(tree, path), evict).value.1;
    var mo' := StoreInOverlay(path, evicted.value.0, mo, |tree|);
    var po' := StoreInOverlay(path, evicted.value.1, po, |tree|);
    OverlayShowsWrite(tree, path, pages, mo, po, evicted.value.0, evicted.value.1, mo', po');
    return Ok((mo', po'));
  }
}
