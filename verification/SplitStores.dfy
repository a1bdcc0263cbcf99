/** Metadata and payload stores seen as one tree of blocks (src/circuit.rs, the split stores of
    CircuitOram). */
module SplitStores {
  import opened Geometry
  import opened Blocks
  import opened PageStores
  import opened PathOverlay
  import opened OramSpec
  import opened OramScans
  import opened EvictionOps
  import opened OverlayOps

  /** Both stores have one page per bucket and one slot per bucket slot. */
  ghost predicate StoreShape<V>(p: OramParams, metas: seq<seq<Slot>>, payloads: seq<seq<V>>) {
    && |metas| == |payloads| == p.BucketCount()
    && (forall n :: 0 <= n < |metas| ==> |metas[n]| == p.bucketSize)
    && (forall n :: 0 <= n < |payloads| ==> |payloads[n]| == p.bucketSize)
  }

  function JoinAll<V>(metas: seq<seq<Slot>>, payloads: seq<seq<V>>): (tree: Pages<V>)
    requires |metas| == |payloads| && forall n :: 0 <= n < |metas| ==> |metas[n]| == |payloads[n]|
    ensures |tree| == |metas|
    ensures forall n :: 0 <= n < |tree| ==> tree[n] == Join(metas[n], payloads[n])
  {
    seq(|metas|, n requires 0 <= n < |metas| => Join(metas[n], payloads[n]))
  }

  /** The metadata half of a tree. */
  function MetaOf<V>(tree: Pages<V>): (metas: seq<seq<Slot>>)
    ensures |metas| == |tree| && forall n :: 0 <= n < |tree| ==> metas[n] == SlotsOf(tree[n])
  {
    seq(|tree|, n requires 0 <= n < |tree| => SlotsOf(tree[n]))
  }

  /** The payload half of a tree. */
  function PayloadOf<V>(tree: Pages<V>): (payloads: seq<seq<V>>)
    ensures |payloads| == |tree| && forall n :: 0 <= n < |tree| ==> payloads[n] == PayloadsOf(tree[n])
  {
    seq(|tree|, n requires 0 <= n < |tree| => PayloadsOf(tree[n]))
  }

  /** Joined stores can be told apart again. */
  lemma SplitJoined<V>(metas: seq<seq<Slot>>, payloads: seq<seq<V>>)
    requires |metas| == |payloads| && forall n :: 0 <= n < |metas| ==> |metas[n]| == |payloads[n]|
    ensures MetaOf(JoinAll(metas, payloads)) == metas && PayloadOf(JoinAll(metas, payloads)) == payloads
  {
    hide JoinAll;
    var tree := JoinAll(metas, payloads);
    forall n | 0 <= n < |metas|
      ensures SlotsOf(tree[n]) == metas[n] && PayloadsOf(tree[n]) == payloads[n]
    {
      assert tree[n] == Join(metas[n], payloads[n]);
    }
  }

  /** Writing both stores along a path writes the joined pages of that path. */
  lemma {:induction false} JoinedWrite<V>(p: OramParams, metas: seq<seq<Slot>>, payloads: seq<seq<V>>, path: seq<nat>,
                                         newMetas: seq<seq<Slot>>, newPayloads: seq<seq<V>>, pages: Pages<V>, k: nat)
    requires StoreShape(p, metas, payloads) && AllInRange(path, |metas|) && k <= |path|
    requires |pages| == |path| && JoinedPages(newMetas, newPayloads, pages) && PageSizes(p, pages)
    ensures StoreShape(p, WriteAll(metas, path, newMetas, k), WriteAll(payloads, path, newPayloads, k))
    ensures JoinAll(WriteAll(metas, path, newMetas, k), WriteAll(payloads, path, newPayloads, k)) ==
            WriteAll(JoinAll(metas, payloads), path, pages, k)
  {
    if k > 0 {
      JoinedWrite(p, metas, payloads, path, newMetas, newPayloads, pages, k - 1);
      assert pages[k - 1] == Join(newMetas[k - 1], newPayloads[k - 1]);
    }
  }

  lemma JoinedRead<V>(p: OramParams, metas: seq<seq<Slot>>, payloads: seq<seq<V>>, path: seq<nat>)
    requires StoreShape(p, metas, payloads) && AllInRange(path, |metas|)
    ensures JoinedPages(ReadAll(metas, path), ReadAll(payloads, path), ReadAll(JoinAll(metas, payloads), path))
  {
  }

  lemma FetchedSizes<V>(p: OramParams, stash: seq<Block<V>>, tree: Pages<V>, path: seq<nat>, id: nat, zero: V)
    requires TreeShape(p, tree) && AllInRange(path, |tree|)
    ensures var r := Fetched(stash, ReadAll(tree, path), id, zero);
            r.Ok? ==> PageSizes(p, r.value.1)
  {
    TakeFromPathEffect(ReadAll(tree, path), id, zero);
  }

  lemma SameKeys<V>(mo: MetaOverlay, po: PayloadOverlay<V>, paths: seq<seq<nat>>)
    requires OnlyListed(mo, paths) && OnlyListed(po, paths)
    requires forall i :: 0 <= i < |paths| ==> Covered(mo, paths[i]) && Covered(po, paths[i])
    ensures mo.Keys == po.Keys
  {
    forall n | n in mo
      ensures n in po
    {
      var i :| 0 <= i < |paths| && n in paths[i];
      assert Covered(po, paths[i]);
    }
    forall n | n in po
      ensures n in mo
    {
      var i :| 0 <= i < |paths| && n in paths[i];
      assert Covered(mo, paths[i]);
    }
  }

  /** Stores that agree with the overlays on their pages and are unchanged elsewhere hold the tree. */
  lemma StoresHoldTree<V>(p: OramParams, metas0: seq<seq<Slot>>, payloads0: seq<seq<V>>, metas: seq<seq<Slot>>,
                          payloads: seq<seq<V>>, mo: MetaOverlay, po: PayloadOverlay<V>, tree: Pages<V>)
    requires StoreShape(p, metas0, payloads0) && TreeShape(p, tree) && ShowsTree(tree, mo, po)
    requires |metas| == |metas0| && forall n :: 0 <= n < |metas| ==> metas[n] == if n in mo then mo[n] else metas0[n]
    requires |payloads| == |payloads0|
    requires forall n :: 0 <= n < |payloads| ==> payloads[n] == if n in po then po[n] else payloads0[n]
    requires forall n :: 0 <= n < |tree| && n !in mo ==> tree[n] == JoinAll(metas0, payloads0)[n]
    ensures StoreShape(p, metas, payloads) && JoinAll(metas, payloads) == tree
  {
    forall n | 0 <= n < |metas|
      ensures |metas[n]| == p.bucketSize && |payloads[n]| == p.bucketSize && Join(metas[n], payloads[n]) == tree[n]
    {
      assert |tree[n]| == p.bucketSize;
    }
  }
}
