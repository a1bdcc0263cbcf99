/** The split-store Circuit ORAM controller (src/circuit.rs, CircuitOram). Its methods update the
    position map, the fixed-slot stash and the two page stores in place; each is proved to compute
    the corresponding step of `OramSpec`. */
module Controller {
  import opened Common
  import opened Geometry
  import opened Blocks
  import opened Schedule
  import opened PageStores
  import opened PathOverlay
  import opened OramSpec
  import Spec = OramSpec
  import opened AccessRefinement
  import opened OramScans
  import opened OverlayOps
  import opened SplitStores
  import opened BatchSteps
  import opened RequestedPaths

  class CircuitOram<V(==)> {
    const params: OramParams
    const draws: nat -> nat
    const zero: V
    const metaStore: MemPageStore<seq<Slot>>
    const payloadStore: MemPageStore<seq<V>>
    const posMap: array<nat>
    const stash: array<Block<V>>
    const schedule: CircuitEvictionSchedule
    var rng: nat

    function Cfg(): Config<V> {
      Config(params, draws, zero)
    }

    ghost predicate Shape()
      reads this, metaStore.pages, payloadStore.pages
    {
      && metaStore.pages as object != payloadStore.pages as object
      && StoreShape(params, metaStore.pages[..], payloadStore.pages[..])
    }

    ghost function Tree(): Pages<V>
      requires Shape()
      reads this, metaStore.pages, payloadStore.pages
    {
      JoinAll(metaStore.pages[..], payloadStore.pages[..])
    }

    ghost function View(): State<V>
      requires Shape()
      reads this, posMap, stash, metaStore.pages, payloadStore.pages, schedule
    {
      State(posMap[..], stash[..], Tree(), rng, schedule.View())
    }

    ghost predicate Valid()
      reads this, posMap, stash, metaStore.pages, payloadStore.pages, schedule
    {
      Shape() && WellFormed(Cfg(), View())
    }

    constructor FromParts(params: OramParams, draws: nat -> nat, zero: V, metaStore: MemPageStore<seq<Slot>>,
                          payloadStore: MemPageStore<seq<V>>, posMap: array<nat>, stash: array<Block<V>>,
                          schedule: CircuitEvictionSchedule, rng: nat)
      ensures this.params == params && this.draws == draws && this.zero == zero && this.rng == rng
      ensures this.metaStore == metaStore && this.payloadStore == payloadStore
      ensures this.posMap == posMap && this.stash == stash && this.schedule == schedule
    {
      this.params, this.draws, this.zero := params, draws, zero;
      this.metaStore, this.payloadStore := metaStore, payloadStore;
      this.posMap, this.stash, this.schedule, this.rng := posMap, stash, schedule, rng;
    }

    method ReadPath(path: seq<nat>) returns (metas: seq<seq<Slot>>, payloads: seq<seq<V>>, ghost read: seq<seq<nat>>)
      requires Shape() && AllInRange(path, params.BucketCount())
      ensures metas == ReadAll(metaStore.pages[..], path) && payloads == ReadAll(payloadStore.pages[..], path)
      ensures read == [path]
    {
      var metaPages := metaStore.ReadPages(path);
      var payloadPages := payloadStore.ReadPages(path);
      return metaPages.value, payloadPages.value, [path];
    }

    method WritePath(path: seq<nat>, metas: seq<seq<Slot>>, payloads: seq<seq<V>>)
      returns (ghost written: seq<seq<nat>>)
      requires Shape() && AllInRange(path, params.BucketCount()) && |metas| == |payloads| == |path|
      modifies metaStore.pages, payloadStore.pages
      ensures metaStore.pages[..] == WriteAll(old(metaStore.pages[..]), path, metas, |path|)
      ensures payloadStore.pages[..] == WriteAll(old(payloadStore.pages[..]), path, payloads, |path|)
      ensures written == [path]
    {
      var wroteMeta := metaStore.WritePages(path, metas);
      var wrotePayload := payloadStore.WritePages(path, payloads);
      return [path];
    }

    /** Reads a path, moves the target from it to the stash, and rewrites every page of the path. */
    method ReadAndRemoveTargetPath(leaf: nat, id: nat) returns (r: Result<()>, ghost asked: Traffic)
      requires Valid() && leaf < params.leaves
      modifies stash, metaStore.pages, payloadStore.pages
      ensures Shape()
      ensures var spec := Fetch(Cfg(), old(stash[..]), old(Tree()), leaf, id);
              && (r.Ok? <==> spec.Ok?)
              && (r.Ok? ==> stash[..] == spec.value.0 && Tree() == spec.value.1)
              && (r.Err? ==> r.error == StashOverflow && stash[..] == old(stash[..]) && Tree() == old(Tree()))
      ensures asked == Traffic([params.PathNodes(leaf)], if r.Ok? then [params.PathNodes(leaf)] else [])
    {
      hide OramParams.NodeIndex, TakeFromPath;
      PathNodesDistinct(params, leaf);
      var path := params.PathNodes(leaf);
      ghost var tree := Tree();
      var metas, payloads;
      ghost var read, written;
      metas, payloads, read := ReadPath(path);
      JoinedRead(params, metaStore.pages[..], payloadStore.pages[..], path);
      var fetched := FetchFromPages(stash, metas, payloads, id, zero, ReadAll(tree, path));
      if fetched.Err? {
        return Err(fetched.error), Traffic(read, []);
      }
      ghost var pages := Fetched(old(stash[..]), ReadAll(tree, path), id, zero).value.1;
      FetchedSizes(params, old(stash[..]), tree, path, id, zero);
      JoinedWrite(params, metaStore.pages[..], payloadStore.pages[..], path, fetched.value.0, fetched.value.1, pages,
                  |path|);
      written := WritePath(path, fetched.value.0, fetched.value.1);
      return Ok(()), Traffic(read, written);
    }

    /** Reads and updates one block; eviction is left for later. An overflow leaves everything as it was. */
    method Access(id: nat, update: V -> V) returns (r: Result<V>, ghost asked: Traffic)
      requires Valid()
      modifies this`rng, posMap, stash, metaStore.pages, payloadStore.pages, schedule
      ensures var spec := Spec.Access(Cfg(), old(View()), id, update);
              && (r.Ok? <==> spec.Ok?)
              && (r.Ok? ==> Valid() && r.value == spec.value.0 && View() == spec.value.1)
              && (r.Err? ==> r.error == spec.error)
              && (r == Err(StashOverflow) ==> Valid() && View() == old(View()))
      ensures r.Ok? ==>
                && id < posMap.Length && rng == old(rng) + 1
                && posMap[..] == old(posMap[..])[id := posMap[id]]
                && Residue(draws(old(rng)), posMap[id], params.leaves)
                && schedule.View() == old(schedule.View()).(issued := old(schedule.View()).issued + 1)
                && asked == ThereAndBack(params, [old(posMap[..])[id]])
    {
      asked := SILENCE;
      hide Spec.Access, Fetch, OramParams.NodeIndex, ScanPayload, Restamp, Join, JoinAll;
      AccessCases(Cfg(), View(), id, update);
      if Spec.Access(Cfg(), View(), id, update).Ok? {
        AccessRelabels(Cfg(), View(), id, update);
      }
      if id >= params.logicalBlocks {
        return Err(InvalidInput), asked;
      }
      var oldLeaf := ScanPosMapLookup(posMap, id);
      var fetched;
      fetched, asked := ReadAndRemoveTargetPath(oldLeaf, id);
      if fetched.Err? {
        return Err(fetched.error), asked;
      }
      var newLeaf := RandomLeaf(Cfg(), rng);
      rng := rng + 1;
      r := Respond(posMap, stash, schedule, id, newLeaf, update, zero);
    }

    method ReadAndRewritePath(leaf: nat) returns (ghost asked: Traffic)
      requires Shape() && params.Valid() && leaf < params.leaves
      modifies metaStore.pages, payloadStore.pages
      ensures asked == ThereAndBack(params, [leaf])
      ensures metaStore.pages[..] == old(metaStore.pages[..]) && payloadStore.pages[..] == old(payloadStore.pages[..])
    {
      hide OramParams.NodeIndex;
      PathNodesDistinct(params, leaf);
      var path := params.PathNodes(leaf);
      var metas, payloads;
      ghost var read, written;
      metas, payloads, read := ReadPath(path);
      RewriteUnchanged(metaStore.pages[..], path, metas, |path|);
      RewriteUnchanged(payloadStore.pages[..], path, payloads, |path|);
      written := WritePath(path, metas, payloads);
      return Traffic(read, written);
    }

    /** An access that selects nothing: one random path is read and rewritten as it is. */
    method DummyAccess() returns (r: Result<()>, ghost asked: Traffic)
      requires Valid()
      modifies this`rng, metaStore.pages, payloadStore.pages, schedule
      ensures var spec := Spec.DummyAccess(Cfg(), old(View()));
              && (r.Ok? <==> spec.Ok?)
              && (r.Ok? ==> Valid() && View() == spec.value)
              && (r.Err? ==> r.error == spec.error)
      ensures asked == ThereAndBack(params, [RandomLeaf(Cfg(), old(rng))])
    {
      var leaf := RandomLeaf(Cfg(), rng);
      rng := rng + 1;
      asked := ReadAndRewritePath(leaf);
      var recorded := schedule.RecordAccess();
      if recorded.Err? {
        return Err(recorded.error), asked;
      }
      return Ok(()), asked;
    }

    /** Reads every page of several paths once into one overlay per store. */
    method ReadOverlays(paths: seq<seq<nat>>)
      returns (mo: MetaOverlay, po: PayloadOverlay<V>, ghost read: seq<seq<nat>>)
      requires Shape() && AllInRange(Concat(paths), params.BucketCount())
      ensures ShowsTree(Tree(), mo, po) && read == paths
      ensures OnlyListed(mo, paths) && OnlyListed(po, paths)
      ensures forall i :: 0 <= i < |paths| ==> Covered(mo, paths[i]) && Covered(po, paths[i])
    {
      hide Concat, Join;
      var metas := metaStore.ReadPathsPages(paths);
      var payloads := payloadStore.ReadPathsPages(paths);
      StoreReadsAgree(metaStore.pages[..], paths, metas.value, params.bucketSize);
      StoreReadsAgree(payloadStore.pages[..], paths, payloads.value, params.bucketSize);
      var metaOverlay := OverlayPathPages(paths, metas.value, params.bucketSize);
      var payloadOverlay := OverlayPathPages(paths, payloads.value, params.bucketSize);
      mo, po, read := metaOverlay.value, payloadOverlay.value, paths;
      ReadsMirrorStore(metaStore.pages[..], paths, metas.value, mo);
      ReadsMirrorStore(payloadStore.pages[..], paths, payloads.value, po);
      SameKeys(mo, po, paths);
    }

    /** Writes the overlays back along all paths, so that the stores hold `tree`. */
    method WriteOverlays(paths: seq<seq<nat>>, mo: MetaOverlay, po: PayloadOverlay<V>, ghost tree: Pages<V>)
      returns (ghost written: seq<seq<nat>>)
      requires Shape() && AllInRange(Concat(paths), params.BucketCount())
      requires OnlyListed(mo, paths) && OnlyListed(po, paths)
      requires forall i :: 0 <= i < |paths| ==> Covered(mo, paths[i]) && Covered(po, paths[i])
      requires TreeShape(params, tree) && ShowsTree(tree, mo, po)
      requires forall n :: 0 <= n < |tree| && n !in mo ==> tree[n] == Tree()[n]
      modifies metaStore.pages, payloadStore.pages
      ensures Shape() && Tree() == tree && written == paths
    {
      hide WriteAll, Concat, Join;
      ghost var metas0, payloads0 := metaStore.pages[..], payloadStore.pages[..];
      var metaPages := CollectOverlayPaths(paths, mo);
      var payloadPages := CollectOverlayPaths(paths, po);
      WriteBack(metas0, paths, metaPages.value, mo);
      WriteBack(payloads0, paths, payloadPages.value, po);
      var wroteMeta := metaStore.WritePathsPages(paths, metaPages.value);
      var wrotePayload := payloadStore.WritePathsPages(paths, payloadPages.value);
      StoresHoldTree(params, metas0, payloads0, metaStore.pages[..], payloadStore.pages[..], mo, po, tree);
      return paths;
    }

    /** Several accesses over one overlay: the same answers and the same final state as one access
        after the other with the same random draws. */
    method AccessBatch(ids: seq<nat>, update: (nat, nat, V) -> V) returns (r: Result<seq<V>>, ghost asked: Traffic)
      requires Valid()
      modifies this`rng, posMap, stash, metaStore.pages, payloadStore.pages, schedule
      ensures var spec := AccessAll(Cfg(), old(View()), ids, update, |ids|);
              && (r.Ok? <==> spec.Ok?)
              && (r.Ok? ==> Valid() && r.value == spec.value.0 && View() == spec.value.1)
              && (r.Err? ==> r.error == if AllInRange(ids, params.logicalBlocks) then spec.error else InvalidInput)
      ensures r.Ok? ==>
                && LabelsDrawn(draws, params.leaves, old(rng), ids, |ids|, old(posMap[..]), posMap[..], rng)
                && schedule.View() == old(schedule.View()).(issued := old(schedule.View()).issued + |ids|)
                && asked == ThereAndBack(params, BatchShown(Cfg(), old(View()), ids, update, |ids|))
    {
      ghost var c, s0 := Cfg(), View();
      EmptyBatch(c, s0, ids, update);
      hide OramParams.NodeIndex, Join, JoinAll, AccessAll, LabelsDrawn, BatchShown, ThereAndBack;
      asked := SILENCE;
      if |ids| == 0 {
        return Ok([]), asked;
      }
      for i := 0 to |ids|
        invariant forall k :: 0 <= k < i ==> ids[k] < params.logicalBlocks
      {
        if ids[i] >= params.logicalBlocks {
          OutOfRangeFails(c, s0, ids, update, i);
          return Err(InvalidInput), asked;
        }
      }
      r, asked := AccessInBatch(ids, update, s0);
      if r.Ok? {
        BatchRelabels(c, s0, ids, update, |ids|);
      }
    }

    /** A batch of ids in range: labels, paths, and the accesses along them. */
    method AccessInBatch(ids: seq<nat>, update: (nat, nat, V) -> V, ghost s0: State<V>)
      returns (r: Result<seq<V>>, ghost asked: Traffic)
      requires Valid() && s0 == View() && forall i :: 0 <= i < |ids| ==> ids[i] < params.logicalBlocks
      modifies this`rng, posMap, stash, metaStore.pages, payloadStore.pages, schedule
      ensures var spec := AccessAll(Cfg(), s0, ids, update, |ids|);
              && (r.Ok? <==> spec.Ok?)
              && (r.Ok? ==> Valid() && r.value == spec.value.0 && View() == spec.value.1)
              && (r.Err? ==> r.error == spec.error)
      ensures r.Ok? ==> asked == ThereAndBack(params, BatchShown(Cfg(), s0, ids, update, |ids|))
    {
      hide OramParams.NodeIndex, Join, JoinAll, AccessAll, BatchShown, ThereAndBack, LastLabel, RandomLeaf;
      ghost var c := Cfg();
      var oldLeaves := ScanPosMapLookupBatch(posMap, ids);
      var newLeaves := DrawLeaves(Cfg(), rng, |ids|);
      var leaves := BatchAccessLeaves(ids, oldLeaves, newLeaves);
      BatchLeavesInRange(c, s0, ids, newLeaves, leaves);
      var paths := PathsOf(params, leaves);
      if AccessAll(c, s0, ids, update, |ids|).Ok? {
        BatchPathsShown(c, s0, ids, update, newLeaves, leaves, paths);
      }
      r, asked := AccessAlongPaths(ids, update, newLeaves, leaves, paths, s0);
    }

    /** The overlay part of a batch: read, apply every access, relabel, write back. */
    method AccessAlongPaths(ids: seq<nat>, update: (nat, nat, V) -> V, newLeaves: seq<nat>, leaves: seq<nat>,
                            paths: seq<seq<nat>>, ghost s0: State<V>)
      returns (r: Result<seq<V>>, ghost asked: Traffic)
      requires Valid() && s0 == View()
      requires |ids| == |newLeaves| == |leaves| == |paths|
      requires forall i :: 0 <= i < |ids| ==> ids[i] < params.logicalBlocks
      requires Drawn(Cfg(), rng, newLeaves) && BatchLeaves(s0.pos, ids, newLeaves, leaves)
      requires forall i :: 0 <= i < |ids| ==> paths[i] == params.PathNodes(leaves[i])
      requires AllInRange(Concat(paths), params.BucketCount())
      modifies this`rng, posMap, stash, metaStore.pages, payloadStore.pages, schedule
      ensures var spec := AccessAll(Cfg(), s0, ids, update, |ids|);
              && (r.Ok? <==> spec.Ok?)
              && (r.Ok? ==> Valid() && r.value == spec.value.0 && View() == spec.value.1)
              && (r.Err? ==> r.error == spec.error)
      ensures r.Ok? ==> asked == Traffic(paths, paths)
    {
      hide OramParams.NodeIndex, Join, JoinAll, AccessAll;
      ghost var c := Cfg();
      var mo0, po0;
      ghost var read, written;
      mo0, po0, read := ReadOverlays(paths);
      var applied := ApplyAccesses(Cfg(), stash, schedule, ids, update, newLeaves, leaves, paths, mo0, po0, s0);
      if applied.Err? {
        return Err(applied.error), Traffic(read, []);
      }
      var (outputs, mo, po) := applied.value;
      ghost var s: State<V> := AccessAll(c, s0, ids, update, |ids|).value.1;
      BatchLabels(c, s0, s, ids, update, newLeaves, outputs, |ids|);
      KeysCover(mo0, mo, paths);
      KeysCover(po0, po, paths);
      written := CommitBatch(ids, newLeaves, paths, mo, po, s);
      return Ok(outputs), Traffic(read, written);
    }

    /** The end of a batch: labels, random position, and the pages written back. */
    method CommitBatch(ids: seq<nat>, newLeaves: seq<nat>, paths: seq<seq<nat>>, mo: MetaOverlay, po: PayloadOverlay<V>,
                       ghost s: State<V>)
      returns (ghost written: seq<seq<nat>>)
      requires Shape() && WellFormed(Cfg(), s) && stash[..] == s.stash && schedule.View() == s.sched
      requires |ids| == |newLeaves| && posMap.Length == params.logicalBlocks
      requires s.pos == Relabel(posMap[..], ids, newLeaves, |ids|) && s.rng == rng + |ids|
      requires AllInRange(Concat(paths), params.BucketCount())
      requires OnlyListed(mo, paths) && OnlyListed(po, paths)
      requires forall i :: 0 <= i < |paths| ==> Covered(mo, paths[i]) && Covered(po, paths[i])
      requires ShowsTree(s.tree, mo, po)
      requires forall n :: 0 <= n < |s.tree| && n !in mo ==> s.tree[n] == Tree()[n]
      modifies this`rng, posMap, metaStore.pages, payloadStore.pages
      ensures Valid() && View() == s && written == paths
    {
      hide OramParams.NodeIndex, Join, JoinAll, Concat, Relabel, Covered, OnlyListed, ShowsTree;
      ScanPosMapUpdateBatch(posMap, ids, newLeaves);
      rng := rng + |ids|;
      written := WriteOverlays(paths, mo, po, s.tree);
    }

    /** Several dummy accesses: their paths share one read and one write. */
    method DummyAccessBatch(count: nat) returns (r: Result<()>, ghost asked: Traffic)
      requires Valid()
      modifies this`rng, metaStore.pages, payloadStore.pages, schedule
      ensures var spec := DummyAll(Cfg(), old(View()), count);
              && (r.Ok? <==> spec.Ok?)
              && (r.Ok? ==> Valid() && View() == spec.value)
              && (r.Err? ==> r.error == spec.error)
      ensures asked == ThereAndBack(params, DummyShown(Cfg(), old(rng), count))
    {
      asked := SILENCE;
      hide OramParams.NodeIndex, Join, JoinAll, DummyAll, ThereAndBack;
      assert SILENCE == ThereAndBack(params, DummyShown(Cfg(), rng, 0)) by { NoDummiesShown(Cfg(), rng); }
      DummyAllClosedForm(Cfg(), View(), count);
      if count == 0 {
        return Ok(()), asked;
      }
      var leaves := DrawLeaves(Cfg(), rng, count);
      rng := rng + count;
      var paths := PathsOf(params, leaves);
      DrawnPathsShown(Cfg(), old(rng), leaves, paths);
      asked := RewritePaths(paths);
      r := RecordAccesses(schedule, count);
    }

    /** Several paths are read once and written back as they are. */
    method RewritePaths(paths: seq<seq<nat>>) returns (ghost asked: Traffic)
      requires Valid() && AllInRange(Concat(paths), params.BucketCount())
      modifies metaStore.pages, payloadStore.pages
      ensures Shape() && Tree() == old(Tree()) && asked == Traffic(paths, paths)
    {
      hide Join, JoinAll;
      ghost var tree := Tree();
      var mo, po;
      ghost var read, written;
      mo, po, read := ReadOverlays(paths);
      written := WriteOverlays(paths, mo, po, tree);
      return Traffic(read, written);
    }

    /** Drains up to `budget` scheduled evictions over one shared overlay: the same stash, stores and
        counters as draining them one at a time in schedule order. */
    method DrainEvictions(budget: nat) returns (r: Result<nat>, ghost asked: Traffic)
      requires Valid()
      modifies stash, metaStore.pages, payloadStore.pages, schedule
      ensures var spec := Spec.DrainEvictions(Cfg(), old(View()), budget);
              && (r.Ok? <==> spec.Ok?)
              && (r.Ok? ==> Valid() && r.value == spec.value.0 && View() == spec.value.1)
              && (r.Err? ==> r.error == spec.error)
      ensures r.Ok? ==>
                && r.value == DrainedFrom(old(schedule.View()), budget)
                && schedule.View() == old(schedule.View()).(completed := old(schedule.View()).completed + r.value)
                && 0 < params.LeafBits() <= 32
                && asked == ThereAndBack(params, DrainShown(params, old(schedule.View()).completed, r.value))
    {
      ghost var c, s0 := Cfg(), View();
      LeafBitsFit(params);
      SilenceShown(params, s0.sched.completed);
      DrainOutcome(c, s0, budget);
      PendingIsDebt(s0.sched, budget);
      hide OramParams.NodeIndex, OramParams.LeafBits, OramParams.Valid, Join, JoinAll, Spec.DrainEvictions, Drain,
           DrainedFrom, ThereAndBack, DrainShown, Counters.Pending, StoreShape;
      asked := SILENCE;
      var pending := schedule.View().Pending();
      if pending.Err? {
        return Err(pending.error), asked;
      }
      var toDrain := if budget < pending.value then budget else pending.value;
      if toDrain == 0 {
        return Ok(0), asked;
      }
      var applied;
      applied, asked := DrainPending(toDrain, s0);
      if applied.Err? {
        return Err(applied.error), asked;
      }
      return Ok(toDrain), asked;
    }

    /** Evicts the next `n` scheduled paths and records them as completed. */
    method DrainPending(n: nat, ghost s0: State<V>) returns (r: Result<()>, ghost asked: Traffic)
      requires Valid() && s0 == View() && s0.sched.completed + n <= U64_MAX && 0 < params.LeafBits() <= 32
      requires s0.sched.Pending().Ok? && n <= s0.sched.Pending().value
      modifies stash, metaStore.pages, payloadStore.pages, schedule
      ensures var spec := Drain(Cfg(), s0, n);
              && (r.Ok? <==> spec.Ok?)
              && (r.Ok? ==>
                    && Shape() && schedule.Valid()
                    && View() == State(s0.pos, spec.value.stash, spec.value.tree, s0.rng, s0.sched.Advance(n)))
              && (r.Err? ==> r.error == spec.error)
      ensures r.Ok? ==> asked == ThereAndBack(params, DrainShown(params, s0.sched.completed, n))
    {
      hide OramParams.NodeIndex, Join, JoinAll, Drain, ThereAndBack, DrainShown, Counters.Pending, StoreShape;
      r, asked := EvictScheduled(n, s0);
      if r.Ok? {
        CompleteEvictions(schedule, n);
      }
    }

    /** The next `n` scheduled evictions, over one overlay. */
    method EvictScheduled(n: nat, ghost s0: State<V>) returns (r: Result<()>, ghost asked: Traffic)
      requires Valid() && s0 == View() && s0.sched.completed + n <= U64_MAX && 0 < params.LeafBits() <= 32
      modifies stash, metaStore.pages, payloadStore.pages
      ensures var spec := Drain(Cfg(), s0, n);
              && (r.Ok? <==> spec.Ok?)
              && (r.Ok? ==> Shape() && stash[..] == spec.value.stash && Tree() == spec.value.tree)
              && (r.Err? ==> r.error == spec.error)
      ensures r.Ok? ==> asked == ThereAndBack(params, DrainShown(params, s0.sched.completed, n))
    {
      hide OramParams.NodeIndex, Join, JoinAll, Drain, ScheduledPaths, ThereAndBack, DrainShown;
      var paths := EvictionPaths(params, schedule, n);
      ScheduledPathsShown(params, s0.sched, paths);
      r, asked := EvictAlongPaths(n, paths, s0);
    }

    /** The overlay part of a drain: read, apply every eviction, write back. */
    method EvictAlongPaths(n: nat, paths: seq<seq<nat>>, ghost s0: State<V>)
      returns (r: Result<()>, ghost asked: Traffic)
      requires Valid() && s0 == View() && s0.sched.completed + n <= U64_MAX
      requires |paths| == n && ScheduledPaths(params, s0.sched, paths)
      requires AllInRange(Concat(paths), params.BucketCount())
      modifies stash, metaStore.pages, payloadStore.pages
      ensures var spec := Drain(Cfg(), s0, n);
              && (r.Ok? <==> spec.Ok?)
              && (r.Ok? ==> Shape() && stash[..] == spec.value.stash && Tree() == spec.value.tree)
              && (r.Err? ==> r.error == spec.error)
      ensures r.Ok? ==> asked == Traffic(paths, paths)
    {
      hide OramParams.NodeIndex, Join, JoinAll, Drain;
      var mo0, po0;
      ghost var read, written;
      mo0, po0, read := ReadOverlays(paths);
      var applied := ApplyEvictions(Cfg(), stash, n, paths, mo0, po0, s0);
      if applied.Err? {
        return Err(applied.error), Traffic(read, []);
      }
      var (mo, po) := applied.value;
      KeysCover(mo0, mo, paths);
      KeysCover(po0, po, paths);
      written := WriteOverlays(paths, mo, po, Drain(Cfg(), s0, n).value.tree);
      return Ok(()), Traffic(read, written);
    }

  }
}
