/** The steps of a batch and of a drain on page overlays, apart from any store (src/circuit.rs,
    access_batch and drain_evictions): each access, and each eviction, on what the earlier ones left. */
module BatchSteps {
  import opened Common
  import opened Geometry
  import opened Blocks
  import opened Schedule
  import opened PageStores
  import opened PathOverlay
  import opened OramSpec
  import Spec = OramSpec
  import opened AccessRefinement
  import opened OramScans
  import opened StashOps
  import opened OverlayOps
  import opened EvictionPlan

  /** One access of a batch, on the overlays. `s` is the state the earlier accesses have produced. */
  method AccessInOverlays<V>(c: Config<V>, stash: array<Block<V>>, schedule: CircuitEvictionSchedule, i: nat, id: nat,
                             update: (nat, nat, V) -> V, newLeaf: nat, path: seq<nat>,
                             mo: MetaOverlay, po: PayloadOverlay<V>, ghost s: State<V>)
    returns (r: Result<(V, MetaOverlay, PayloadOverlay<V>)>)
    requires WellFormed(c, s) && id < c.params.logicalBlocks
    requires newLeaf == RandomLeaf(c, s.rng) && path == c.params.PathNodes(s.pos[id])
    requires stash[..] == s.stash && schedule.View() == s.sched
    requires ShowsTree(s.tree, mo, po) && Covered(mo, path)
    modifies stash, schedule
    ensures var spec := Spec.Access(c, s, id, CallOf(update, i, id));
            && (r.Ok? <==> spec.Ok?)
            && (r.Ok? ==>
                  && r.value.0 == spec.value.0
                  && stash[..] == spec.value.1.stash && schedule.View() == spec.value.1.sched
                  && r.value.1.Keys == mo.Keys
                  && ShowsTree(spec.value.1.tree, r.value.1, r.value.2)
                  && SameElsewhere(spec.value.1.tree, s.tree, mo.Keys))
            && (r.Err? ==> r.error == spec.error)
  {
    hide OramParams.NodeIndex, TakeFromPath, Join, ScanPayload;
    PathIsDistinct(c.params, s.pos[id]);
    var removed := RemoveTargetFromOverlays(stash, path, id, c.zero, mo, po, s.tree);
    if removed.Err? {
      return Err(removed.error);
    }
    OffPathUnchanged(c, s, id, mo.Keys);
    var found, output := ScanStash(stash, id, c.zero);
    if !found {
      return Err(BlockNotFound(id));
    }
    RestampStash(stash, id, newLeaf, update(i, id, output));
    var recorded := schedule.RecordAccess();
    if recorded.Err? {
      return Err(recorded.error);
    }
    return Ok((output, removed.value.0, removed.value.1));
  }

  method DrawLeaves<V>(c: Config<V>, rng: nat, n: nat) returns (leaves: seq<nat>)
    requires c.params.leaves > 0
    ensures |leaves| == n && Drawn(c, rng, leaves)
  {
    leaves := [];
    for i := 0 to n
      invariant |leaves| == i && Drawn(c, rng, leaves)
    {
      leaves := leaves + [RandomLeaf(c, rng + i)];
    }
  }

  method PathsOf(p: OramParams, leaves: seq<nat>) returns (paths: seq<seq<nat>>)
    requires p.Valid() && forall i :: 0 <= i < |leaves| ==> leaves[i] < p.leaves
    ensures |paths| == |leaves| && forall i :: 0 <= i < |leaves| ==> paths[i] == p.PathNodes(leaves[i])
    ensures AllInRange(Concat(paths), p.BucketCount())
  {
    hide OramParams.NodeIndex;
    paths := [];
    for i := 0 to |leaves|
      invariant |paths| == i && forall k :: 0 <= k < i ==> paths[k] == p.PathNodes(leaves[k])
      invariant AllInRange(Concat(paths), p.BucketCount())
    {
      PathIsDistinct(p, leaves[i]);
      ConcatSnoc(paths, p.PathNodes(leaves[i]));
      paths := paths + [p.PathNodes(leaves[i])];
    }
  }

  /** The next access of a batch. */
  method BatchStep<V>(c: Config<V>, stash: array<Block<V>>, schedule: CircuitEvictionSchedule, i: nat, ids: seq<nat>,
                      update: (nat, nat, V) -> V, newLeaves: seq<nat>, path: seq<nat>,
                      mo: MetaOverlay, po: PayloadOverlay<V>, ghost keys: set<nat>,
                      ghost s0: State<V>, ghost s: State<V>, ghost outputs: seq<V>)
    returns (r: Result<(V, MetaOverlay, PayloadOverlay<V>)>)
    requires WellFormed(c, s0) && i < |ids| == |newLeaves| && Drawn(c, s0.rng, newLeaves)
    requires forall k :: 0 <= k < |ids| ==> ids[k] < c.params.logicalBlocks
    requires path == c.params.PathNodes(LastLabel(s0.pos[ids[i]], ids, newLeaves, i, ids[i]))
    requires forall d :: 0 <= d < |path| ==> path[d] in keys
    requires BatchProgress(c, s0, ids, update, i, outputs, s, stash[..], schedule.View(), mo, po, keys)
    modifies stash, schedule
    ensures r.Err? ==> AccessAll(c, s0, ids, update, |ids|) == Err(r.error)
    ensures r.Ok? ==>
              && WellFormed(c, s)
              && var spec := Spec.Access(c, s, ids[i], CallOf(update, i, ids[i]));
                 spec.Ok? && BatchProgress(c, s0, ids, update, i + 1, outputs + [r.value.0], spec.value.1,
                                           stash[..], schedule.View(), r.value.1, r.value.2, keys)
  {
    hide OramParams.NodeIndex, Join, Spec.Access, AccessAll;
    BatchLabels(c, s0, s, ids, update, newLeaves, outputs, i);
    AccessAllStep(c, s0, s, ids, update, outputs, i);
    r := AccessInOverlays(c, stash, schedule, i, ids[i], update, newLeaves[i], path, mo, po, s);
    if r.Err? {
      AccessAllErrStays(c, s0, ids, update, i + 1, |ids|);
    }
  }

  /** Applies every access of a batch to the overlays, in caller order. */
  method ApplyAccesses<V>(c: Config<V>, stash: array<Block<V>>, schedule: CircuitEvictionSchedule, ids: seq<nat>,
                          update: (nat, nat, V) -> V, newLeaves: seq<nat>, leaves: seq<nat>,
                          paths: seq<seq<nat>>, mo0: MetaOverlay, po0: PayloadOverlay<V>, ghost s0: State<V>)
    returns (r: Result<(seq<V>, MetaOverlay, PayloadOverlay<V>)>)
    requires WellFormed(c, s0) && stash[..] == s0.stash && schedule.View() == s0.sched
    requires |ids| == |newLeaves| == |leaves| == |paths|
    requires forall i :: 0 <= i < |ids| ==> ids[i] < c.params.logicalBlocks
    requires Drawn(c, s0.rng, newLeaves) && BatchLeaves(s0.pos, ids, newLeaves, leaves)
    requires forall i :: 0 <= i < |ids| ==> paths[i] == c.params.PathNodes(leaves[i]) && Covered(mo0, paths[i])
    requires ShowsTree(s0.tree, mo0, po0)
    modifies stash, schedule
    ensures r.Ok? <==> AccessAll(c, s0, ids, update, |ids|).Ok?
    ensures r.Err? ==> AccessAll(c, s0, ids, update, |ids|) == Err(r.error)
    ensures r.Ok? ==>
              BatchProgress(c, s0, ids, update, |ids|, r.value.0, AccessAll(c, s0, ids, update, |ids|).value.1,
                            stash[..], schedule.View(), r.value.1, r.value.2, mo0.Keys)
  {
    hide OramParams.NodeIndex, Spec.Access, BatchProgress, ShowsTree;
    BatchStart(c, s0, ids, update, mo0, po0);
    hide AccessAll, WellFormed;
    var mo, po := mo0, po0;
    var outputs: seq<V> := [];
    ghost var s := s0;
    for i := 0 to |ids|
      invariant BatchProgress(c, s0, ids, update, i, outputs, s, stash[..], schedule.View(), mo, po, mo0.Keys)
    {
      assert Covered(mo0, paths[i]);
      var step := BatchStep(c, stash, schedule, i, ids, update, newLeaves, paths[i], mo, po, mo0.Keys, s0, s, outputs);
      if step.Err? {
        return Err(step.error);
      }
      s := Spec.Access(c, s, ids[i], CallOf(update, i, ids[i])).value.1;
      outputs := outputs + [step.value.0];
      mo, po := step.value.1, step.value.2;
    }
    BatchEnd(c, s0, ids, update, outputs, s, stash[..], schedule.View(), mo, po, mo0.Keys);
    return Ok((outputs, mo, po));
  }

  /** One eviction of a drain, on the overlays. `s` is the state the earlier evictions have produced. */
  method EvictNextInOverlays<V>(c: Config<V>, stash: array<Block<V>>, path: seq<nat>,
                                mo: MetaOverlay, po: PayloadOverlay<V>, ghost s: State<V>)
    returns (r: Result<(MetaOverlay, PayloadOverlay<V>)>)
    requires WellFormed(c, s) && stash[..] == s.stash && s.sched.completed < U64_MAX
    requires path == c.params.PathNodes(s.sched.NextLeaf())
    requires ShowsTree(s.tree, mo, po) && Covered(mo, path)
    modifies stash
    ensures var spec := EvictNext(c, s);
            && (r.Ok? <==> spec.Ok?)
            && (r.Ok? ==>
                  && stash[..] == spec.value.stash && r.value.0.Keys == mo.Keys
                  && ShowsTree(spec.value.tree, r.value.0, r.value.1)
                  && SameElsewhere(spec.value.tree, s.tree, mo.Keys))
            && (r.Err? ==> r.error == spec.error)
  {
    hide OramParams.NodeIndex, Join, EvictPath, EvictNext, Evict, ShowsTree;
    ghost var evict := s.sched.NextLeaf();
    ScheduledLeafInRange(c.params, s.sched.completed);
    PathIsDistinct(c.params, evict);
    EvictNextUnfolds(c, s);
    r := EvictPathInOverlays(c.params, evict, path, stash, c.zero, mo, po, c, s.tree);
    if r.Ok? {
      EvictOffPath(c, s, evict, mo.Keys);
    }
  }

  /** The next eviction from the outcome on its path pages. */
  lemma EvictNextUnfolds<V>(c: Config<V>, s: State<V>)
    requires WellFormed(c, s) && s.sched.completed < U64_MAX
    ensures s.sched.NextLeaf() < c.params.leaves && DistinctPath(c.params.PathNodes(s.sched.NextLeaf()), |s.tree|)
    ensures var evict := s.sched.NextLeaf();
            var path := c.params.PathNodes(evict);
            var outcome := EvictPath(c, s.stash, ReadAll(s.tree, path), evict);
            && (Evict(c, s, evict).Ok? <==> outcome.Ok?) && (EvictNext(c, s).Ok? <==> outcome.Ok?)
            && (outcome.Err? ==> EvictNext(c, s) == Err(outcome.error))
            && (outcome.Ok? ==>
                  && EvictNext(c, s).value.stash == outcome.value.0
                  && EvictNext(c, s).value.tree == Evict(c, s, evict).value.tree
                  && |outcome.value.1| == |path|
                  && EvictNext(c, s).value.tree == WriteAll(s.tree, path, outcome.value.1, |path|))
            && (outcome.Err? ==> outcome.error == StashOverflow)
  {
    hide Greedy, InsertAll;
    ScheduledLeafInRange(c.params, s.sched.completed);
    PathIsDistinct(c.params, s.sched.NextLeaf());
  }

  /** Applies the next `n` scheduled evictions to the overlays. */
  method ApplyEvictions<V>(c: Config<V>, stash: array<Block<V>>, n: nat, paths: seq<seq<nat>>,
                           mo0: MetaOverlay, po0: PayloadOverlay<V>, ghost s0: State<V>)
    returns (r: Result<(MetaOverlay, PayloadOverlay<V>)>)
    requires WellFormed(c, s0) && stash[..] == s0.stash && s0.sched.completed + n <= U64_MAX
    requires |paths| == n && ScheduledPaths(c.params, s0.sched, paths)
    requires forall i :: 0 <= i < n ==> Covered(mo0, paths[i])
    requires ShowsTree(s0.tree, mo0, po0)
    modifies stash
    ensures r.Ok? <==> Drain(c, s0, n).Ok?
    ensures r.Err? ==> Drain(c, s0, n) == Err(r.error)
    ensures r.Ok? ==>
              DrainProgress(c, s0, n, Drain(c, s0, n).value, stash[..], r.value.0, r.value.1, mo0.Keys)
  {
    hide OramParams.NodeIndex, EvictNext, ShowsTree, SameElsewhere;
    var mo, po := mo0, po0;
    ghost var s := s0;
    DrainStart(c, s0, mo0, po0);
    hide Drain;
    for i := 0 to n
      invariant DrainProgress(c, s0, i, s, stash[..], mo, po, mo0.Keys)
    {
      assert Covered(mo0, paths[i]);
      assert Covered(mo, paths[i]);
      var step := EvictNextInOverlays(c, stash, paths[i], mo, po, s);
      DrainStep(c, s0, s, i, n);
      if step.Err? {
        return Err(step.error);
      }
      ghost var s' := EvictNext(c, s).value;
      StayElsewhere(s'.tree, s.tree, s0.tree, mo0.Keys);
      s := s';
      mo, po := step.value.0, step.value.1;
    }
    return Ok((mo, po));
  }

  method EvictionPaths(p: OramParams, schedule: CircuitEvictionSchedule, n: nat) returns (paths: seq<seq<nat>>)
    requires p.Valid()
    ensures |paths| == n && ScheduledPaths(p, schedule.View(), paths)
    ensures AllInRange(Concat(paths), p.BucketCount())
  {
    hide OramParams.NodeIndex, ReverseBitsMod, TrailingZeros, IsPowerOfTwo, Concat;
    var start := schedule.completedEvictions;
    var leaves: seq<nat> := [];
    LeafBitsFit(p);
    for offset := 0 to n
      invariant |leaves| == offset
      invariant forall i :: 0 <= i < offset ==>
                  leaves[i] < p.leaves && leaves[i] == ReverseBitsMod(start + i, p.LeafBits())
    {
      ScheduledLeafInRange(p, start + offset);
      leaves := leaves + [EvictionLeafAt(p, start + offset)];
    }
    paths := PathsOf(p, leaves);
  }

  /** Records accesses until one does not fit. */
  method RecordAccesses(schedule: CircuitEvictionSchedule, count: nat) returns (r: Result<()>)
    requires schedule.Valid()
    modifies schedule
    ensures schedule.Valid()
    ensures r.Ok? <==> old(schedule.View()).issued + count <= U64_MAX
    ensures r.Ok? ==> schedule.View() == old(schedule.View()).(issued := old(schedule.View()).issued + count)
    ensures r.Err? ==> r == Err(InvalidInput)
  {
    for i := 0 to count
      invariant schedule.Valid()
      invariant schedule.View() == old(schedule.View()).(issued := old(schedule.View()).issued + i)
    {
      var recorded := schedule.RecordAccess();
      if recorded.Err? {
        return Err(recorded.error);
      }
    }
    return Ok(());
  }

  /** A drain request as the evictions it pays for: labels and draws stay, the counter advances. */
  lemma DrainOutcome<V>(c: Config<V>, s: State<V>, budget: nat)
    requires WellFormed(c, s)
    ensures var spec := Spec.DrainEvictions(c, s, budget);
            && (s.sched.Pending().Err? ==> spec == Err(s.sched.Pending().error))
            && (s.sched.Pending().Ok? ==>
                  var n := if budget < s.sched.Pending().value then budget else s.sched.Pending().value;
                  && s.sched.completed + n <= U64_MAX
                  && (n == 0 ==> spec == Ok((0, s)))
                  && (Drain(c, s, n).Err? ==> spec == Err(Drain(c, s, n).error))
                  && (Drain(c, s, n).Ok? ==>
                        spec == Ok((n, State(s.pos, Drain(c, s, n).value.stash, Drain(c, s, n).value.tree, s.rng,
                                             s.sched.Advance(n))))))
  {
    hide EvictNext;
    if s.sched.Pending().Ok? {
      var n := if budget < s.sched.Pending().value then budget else s.sched.Pending().value;
      if Drain(c, s, n).Ok? {
        DrainKeepsLabels(c, s, n);
      }
    }
  }

  /** A drain request that succeeds completes the smaller of budget and debt, and touches no other counter, no
      label and no random position. */
  lemma DrainCounts<V>(c: Config<V>, s: State<V>, budget: nat)
    requires WellFormed(c, s) && Spec.DrainEvictions(c, s, budget).Ok?
    ensures var (n, s') := Spec.DrainEvictions(c, s, budget).value;
            && n == DrainedFrom(s.sched, budget) && s'.sched == s.sched.(completed := s.sched.completed + n)
            && s'.pos == s.pos && s'.rng == s.rng
  {
    hide Drain;
    DrainOutcome(c, s, budget);
  }

  /** The next eviction is of the path whose bucket at every depth `d` is the reversal of the low `d` bits of
      the number of evictions completed. */
  lemma NextEvictionScheduled<V>(c: Config<V>, s: State<V>) returns (evict: nat)
    requires WellFormed(c, s) && s.sched.completed < U64_MAX
    ensures evict < c.params.leaves
    ensures forall d: nat :: d < c.params.Height() ==>
              c.params.NodeIndex(d, evict) == Pow2(d) - 1 + ReverseBits(d, s.sched.completed % Pow2(d))
    ensures EvictNext(c, s).Ok? <==> Evict(c, s, evict).Ok?
    ensures EvictNext(c, s).Ok? ==>
              EvictNext(c, s).value == Evict(c, s, evict).value.(sched := s.sched.(completed := s.sched.completed + 1))
  {
    hide Evict, ReverseBits, ReverseBitsMod;
    ScheduledLeafInRange(c.params, s.sched.completed);
    evict := s.sched.NextLeaf();
    forall d: nat | d < c.params.Height()
      ensures c.params.NodeIndex(d, evict) == Pow2(d) - 1 + ReverseBits(d, s.sched.completed % Pow2(d))
    {
      EvictionNode(c.params, d, s.sched.completed);
    }
  }

  /** The last part of an access: the target, now in the stash, is read, relabelled and updated. */
  method Respond<V>(posMap: array<nat>, stash: array<Block<V>>, schedule: CircuitEvictionSchedule, id: nat,
                    newLeaf: nat, update: V -> V, zero: V) returns (r: Result<V>)
    requires schedule.Valid() && id < posMap.Length
    modifies posMap, stash, schedule
    ensures schedule.Valid()
    ensures var found, counted := ScanPayload(old(stash[..]), id), old(schedule.View()).Record();
            && (found.None? ==> r == Err(BlockNotFound(id)))
            && (found.Some? && counted.Err? ==> r == Err(counted.error))
            && (found.Some? && counted.Ok? ==>
                  && r == Ok(found.value) && schedule.View() == counted.value
                  && posMap[..] == old(posMap[..])[id := newLeaf]
                  && stash[..] == Restamp(old(stash[..]), id, newLeaf, update(found.value)))
  {
    hide ScanPayload, Restamp;
    var found, output := ScanStash(stash, id, zero);
    if !found {
      return Err(BlockNotFound(id));
    }
    ScanPosMapUpdate(posMap, id, newLeaf);
    RestampStash(stash, id, newLeaf, update(output));
    var recorded := schedule.RecordAccess();
    if recorded.Err? {
      return Err(recorded.error);
    }
    return Ok(output);
  }

  method CompleteEvictions(schedule: CircuitEvictionSchedule, n: nat)
    requires schedule.Valid() && schedule.View().Pending().Ok? && n <= schedule.View().Pending().value
    modifies schedule
    ensures schedule.Valid() && schedule.View() == old(schedule.View()).Advance(n)
  {
    for i := 0 to n
      invariant schedule.Valid() && schedule.View() == old(schedule.View()).Advance(i)
    {
      var completed := schedule.CompleteOneEviction();
    }
  }

  ghost predicate SameElsewhere<V>(tree: Pages<V>, before: Pages<V>, keys: set<nat>) {
    |tree| == |before| && forall n :: 0 <= n < |tree| && n !in keys ==> tree[n] == before[n]
  }

  /** The next `|leaves|` random labels from position `rng`. */
  ghost predicate Drawn<V>(c: Config<V>, rng: nat, leaves: seq<nat>) {
    c.params.leaves > 0 && forall i :: 0 <= i < |leaves| ==> leaves[i] == RandomLeaf(c, rng + i)
  }

  /** Every access of a batch reads the path of the label its id has at that moment. */
  ghost predicate BatchLeaves(pos: seq<nat>, ids: seq<nat>, newLeaves: seq<nat>, leaves: seq<nat>) {
    && |ids| == |newLeaves| == |leaves|
    && forall i :: 0 <= i < |ids| ==> ids[i] < |pos| && leaves[i] == LastLabel(pos[ids[i]], ids, newLeaves, i, ids[i])
  }

  lemma KeysCover<P>(before: map<nat, P>, after: map<nat, P>, paths: seq<seq<nat>>)
    requires after.Keys == before.Keys && OnlyListed(before, paths)
    requires forall i :: 0 <= i < |paths| ==> Covered(before, paths[i])
    ensures OnlyListed(after, paths)
    ensures forall i :: 0 <= i < |paths| ==> Covered(after, paths[i])
  {
    forall i | 0 <= i < |paths|
      ensures Covered(after, paths[i])
    {
      assert Covered(before, paths[i]);
    }
    forall n | n in after
      ensures exists i :: 0 <= i < |paths| && n in paths[i]
    {
      assert n in before;
    }
  }

  /** An access changes only pages of its path. */
  lemma OffPathUnchanged<V>(c: Config<V>, s: State<V>, id: nat, keys: set<nat>)
    requires WellFormed(c, s) && id < c.params.logicalBlocks
    requires Fetch(c, s.stash, s.tree, s.pos[id], id).Ok?
    requires forall d :: 0 <= d < c.params.Height() ==> c.params.PathNodes(s.pos[id])[d] in keys
    ensures SameElsewhere(Fetch(c, s.stash, s.tree, s.pos[id], id).value.1, s.tree, keys)
  {
    var path := c.params.PathNodes(s.pos[id]);
    PathIsDistinct(c.params, s.pos[id]);
    var pages := Fetched(s.stash, ReadAll(s.tree, path), id, c.zero).value.1;
    WritePathFrame(s.tree, path, pages, |path|);
    assert path[..|path|] == path;
  }

  /** After `i` accesses of a batch, stash, schedule and overlays show the state the accesses produce. */
  ghost predicate BatchProgress<V>(c: Config<V>, s0: State<V>, ids: seq<nat>, g: (nat, nat, V) -> V, i: nat,
                                   outputs: seq<V>, s: State<V>, stash: seq<Block<V>>, sched: Counters,
                                   mo: MetaOverlay, po: PayloadOverlay<V>, keys: set<nat>)
    requires WellFormed(c, s0) && i <= |ids|
  {
    && AccessAll(c, s0, ids, g, i) == Ok((outputs, s))
    && WellFormed(c, s) && stash == s.stash && sched == s.sched
    && mo.Keys == keys && ShowsTree(s.tree, mo, po) && SameElsewhere(s.tree, s0.tree, keys)
  }

  lemma BatchStart<V>(c: Config<V>, s0: State<V>, ids: seq<nat>, g: (nat, nat, V) -> V, mo: MetaOverlay,
                      po: PayloadOverlay<V>)
    requires WellFormed(c, s0) && ShowsTree(s0.tree, mo, po)
    ensures BatchProgress(c, s0, ids, g, 0, [], s0, s0.stash, s0.sched, mo, po, mo.Keys)
  {
  }

  lemma BatchEnd<V>(c: Config<V>, s0: State<V>, ids: seq<nat>, g: (nat, nat, V) -> V, outputs: seq<V>, s: State<V>,
                    stash: seq<Block<V>>, sched: Counters, mo: MetaOverlay, po: PayloadOverlay<V>, keys: set<nat>)
    requires WellFormed(c, s0)
    requires BatchProgress(c, s0, ids, g, |ids|, outputs, s, stash, sched, mo, po, keys)
    ensures AccessAll(c, s0, ids, g, |ids|) == Ok((outputs, s))
  {
  }

  lemma AccessAllStep<V>(c: Config<V>, s0: State<V>, s: State<V>, ids: seq<nat>, g: (nat, nat, V) -> V, outs: seq<V>,
                         i: nat)
    requires WellFormed(c, s0) && i < |ids| && AccessAll(c, s0, ids, g, i) == Ok((outs, s))
    ensures WellFormed(c, s)
    ensures var r := Spec.Access(c, s, ids[i], CallOf(g, i, ids[i]));
            && (r.Ok? ==> AccessAll(c, s0, ids, g, i + 1) == Ok((outs + [r.value.0], r.value.1)))
            && (r.Err? ==> AccessAll(c, s0, ids, g, i + 1) == Err(r.error))
  {
    hide Spec.Access;
  }

  lemma {:induction false} AccessAllErrStays<V>(c: Config<V>, s: State<V>, ids: seq<nat>, g: (nat, nat, V) -> V, k: nat,
                                                m: nat)
    requires WellFormed(c, s) && k <= m <= |ids| && AccessAll(c, s, ids, g, k).Err?
    ensures AccessAll(c, s, ids, g, m) == Err(AccessAll(c, s, ids, g, k).error)
    decreases m
  {
    hide Spec.Access;
    if k < m {
      AccessAllErrStays(c, s, ids, g, k, m - 1);
    }
  }

  lemma OutOfRangeFails<V>(c: Config<V>, s: State<V>, ids: seq<nat>, g: (nat, nat, V) -> V, i: nat)
    requires WellFormed(c, s) && i < |ids| && ids[i] >= c.params.logicalBlocks
    ensures AccessAll(c, s, ids, g, |ids|).Err?
  {
    AccessAllErrStays(c, s, ids, g, i + 1, |ids|);
  }

  lemma {:induction false} LastLabelInRange(leaf: nat, ids: seq<nat>, leaves: seq<nat>, k: nat, idx: nat, n: nat)
    requires k <= |ids| == |leaves| && leaf < n && forall i :: 0 <= i < |leaves| ==> leaves[i] < n
    ensures LastLabel(leaf, ids, leaves, k, idx) < n
  {
    if k > 0 {
      LastLabelInRange(leaf, ids, leaves, k - 1, idx, n);
    }
  }

  lemma BatchLeavesInRange<V>(c: Config<V>, s: State<V>, ids: seq<nat>, newLeaves: seq<nat>, leaves: seq<nat>)
    requires WellFormed(c, s) && BatchLeaves(s.pos, ids, newLeaves, leaves) && Drawn(c, s.rng, newLeaves)
    ensures forall i :: 0 <= i < |leaves| ==> leaves[i] < c.params.leaves
  {
    forall i | 0 <= i < |leaves|
      ensures leaves[i] < c.params.leaves
    {
      LastLabelInRange(s.pos[ids[i]], ids, newLeaves, i, ids[i], c.params.leaves);
    }
  }

  lemma AccessLabels<V>(c: Config<V>, s: State<V>, id: nat, f: V -> V)
    requires WellFormed(c, s) && Spec.Access(c, s, id, f).Ok?
    ensures id < |s.pos|
    ensures var s' := Spec.Access(c, s, id, f).value.1;
            s'.pos == s.pos[id := RandomLeaf(c, s.rng)] && s'.rng == s.rng + 1
  {
    hide Fetch, ScanPayload, Restamp;
  }

  /** What `k` accesses make of the labels: each id asked for has the label drawn for its last access, the
      others keep theirs, and one draw was used per access. */
  ghost predicate LabelsDrawn(draws: nat -> nat, leaves: nat, rng: nat, ids: seq<nat>, k: nat, before: seq<nat>,
                              after: seq<nat>, rng': nat)
    requires k <= |ids|
  {
    && leaves > 0
    && |after| == |before| && rng' == rng + k
    && (forall x :: 0 <= x < |before| && (forall i :: 0 <= i < k ==> ids[i] != x) ==> after[x] == before[x])
    && forall i :: 0 <= i < k ==>
         && ids[i] < |after|
         && ((forall j :: i < j < k ==> ids[j] != ids[i]) ==> Residue(draws(rng + i), after[ids[i]], leaves))
  }

  /** A completed access gives its id the next drawn label, in the position map and on its block. */
  lemma AccessRelabels<V>(c: Config<V>, s: State<V>, id: nat, f: V -> V)
    requires WellFormed(c, s) && Spec.Access(c, s, id, f).Ok?
    ensures var s' := Spec.Access(c, s, id, f).value.1;
            && id < |s.pos| && s'.rng == s.rng + 1 && s'.sched == s.sched.(issued := s.sched.issued + 1)
            && s'.pos == s.pos[id := s'.pos[id]] && Residue(c.draws(s.rng), s'.pos[id], c.params.leaves)
            && forall i :: 0 <= i < |s'.stash| && Holds(s'.stash[i], id) ==> s'.stash[i].leaf == s'.pos[id]
  {
    hide Fetch, ScanPayload;
  }

  /** So does every access of a batch. */
  lemma {:induction false} BatchRelabels<V>(c: Config<V>, s: State<V>, ids: seq<nat>, g: (nat, nat, V) -> V, k: nat)
    requires WellFormed(c, s) && k <= |ids| && AccessAll(c, s, ids, g, k).Ok?
    ensures var s' := AccessAll(c, s, ids, g, k).value.1;
            && LabelsDrawn(c.draws, c.params.leaves, s.rng, ids, k, s.pos, s'.pos, s'.rng) && s'.rng == s.rng + k
            && s'.sched == s.sched.(issued := s.sched.issued + k)
    decreases k
  {
    hide Spec.Access, LabelsDrawn;
    NoLabelsDrawn(c.draws, c.params.leaves, s.rng, ids, s.pos);
    if k > 0 {
      BatchRelabels(c, s, ids, g, k - 1);
      var mid := AccessAll(c, s, ids, g, k - 1).value.1;
      AccessRelabels(c, mid, ids[k - 1], CallOf(g, k - 1, ids[k - 1]));
      var last := Spec.Access(c, mid, ids[k - 1], CallOf(g, k - 1, ids[k - 1])).value.1;
      OneMoreLabel(c.draws, c.params.leaves, s.rng, ids, k, s.pos, mid.pos, last.pos);
    }
  }

  lemma NoLabelsDrawn(draws: nat -> nat, leaves: nat, rng: nat, ids: seq<nat>, pos: seq<nat>)
    requires leaves > 0
    ensures LabelsDrawn(draws, leaves, rng, ids, 0, pos, pos, rng)
  {
  }

  lemma OneMoreLabel(draws: nat -> nat, leaves: nat, rng: nat, ids: seq<nat>, k: nat, before: seq<nat>, mid: seq<nat>,
                     after: seq<nat>)
    requires 0 < k <= |ids| && LabelsDrawn(draws, leaves, rng, ids, k - 1, before, mid, rng + k - 1)
    requires ids[k - 1] < |mid| && |after| == |mid| && after == mid[ids[k - 1] := after[ids[k - 1]]]
    requires Residue(draws(rng + k - 1), after[ids[k - 1]], leaves)
    ensures LabelsDrawn(draws, leaves, rng, ids, k, before, after, rng + k)
  {
    hide Residue;
    forall i | 0 <= i < k
      ensures ids[i] < |after|
      ensures (forall j :: i < j < k ==> ids[j] != ids[i]) ==> Residue(draws(rng + i), after[ids[i]], leaves)
    {
      LabelKept(draws, leaves, rng, ids, k, before, mid, after, i);
    }
    forall x | 0 <= x < |before| && (forall i :: 0 <= i < k ==> ids[i] != x)
      ensures after[x] == before[x]
    {
      assert ids[k - 1] != x;
    }
  }

  lemma LabelKept(draws: nat -> nat, leaves: nat, rng: nat, ids: seq<nat>, k: nat, before: seq<nat>, mid: seq<nat>,
                  after: seq<nat>, i: nat)
    requires i < k <= |ids| && LabelsDrawn(draws, leaves, rng, ids, k - 1, before, mid, rng + k - 1)
    requires ids[k - 1] < |mid| && |after| == |mid| && after == mid[ids[k - 1] := after[ids[k - 1]]]
    requires Residue(draws(rng + k - 1), after[ids[k - 1]], leaves)
    ensures ids[i] < |after|
    ensures (forall j :: i < j < k ==> ids[j] != ids[i]) ==> Residue(draws(rng + i), after[ids[i]], leaves)
  {
    hide Residue;
    if i < k - 1 && (forall j :: i < j < k ==> ids[j] != ids[i]) {
      assert ids[k - 1] != ids[i];
      assert Residue(draws(rng + i), mid[ids[i]], leaves);
    }
  }

  /** After `i` accesses of a batch the labels are the batch relabelling, and `i` draws were used. */
  lemma {:induction false} BatchLabels<V>(c: Config<V>, s0: State<V>, s: State<V>, ids: seq<nat>, g: (nat, nat, V) -> V,
                                         newLeaves: seq<nat>, outs: seq<V>, i: nat)
    requires WellFormed(c, s0) && i <= |ids| == |newLeaves| && Drawn(c, s0.rng, newLeaves)
    requires forall k :: 0 <= k < |ids| ==> ids[k] < c.params.logicalBlocks
    requires AccessAll(c, s0, ids, g, i) == Ok((outs, s))
    ensures s.pos == Relabel(s0.pos, ids, newLeaves, i) && s.rng == s0.rng + i
    ensures i < |ids| ==> s.pos[ids[i]] == LastLabel(s0.pos[ids[i]], ids, newLeaves, i, ids[i])
    decreases i
  {
    hide Spec.Access;
    if i > 0 {
      var (outs', s') := AccessAll(c, s0, ids, g, i - 1).value;
      BatchLabels(c, s0, s', ids, g, newLeaves, outs', i - 1);
      AccessLabels(c, s', ids[i - 1], CallOf(g, i - 1, ids[i - 1]));
    }
    if i < |ids| {
      RelabelEntry(s0.pos, ids, newLeaves, i, ids[i]);
    }
  }

  lemma {:induction false} DummyAllClosedForm<V>(c: Config<V>, s: State<V>, k: nat)
    requires WellFormed(c, s)
    ensures DummyAll(c, s, k).Ok? <==> s.sched.issued + k <= U64_MAX
    ensures DummyAll(c, s, k).Err? ==> DummyAll(c, s, k) == Err(InvalidInput)
    ensures DummyAll(c, s, k).Ok? ==>
              DummyAll(c, s, k).value == s.(rng := s.rng + k, sched := s.sched.(issued := s.sched.issued + k))
    decreases k
  {
    if k > 0 {
      DummyAllClosedForm(c, s, k - 1);
    }
  }

  ghost predicate ScheduledPaths(p: OramParams, sched: Counters, paths: seq<seq<nat>>) {
    && p.Valid() && 0 < p.LeafBits() <= 32
    && forall i :: 0 <= i < |paths| ==> paths[i] == p.PathNodes(ReverseBitsMod(sched.completed + i, p.LeafBits()))
  }

  /** After `i` evictions of a drain, stash and overlays show the state the evictions produce. */
  ghost predicate DrainProgress<V>(c: Config<V>, s0: State<V>, i: nat, s: State<V>, stash: seq<Block<V>>,
                                   mo: MetaOverlay, po: PayloadOverlay<V>, keys: set<nat>)
    requires WellFormed(c, s0) && s0.sched.completed + i <= U64_MAX
  {
    && Drain(c, s0, i) == Ok(s)
    && WellFormed(c, s) && stash == s.stash && s.sched == s0.sched.Advance(i)
    && mo.Keys == keys && ShowsTree(s.tree, mo, po) && SameElsewhere(s.tree, s0.tree, keys)
  }

  lemma DrainStart<V>(c: Config<V>, s0: State<V>, mo: MetaOverlay, po: PayloadOverlay<V>)
    requires WellFormed(c, s0) && ShowsTree(s0.tree, mo, po)
    ensures DrainProgress(c, s0, 0, s0, s0.stash, mo, po, mo.Keys)
  {
  }

  lemma DrainStep<V>(c: Config<V>, s0: State<V>, s: State<V>, i: nat, n: nat)
    requires WellFormed(c, s0) && i < n && s0.sched.completed + n <= U64_MAX
    requires Drain(c, s0, i) == Ok(s)
    ensures WellFormed(c, s) && s.sched == s0.sched.Advance(i)
    ensures EvictNext(c, s).Ok? ==> Drain(c, s0, i + 1) == EvictNext(c, s)
    ensures EvictNext(c, s).Err? ==> Drain(c, s0, n) == Err(EvictNext(c, s).error)
  {
    hide EvictNext;
    if EvictNext(c, s).Err? {
      DrainErrStays(c, s0, i + 1, n);
    }
  }

  lemma {:induction false} DrainErrStays<V>(c: Config<V>, s: State<V>, k: nat, n: nat)
    requires WellFormed(c, s) && k <= n && s.sched.completed + n <= U64_MAX && Drain(c, s, k).Err?
    ensures Drain(c, s, n) == Err(Drain(c, s, k).error)
    decreases n
  {
    hide EvictNext;
    if k < n {
      DrainErrStays(c, s, k, n - 1);
    }
  }

  lemma StayElsewhere<V>(c: Pages<V>, b: Pages<V>, a: Pages<V>, keys: set<nat>)
    requires SameElsewhere(c, b, keys) && SameElsewhere(b, a, keys)
    ensures SameElsewhere(c, a, keys)
  {
  }

  /** An eviction changes only pages of its path. */
  lemma EvictOffPath<V>(c: Config<V>, s: State<V>, evict: nat, keys: set<nat>)
    requires WellFormed(c, s) && evict < c.params.leaves && Evict(c, s, evict).Ok?
    requires forall d :: 0 <= d < c.params.Height() ==> c.params.PathNodes(evict)[d] in keys
    ensures SameElsewhere(Evict(c, s, evict).value.tree, s.tree, keys)
  {
    hide EvictPath;
    var path := c.params.PathNodes(evict);
    PathIsDistinct(c.params, evict);
    var pages := EvictPath(c, s.stash, ReadAll(s.tree, path), evict).value.1;
    WritePathFrame(s.tree, path, pages, |path|);
    assert path[..|path|] == path;
  }

  lemma {:induction false} DrainKeepsLabels<V>(c: Config<V>, s: State<V>, n: nat)
    requires WellFormed(c, s) && s.sched.completed + n <= U64_MAX && Drain(c, s, n).Ok?
    ensures Drain(c, s, n).value.pos == s.pos && Drain(c, s, n).value.rng == s.rng
    decreases n
  {
    hide EvictPath;
    if n > 0 {
      DrainKeepsLabels(c, s, n - 1);
    }
  }
}
