/** The Circuit ORAM stress simulator (src/stress.rs, CircuitStressSim and stress_circuit) and its
    agreement with the controller's eviction planner. */
module StressSim {
  import opened Common
  import opened Geometry
  import opened Schedule
  import opened Blocks
  import opened PageStores
  import opened SlotTable
  import opened EvictionPlan
  import Spec = OramSpec
  import EvictionRefinement
  import opened SimSpec
  import opened SimTables
  import opened SimEviction

  /** Ids and labels of the real blocks of a list of controller slots. */
  function LabelsOf<V>(bs: seq<Block<V>>): seq<SimBlock> {
    if bs == [] then []
    else
      var last := bs[|bs| - 1];
      LabelsOf(bs[..|bs| - 1]) + (if last.occupied then [SimBlock(last.id, last.leaf)] else [])
  }

  lemma {:induction false} LabelsAppend<V>(a: seq<Block<V>>, b: seq<Block<V>>)
    ensures LabelsOf(a + b) == LabelsOf(a) + LabelsOf(b)
    decreases |b|
  {
    if b == [] {
      assert a + b == a;
    } else {
      LabelsAppend(a, b[..|b| - 1]);
      assert (a + b)[..|a + b| - 1] == a + b[..|b| - 1];
    }
  }

  lemma {:induction false} LabelsCount<V>(bs: seq<Block<V>>)
    ensures |LabelsOf(bs)| == Occupied(bs)
    decreases |bs|
  {
    if bs != [] {
      var n := |bs| - 1;
      LabelsCount(bs[..n]);
      OccupiedSnoc(bs[..n], bs[n]);
      assert bs == bs[..n] + [bs[n]];
    }
  }

  ghost predicate LabelsInRange<V>(p: OramParams, bs: seq<Block<V>>) {
    forall i :: 0 <= i < |bs| && bs[i].occupied ==> bs[i].leaf < p.leaves
  }

  /** One more candidate counts as its label does. */
  lemma CandidateStep<V>(p: OramParams, evict: nat, init: seq<Block<V>>, last: Block<V>, d: nat)
    requires p.leaves > 0 && (last.occupied ==> last.leaf < p.leaves)
    ensures Eligible(Spec.Reaches(p, evict, init + [last]), d) ==
            Eligible(Spec.Reaches(p, evict, init), d) + (if d < Spec.Reach(p, evict, last) then 1 else 0)
    ensures Eligible(SimReaches(p, evict, LabelsOf(init + [last])), d) ==
            Eligible(SimReaches(p, evict, LabelsOf(init)), d) + (if d < Spec.Reach(p, evict, last) then 1 else 0)
  {
    var cands := init + [last];
    assert cands[..|init|] == init;
    assert Spec.Reaches(p, evict, cands)[..|init|] == Spec.Reaches(p, evict, init);
    hide Spec.ReachFrom;
    if last.occupied {
      DivUnique(last.leaf, p.leaves, 0, last.leaf);
      var labels := SimReaches(p, evict, LabelsOf(cands));
      assert labels[..|labels| - 1] == SimReaches(p, evict, LabelsOf(init));
    } else {
      assert LabelsOf(cands) == LabelsOf(init);
    }
  }

  /** The planner's candidates are counted as their labels are. */
  lemma {:induction false} CandidatesCount<V>(p: OramParams, evict: nat, cands: seq<Block<V>>, d: nat)
    requires p.leaves > 0 && LabelsInRange(p, cands)
    ensures Eligible(Spec.Reaches(p, evict, cands), d) == Eligible(SimReaches(p, evict, LabelsOf(cands)), d)
    decreases |cands|
  {
    if cands != [] {
      var n := |cands| - 1;
      CandidatesCount(p, evict, cands[..n], d);
      CandidateStep(p, evict, cands[..n], cands[n], d);
      hide Eligible, LabelsOf;
      assert cands == cands[..n] + [cands[n]];
    }
  }

  lemma CancelOne<T>(a: multiset<T>, b: multiset<T>, x: T)
    requires a + multiset{x} == b + multiset{x}
    ensures a == b
  {
    assert a == (a + multiset{x}) - multiset{x};
    assert b == (b + multiset{x}) - multiset{x};
  }

  lemma MatchLast<T>(a: seq<T>, b: seq<T>) returns (j: nat)
    requires a != [] && multiset(a) == multiset(b)
    ensures j < |b| && b[j] == a[|a| - 1]
    ensures multiset(a[..|a| - 1]) == multiset(SwapRemove(b, j))
  {
    var n := |a| - 1;
    SwapRemoveBag(a, n);
    assert SwapRemove(a, n) == a[..n];
    assert a[n] in multiset(b);
    j :| 0 <= j < |b| && b[j] == a[n];
    SwapRemoveBag(b, j);
    CancelOne(multiset(a[..n]), multiset(SwapRemove(b, j)), a[n]);
  }

  /** Counting does not depend on the order of the pool. */
  lemma {:induction false} CountIgnoresOrder(p: OramParams, leaf: nat, a: seq<SimBlock>, b: seq<SimBlock>, d: nat)
    requires multiset(a) == multiset(b)
    ensures |a| == |b|
    ensures Eligible(SimReaches(p, leaf, a), d) == Eligible(SimReaches(p, leaf, b), d)
    decreases |a|
  {
    hide SimReach;
    if a == [] {
      assert |multiset(b)| == 0;
    } else {
      var n := |a| - 1;
      var j := MatchLast(a, b);
      CountIgnoresOrder(p, leaf, a[..n], SwapRemove(b, j), d);
      assert SimReaches(p, leaf, a)[..n] == SimReaches(p, leaf, a[..n]);
      assert SimReaches(p, leaf, SwapRemove(b, j)) == SwapRemove(SimReaches(p, leaf, b), j);
      EligibleSwapRemove(SimReaches(p, leaf, b), j, d);
    }
  }

  /** Only the counts matter for what each depth receives. */
  lemma {:induction false} CapacityFromCounts(a: seq<nat>, b: seq<nat>, k: nat, h: nat, z: nat)
    requires k <= h && forall d :: 0 <= d < h ==> Eligible(a, d) == Eligible(b, d)
    ensures Capacity(a, k, h, z) == Capacity(b, k, h, z)
    decreases h - k
  {
    if k < h { CapacityFromCounts(a, b, k + 1, h, z); }
  }

  /** The simulator's table shows the same blocks, under the same labels, as stash and path pages. */
  ghost predicate SamePlacement<V>(p: OramParams, pos: seq<nat>, leaf: nat, slots: seq<nat>, simStash: seq<SimBlock>,
                                   stash: seq<Block<V>>, pages: seq<seq<Block<V>>>)
    requires p.Valid() && leaf < p.leaves && |slots| == TableSize(p) && Labelled(slots, pos)
  {
    && |pages| == p.Height()
    && multiset(simStash) == multiset(LabelsOf(stash))
    && forall d :: 0 <= d < p.Height() ==> SameAtDepth(p, pos, leaf, slots, pages, d)
  }

  ghost predicate SameAtDepth<V>(p: OramParams, pos: seq<nat>, leaf: nat, slots: seq<nat>, pages: seq<seq<Block<V>>>,
                                 d: nat)
    requires p.Valid() && leaf < p.leaves && |slots| == TableSize(p) && Labelled(slots, pos)
    requires d < p.Height() == |pages|
  {
    NodeIndexRange(p, d, leaf);
    LabelledBucket(p, slots, pos, p.NodeIndex(d, leaf));
    multiset(BlocksOf(BucketSlots(p, slots, p.NodeIndex(d, leaf)), pos)) == multiset(LabelsOf(pages[d]))
  }

  lemma {:induction false} SamePathBlocks<V>(p: OramParams, pos: seq<nat>, leaf: nat, slots: seq<nat>,
                                             pages: seq<seq<Block<V>>>, i: nat)
    requires p.Valid() && leaf < p.leaves && |slots| == TableSize(p) && Labelled(slots, pos)
    requires |pages| == p.Height() && i <= p.Height()
    requires forall d :: 0 <= d < p.Height() ==> SameAtDepth(p, pos, leaf, slots, pages, d)
    ensures multiset(PathBlocks(p, pos, leaf, slots, i)) == multiset(LabelsOf(Concat(pages[..i])))
    decreases i
  {
    hide TableSize, BlocksOf, BucketSlots, OramParams.NodeIndex, LabelsOf, Concat, SameAtDepth;
    if i == 0 {
      NoPages(pages);
    } else {
      SamePathBlocks(p, pos, leaf, slots, pages, i - 1);
      assert pages[..i] == pages[..i - 1] + [pages[i - 1]];
      ConcatSnoc(pages[..i - 1], pages[i - 1]);
      LabelsAppend(Concat(pages[..i - 1]), pages[i - 1]);
      BucketAtDepth(p, pos, leaf, slots, pages, i - 1);
      JoinBags(PathBlocks(p, pos, leaf, slots, i - 1), BlocksOf(BucketSlots(p, slots, p.NodeIndex(i - 1, leaf)), pos),
        LabelsOf(Concat(pages[..i - 1])), LabelsOf(pages[i - 1]));
    }
  }

  lemma NoPages<V>(pages: seq<seq<Block<V>>>)
    ensures LabelsOf(Concat(pages[..0])) == []
  {
  }

  lemma BucketAtDepth<V>(p: OramParams, pos: seq<nat>, leaf: nat, slots: seq<nat>, pages: seq<seq<Block<V>>>, d: nat)
    requires p.Valid() && leaf < p.leaves && |slots| == TableSize(p) && Labelled(slots, pos)
    requires d < p.Height() == |pages| && SameAtDepth(p, pos, leaf, slots, pages, d)
    ensures p.NodeIndex(d, leaf) < p.BucketCount() && Labelled(BucketSlots(p, slots, p.NodeIndex(d, leaf)), pos)
    ensures multiset(BlocksOf(BucketSlots(p, slots, p.NodeIndex(d, leaf)), pos)) == multiset(LabelsOf(pages[d]))
  {
    hide TableSize, BlocksOf, BucketSlots, OramParams.NodeIndex, LabelsOf;
    NodeIndexRange(p, d, leaf);
    LabelledBucket(p, slots, pos, p.NodeIndex(d, leaf));
  }

  lemma JoinBags<T>(a: seq<T>, b: seq<T>, x: seq<T>, y: seq<T>)
    requires multiset(a) == multiset(x) && multiset(b) == multiset(y)
    ensures multiset(a + b) == multiset(x + y)
  {
  }

  /** Simulator pool and planner candidates give every depth the same capacity. */
  lemma SameCapacity<V>(p: OramParams, pos: seq<nat>, leaf: nat, slots: seq<nat>, simStash: seq<SimBlock>,
                        stash: seq<Block<V>>, pages: seq<seq<Block<V>>>, k: nat)
    requires p.Valid() && leaf < p.leaves && |slots| == TableSize(p) && Labelled(slots, pos) && k <= p.Height()
    requires SamePlacement(p, pos, leaf, slots, simStash, stash, pages)
    requires LabelsInRange(p, EvictionRefinement.Candidates(stash, pages))
    ensures var pool := simStash + PathBlocks(p, pos, leaf, slots, p.Height());
            var cands := EvictionRefinement.Candidates(stash, pages);
            && |pool| == Occupied(cands)
            && Capacity(SimReaches(p, leaf, pool), k, p.Height(), p.bucketSize) ==
               Capacity(Spec.Reaches(p, leaf, cands), k, p.Height(), p.bucketSize)
  {
    hide TableSize, Eligible, SameAtDepth, LabelsOf;
    var pool := simStash + PathBlocks(p, pos, leaf, slots, p.Height());
    var cands := EvictionRefinement.Candidates(stash, pages);
    SamePathBlocks(p, pos, leaf, slots, pages, p.Height());
    assert pages[..p.Height()] == pages;
    LabelsAppend(stash, Concat(pages));
    LabelsCount(cands);
    assert multiset(pool) == multiset(LabelsOf(cands));
    forall d | 0 <= d < p.Height()
      ensures Eligible(SimReaches(p, leaf, pool), d) == Eligible(Spec.Reaches(p, leaf, cands), d)
    {
      CandidatesCount(p, leaf, cands, d);
      CountIgnoresOrder(p, leaf, pool, LabelsOf(cands), d);
    }
    CountIgnoresOrder(p, leaf, pool, LabelsOf(cands), 0);
    CapacityFromCounts(SimReaches(p, leaf, pool), Spec.Reaches(p, leaf, cands), k, p.Height(), p.bucketSize);
  }

  lemma {:induction false} OccupiedSuffix<V>(pages: seq<seq<Block<V>>>, d: nat)
    requires d < |pages|
    ensures OccupiedAll(pages[d..]) == Occupied(pages[d]) + OccupiedAll(pages[d + 1..])
  {
    assert pages[d..][1..] == pages[d + 1..];
  }

  /** From the same placement and labels, the simulator's read-then-refill and the controller's planner
      leave equally many blocks in the stash and at every depth of the path. */
  lemma SimulatorMatchesPlanner<V>(c: Spec.Config<V>, pos: seq<nat>, leaf: nat, slots0: seq<nat>,
                                   simStash0: seq<SimBlock>, slots: seq<nat>, simStash: seq<SimBlock>,
                                   stash: seq<Block<V>>, pages: seq<seq<Block<V>>>)
    requires c.params.Valid() && leaf < c.params.leaves
    requires Evicted(c.params, pos, leaf, slots0, simStash0, slots, simStash)
    requires SamePlacement(c.params, pos, leaf, slots0, simStash0, stash, pages)
    requires LabelsInRange(c.params, EvictionRefinement.Candidates(stash, pages))
    requires EvictionRefinement.PathPlaced(c.params, leaf, pages)
    ensures Spec.EvictPath(c, stash, pages, leaf).Ok?
    ensures var (stash', pages') := Spec.EvictPath(c, stash, pages, leaf).value;
            && |simStash| == Occupied(stash')
            && |pages'| == c.params.Height()
            && forall d :: 0 <= d < c.params.Height() ==> DepthLoad(c.params, leaf, slots, d) == Occupied(pages'[d])
  {
    hide TableSize, Capacity, SamePlacement, DepthLoad, PathBlocks, OramParams.NodeIndex, OramParams.PathNodes, NodeOf,
         Spec.EvictPath;
    var p, h, z := c.params, c.params.Height(), c.params.bucketSize;
    EvictionRefinement.EvictNeverGrowsStash(c, stash, pages, leaf);
    var (stash', pages') := Spec.EvictPath(c, stash, pages, leaf).value;
    var reach := Spec.Reaches(p, leaf, EvictionRefinement.Candidates(stash, pages));
    forall d | 0 <= d < h
      ensures DepthLoad(p, leaf, slots, d) == Occupied(pages'[d])
    {
      PlannedCapacity(c, stash, pages, leaf, d);
      PlannedCapacity(c, stash, pages, leaf, d + 1);
      SameCapacity(p, pos, leaf, slots0, simStash0, stash, pages, d);
      SameCapacity(p, pos, leaf, slots0, simStash0, stash, pages, d + 1);
      OccupiedSuffix(pages', d);
    }
    SameCapacity(p, pos, leaf, slots0, simStash0, stash, pages, 0);
    PlannedCapacity(c, stash, pages, leaf, 0);
    assert pages'[0..] == pages';
    StashRemainder(c, stash, pages, leaf);
  }

  lemma PlannedCapacity<V>(c: Spec.Config<V>, stash: seq<Block<V>>, pages: seq<seq<Block<V>>>, leaf: nat, k: nat)
    requires c.params.leaves > 0 && k <= c.params.Height() && Spec.EvictPath(c, stash, pages, leaf).Ok?
    requires EvictionRefinement.PathPlaced(c.params, leaf, pages)
    ensures OccupiedAll(Spec.EvictPath(c, stash, pages, leaf).value.1[k..]) ==
            Capacity(Spec.Reaches(c.params, leaf, EvictionRefinement.Candidates(stash, pages)), k, c.params.Height(),
                     c.params.bucketSize)
  {
    hide Spec.EvictPath, Capacity;
    EvictionRefinement.ArrangementIsValid(c, stash, pages, leaf);
    EvictionRefinement.EvictIsOptimal(c, stash, pages, leaf, EvictionRefinement.Arrange(pages, |stash|), k);
  }

  lemma StashRemainder<V>(c: Spec.Config<V>, stash: seq<Block<V>>, pages: seq<seq<Block<V>>>, leaf: nat)
    requires c.params.leaves > 0 && Spec.EvictPath(c, stash, pages, leaf).Ok?
    ensures var (stash', pages') := Spec.EvictPath(c, stash, pages, leaf).value;
            Occupied(stash') + OccupiedAll(pages') == Occupied(EvictionRefinement.Candidates(stash, pages))
  {
    hide Spec.EvictPath;
    var (stash', pages') := Spec.EvictPath(c, stash, pages, leaf).value;
    EvictionRefinement.EvictConserves(c, stash, pages, leaf);
    OccupiedIsCard(stash');
    OccupiedAllIsCard(pages');
    OccupiedIsCard(EvictionRefinement.Candidates(stash, pages));
    RealConcat(stash, Concat(pages));
    EvictionRefinement.ConcatReal(pages);
    assert |Real(stash') + RealAll(pages')| == |Real(stash) + RealAll(pages)|;
  }

  class CircuitStressSim {
    const table: SimTable
    const initStash: nat

    ghost predicate Valid()
      reads this, table, table.slots, table.positionMap
    {
      table.Valid(FirstIds(table.params.logicalBlocks)) && table.params.Valid()
    }

    ghost function State(): (s: TableState)
      reads this, table, table.slots, table.positionMap
      ensures s.stash == table.stash
    {
      TableState(table.slots[..], table.positionMap[..], table.stash)
    }

    constructor (params: OramParams, draws: nat -> nat)
      requires params.Valid() && params.logicalBlocks <= EMPTY_SLOT
      ensures Valid() && table.params == params && table.draws == draws && initStash == |table.stash|
      ensures StartsAs(params, draws, State())
      ensures fresh(table) && fresh(table.slots) && fresh(table.positionMap)
    {
      var t := new SimTable(params, draws);
      this.table := t;
      this.initStash := |t.stash|;
    }

    method Access(id: nat, rng: nat) returns (r: Result<()>)
      requires Valid() && id < table.params.logicalBlocks
      modifies table`stash, table.slots, table.positionMap
      ensures r.Ok? && Valid()
      ensures TableAccessed(table.params, old(State()), id, table.draws(rng), State())
      ensures |table.stash| <= |old(table.stash)| + 1
    {
      hide TakenOut, Residue;
      var oldLeaf := table.Access(id, rng);
      return Ok(());
    }

    /** Reads the path into the stash and refills it; the outcome counts as the planner's. */
    method EvictPath(leaf: nat)
      requires Valid() && leaf < table.params.leaves
      modifies table`stash, table.slots
      ensures Valid()
      ensures Evicted(table.params, table.positionMap[..], leaf, old(table.slots[..]), old(table.stash),
                      table.slots[..], table.stash)
      ensures TableEvicted(table.params, old(State()), leaf, State())
      ensures |table.stash| <= |old(table.stash)|
    {
      hide PathRead, Evicted;
      Start(leaf);
      ReadPathIntoStash(leaf);
      WritePathFromStash(table, leaf, old(table.slots[..]), old(table.stash), FirstIds(table.params.logicalBlocks));
      assert TableShape(table.params, old(table.slots[..]), old(table.positionMap[..]));
      EvictionNeverGrows(table.params, table.positionMap[..], leaf, old(table.slots[..]), old(table.stash),
                         table.slots[..], table.stash);
    }

    lemma Start(leaf: nat)
      requires Valid() && leaf < table.params.leaves
      ensures PathRead(table.params, table.positionMap[..], leaf, table.slots[..], table.stash, 0, table.slots[..],
                       table.stash)
    {
      ReadStart(table.params, table.positionMap[..], leaf, table.slots[..], table.stash);
    }

    method ReadPathIntoStash(leaf: nat)
      requires Valid() && leaf < table.params.leaves
      requires PathRead(table.params, table.positionMap[..], leaf, table.slots[..], table.stash, 0, table.slots[..],
                        table.stash)
      modifies table`stash, table.slots
      ensures Valid()
      ensures PathRead(table.params, table.positionMap[..], leaf, old(table.slots[..]), old(table.stash),
                       table.params.Height(), table.slots[..], table.stash)
    {
      hide OramParams.NodeIndex, SimSpec.Holds, PathRead, FirstIds;
      for d := 0 to table.params.Height()
        invariant Valid()
        invariant PathRead(table.params, table.positionMap[..], leaf, old(table.slots[..]), old(table.stash), d,
                           table.slots[..], table.stash)
      {
        ReadPathBucket(table, leaf, d, old(table.slots[..]), old(table.stash), FirstIds(table.params.logicalBlocks));
      }
    }
  }

  /** Where a simulation starts: every id placed under its drawn label. */
  ghost predicate StartsAs(p: OramParams, draws: nat -> nat, s: TableState)
    requires p.Valid()
  {
    && (s.slots, s.stash) == InitialTable(p, draws, p.logicalBlocks)
    && |s.pos| == p.logicalBlocks && forall i :: 0 <= i < |s.pos| ==> Residue(draws(i), s.pos[i], p.leaves)
  }

  /** From state `a` to state `b` the evictions `first` to `first + n - 1` of the schedule took place, one path
      after the other; `trail` lists the states. */
  ghost predicate EvictionsOf(p: OramParams, first: nat, n: nat, a: TableState, trail: seq<TableState>, b: TableState) {
    && 0 < p.LeafBits() <= 32 && |trail| == n + 1 && trail[0] == a && trail[n] == b
    && forall k :: 0 <= k < n ==> TableEvicted(p, trail[k], EvictionLeafAt(p, first + k), trail[k + 1])
  }

  lemma OneMoreEviction(p: OramParams, first: nat, n: nat, a: TableState, trail: seq<TableState>, b: TableState,
                        c: TableState)
    requires EvictionsOf(p, first, n, a, trail, b) && TableEvicted(p, b, EvictionLeafAt(p, first + n), c)
    ensures EvictionsOf(p, first, n + 1, a, trail + [c], c)
  {
    hide TableEvicted, EvictionLeafAt;
    forall k | 0 <= k < n + 1
      ensures TableEvicted(p, (trail + [c])[k], EvictionLeafAt(p, first + k), (trail + [c])[k + 1])
    {
      if k < n {
        assert TableEvicted(p, trail[k], EvictionLeafAt(p, first + k), trail[k + 1]);
      }
    }
  }

  lemma MoreEvictions(p: OramParams, first: nat, m: nat, n: nat, a: TableState, trail: seq<TableState>, b: TableState,
                      more: seq<TableState>, c: TableState)
    requires EvictionsOf(p, first, m, a, trail, b) && EvictionsOf(p, first + m, n, b, more, c)
    ensures more != [] && EvictionsOf(p, first, m + n, a, trail + more[1..], c)
  {
    hide TableEvicted, EvictionLeafAt;
    var all := trail + more[1..];
    forall k | 0 <= k < m + n
      ensures TableEvicted(p, all[k], EvictionLeafAt(p, first + k), all[k + 1])
    {
      if k < m {
        assert TableEvicted(p, trail[k], EvictionLeafAt(p, first + k), trail[k + 1]);
      } else {
        var l := k - m;
        assert TableEvicted(p, more[l], EvictionLeafAt(p, first + m + l), more[l + 1]);
        assert all[k] == more[l] && all[k + 1] == more[l + 1];
      }
    }
  }

  lemma FirstOfTrail(p: OramParams, first: nat, n: nat, a: TableState, trail: seq<TableState>, b: TableState)
    requires EvictionsOf(p, first, n, a, trail, b)
    ensures trail != [] && trail[0] == a
  {
  }

  lemma NoEvictions(p: OramParams, first: nat, a: TableState)
    requires p.Valid()
    ensures EvictionsOf(p, first, 0, a, [a], a)
  {
    EvictionNode(p, 0, 0);
  }

  /** Drains scheduled evictions into the simulator, at most `budget` and at most the debt. */
  method DrainPublicEvictions(sim: CircuitStressSim, schedule: CircuitEvictionSchedule, budget: nat)
    returns (r: Result<nat>, ghost trail: seq<TableState>)
    requires sim.Valid() && schedule.Valid() && schedule.leafBits == sim.table.params.LeafBits()
    modifies schedule, sim.table`stash, sim.table.slots
    ensures sim.Valid() && schedule.Valid()
    ensures |sim.table.stash| <= |old(sim.table.stash)|
    ensures r.Err? <==> budget > 0 && old(schedule.View()).Pending().Err?
    ensures r.Ok? && budget > 0 ==>
              && r.value == Min(budget, old(schedule.View()).Pending().value)
              && schedule.View() == old(schedule.View()).Advance(r.value)
    ensures budget == 0 ==> r == Ok(0) && schedule.View() == old(schedule.View())
    ensures r.Ok? ==>
              EvictionsOf(sim.table.params, old(schedule.View()).completed, r.value, old(sim.State()), trail,
                          sim.State())
  {
    ghost var view0, start := schedule.View(), sim.State();
    trail := [start];
    DrainingStarts(sim, schedule);
    hide Draining, CircuitStressSim.Valid, Evicted, EvictionsOf, TableEvicted;
    var drained: nat := 0;
    var i := 0;
    while i < budget
      invariant i <= budget && drained == i && Draining(sim, schedule, view0, start, trail, drained)
      invariant drained > 0 ==> view0.Pending().Ok? && drained <= view0.Pending().value
    {
      var next;
      next, trail := DrainOne(sim, schedule, view0, start, trail, drained);
      if next.Err? {
        DrainedSoFar(sim, schedule, view0, start, trail, drained);
        return Err(next.error), trail;
      }
      if !next.value {
        DrainedSoFar(sim, schedule, view0, start, trail, drained);
        return Ok(drained), trail;
      }
      drained := drained + 1;
      i := i + 1;
    }
    DrainedSoFar(sim, schedule, view0, start, trail, drained);
    return Ok(drained), trail;
  }

  /** `n` evictions were completed since the counters were `view0` and the table `start`. */
  ghost predicate Draining(sim: CircuitStressSim, schedule: CircuitEvictionSchedule, view0: Counters, start: TableState,
                           trail: seq<TableState>, n: nat)
    reads sim, sim.table, sim.table.slots, sim.table.positionMap, schedule
  {
    && sim.Valid() && schedule.Valid() && schedule.leafBits == sim.table.params.LeafBits()
    && schedule.View() == view0.Advance(n) && |sim.table.stash| <= |start.stash|
    && EvictionsOf(sim.table.params, view0.completed, n, start, trail, sim.State())
  }

  lemma DrainedSoFar(sim: CircuitStressSim, schedule: CircuitEvictionSchedule, view0: Counters, start: TableState,
                     trail: seq<TableState>, n: nat)
    requires Draining(sim, schedule, view0, start, trail, n)
    ensures sim.Valid() && schedule.Valid() && schedule.View() == view0.Advance(n) && |sim.table.stash| <= |start.stash|
    ensures EvictionsOf(sim.table.params, view0.completed, n, start, trail, sim.State())
  {
  }

  /** Completes one more eviction, if one is owed. */
  method DrainOne(sim: CircuitStressSim, schedule: CircuitEvictionSchedule, ghost view0: Counters,
                  ghost start: TableState, ghost trail: seq<TableState>, ghost n: nat)
    returns (r: Result<bool>, ghost longer: seq<TableState>)
    requires Draining(sim, schedule, view0, start, trail, n)
    requires n > 0 ==> view0.Pending().Ok? && n <= view0.Pending().value
    modifies schedule, sim.table`stash, sim.table.slots
    ensures r.Err? <==> view0.Pending().Err?
    ensures r.Ok? ==> (r.value <==> n < view0.Pending().value)
    ensures r.Err? || !r.value ==> longer == trail && Draining(sim, schedule, view0, start, longer, n)
    ensures r.Ok? && r.value ==> Draining(sim, schedule, view0, start, longer, n + 1)
  {
    hide CircuitStressSim.Valid, Evicted, EvictionsOf, TableEvicted;
    longer := trail;
    var next := schedule.CompleteOneEviction();
    if next.Err? {
      return Err(next.error), longer;
    }
    if next.value.None? {
      return Ok(false), longer;
    }
    assert next.value.value < sim.table.params.leaves by { NextLeafInRange(sim, schedule.completedEvictions - 1); }
    ghost var before := sim.State();
    sim.EvictPath(next.value.value);
    OneMoreEviction(sim.table.params, view0.completed, n, start, trail, before, sim.State());
    return Ok(true), longer + [sim.State()];
  }

  lemma NextLeafInRange(sim: CircuitStressSim, index: nat)
    requires sim.Valid()
    ensures 0 < sim.table.params.LeafBits() <= 32
    ensures ReverseBitsMod(index, sim.table.params.LeafBits()) < sim.table.params.leaves
  {
    EvictionNode(sim.table.params, 0, index);
  }

  datatype CircuitStressConfig = CircuitStressConfig(
    params: OramParams,
    warmupOps: nat,
    ops: nat,
    pattern: Pattern,
    drainPerAccess: nat,
    burstInterval: nat,
    burstBudget: nat,
    maxDebt: Option<nat>)

  datatype CircuitStressReport = CircuitStressReport(
    initStash: nat,
    finalStash: nat,
    maxEvictionDebt: nat,
    finalEvictionDebt: nat,
    completedEvictions: nat,
    scheduledEvictions: nat)

  predicate Accepts(c: CircuitStressConfig) {
    && c.params.logicalBlocks <= U32_MAX
    && c.params.logicalBlocks <= TableSize(c.params)
    && !(c.burstInterval == 0 && c.burstBudget != 0)
  }

  /** Scheduled evictions of `n` accesses, all counted, fit the counters. */
  predicate Countable(n: nat) {
    n * DEFAULT_EVICTIONS_PER_ACCESS <= U64_MAX
  }

  /** Evictions one step drains out of a debt: the fixed budget, a burst when due, and whatever exceeds the
      cap after both. */
  function Drained(c: CircuitStressConfig, step: nat, debt: nat): (n: nat)
    ensures n <= debt
  {
    var fixed := Min(c.drainPerAccess, debt);
    var burst := if c.burstInterval != 0 && (step + 1) % c.burstInterval == 0 then Min(c.burstBudget, debt - fixed)
      else 0;
    var left := debt - fixed - burst;
    fixed + burst + (if c.maxDebt.Some? && left > c.maxDebt.value then left - c.maxDebt.value else 0)
  }

  /** The drains of a step in one formula: both budgets together, or as much as the cap asks for, but never
      more than the debt. */
  lemma DrainedMeaning(c: CircuitStressConfig, step: nat, debt: nat)
    ensures var budget := c.drainPerAccess +
                          if c.burstInterval != 0 && (step + 1) % c.burstInterval == 0 then c.burstBudget else 0;
            var paid := if budget < debt then budget else debt;
            Drained(c, step, debt) ==
            if c.maxDebt.Some? && paid + c.maxDebt.value < debt then debt - c.maxDebt.value else paid
  {
  }

  /** Evictions owed and not yet completed. */
  function Debt(k: Counters): int {
    k.issued * k.rate - k.completed
  }

  /** Drains of one step: the fixed budget, a burst when due, and whatever exceeds the debt cap. */
  method DrainStep(c: CircuitStressConfig, sim: CircuitStressSim, schedule: CircuitEvictionSchedule, step: nat)
    returns (r: Result<()>, ghost trail: seq<TableState>)
    requires sim.Valid() && schedule.Valid() && schedule.leafBits == sim.table.params.LeafBits()
    requires schedule.View().Pending().Ok?
    modifies schedule, sim.table`stash, sim.table.slots
    ensures r.Ok? && Debt(old(schedule.View())) >= 0
    ensures Draining(sim, schedule, old(schedule.View()), old(sim.State()), trail,
                     Drained(c, step, Debt(old(schedule.View()))))
    ensures schedule.View().Pending() == Ok(Debt(old(schedule.View())) - Drained(c, step, Debt(old(schedule.View()))))
  {
    hide *;
    ghost var view0, start := schedule.View(), sim.State();
    DebtIs(view0);
    ghost var debt: nat := Debt(view0);
    DrainingStarts(sim, schedule);
    var drained: nat, over: nat := 0, 0;
    drained, trail := DrainBudgets(c, sim, schedule, step, view0, debt, start);
    if c.maxDebt.Some? {
      over, trail := DrainToCap(sim, schedule, c.maxDebt.value, view0, debt, start, trail, drained);
    }
    DrainedIs(c, step, debt, drained, over);
    PendingIs(sim, schedule, view0, debt, start, trail, drained + over);
    return Ok(()), trail;
  }

  /** What the fixed budget and the burst drain out of a debt. */
  function Budgeted(c: CircuitStressConfig, step: nat, debt: nat): (n: nat)
    ensures n <= debt
  {
    var fixed := Min(c.drainPerAccess, debt);
    fixed + if c.burstInterval != 0 && (step + 1) % c.burstInterval == 0 then Min(c.burstBudget, debt - fixed) else 0
  }

  /** The fixed budget, and a burst when due. */
  method DrainBudgets(c: CircuitStressConfig, sim: CircuitStressSim, schedule: CircuitEvictionSchedule, step: nat,
                      ghost view0: Counters, ghost debt: nat, ghost start: TableState)
    returns (drained: nat, ghost trail: seq<TableState>)
    requires Draining(sim, schedule, view0, start, [start], 0) && view0.Pending() == Ok(debt)
    modifies schedule, sim.table`stash, sim.table.slots
    ensures drained == Budgeted(c, step, debt) && Draining(sim, schedule, view0, start, trail, drained)
  {
    hide Draining, Counters.Pending;
    drained, trail := DrainMore(sim, schedule, c.drainPerAccess, view0, debt, start, [start], 0);
    if c.burstInterval != 0 && (step + 1) % c.burstInterval == 0 {
      var burst;
      burst, trail := DrainMore(sim, schedule, c.burstBudget, view0, debt, start, trail, drained);
      drained := drained + burst;
    }
  }

  lemma DrainedIs(c: CircuitStressConfig, step: nat, debt: nat, drained: nat, over: nat)
    requires drained == Budgeted(c, step, debt)
    requires over == if c.maxDebt.Some? && debt - drained > c.maxDebt.value then debt - drained - c.maxDebt.value else 0
    ensures Drained(c, step, debt) == drained + over
  {
  }

  /** Drains one by one until the debt is within the cap. */
  method DrainToCap(sim: CircuitStressSim, schedule: CircuitEvictionSchedule, cap: nat, ghost view0: Counters,
                    ghost debt: nat, ghost start: TableState, ghost trail: seq<TableState>, ghost n: nat)
    returns (drained: nat, ghost longer: seq<TableState>)
    requires Draining(sim, schedule, view0, start, trail, n) && view0.Pending() == Ok(debt) && n <= debt
    modifies schedule, sim.table`stash, sim.table.slots
    ensures drained == if debt - n > cap then debt - n - cap else 0
    ensures Draining(sim, schedule, view0, start, longer, n + drained)
  {
    hide Draining, Counters.Pending, CircuitStressSim.Valid, EvictionsOf;
    drained, longer := 0, trail;
    PendingIs(sim, schedule, view0, debt, start, longer, n);
    while schedule.View().Pending().Ok? && schedule.View().Pending().value > cap
      invariant Draining(sim, schedule, view0, start, longer, n + drained) && n + drained <= debt
      invariant schedule.View().Pending() == Ok(debt - n - drained)
      invariant drained > 0 ==> debt - n - drained >= cap
      decreases debt - n - drained
    {
      var one;
      one, longer := DrainMore(sim, schedule, 1, view0, debt, start, longer, n + drained);
      drained := drained + one;
      PendingIs(sim, schedule, view0, debt, start, longer, n + drained);
    }
  }

  lemma DebtIs(k: Counters)
    requires k.Pending().Ok?
    ensures Debt(k) >= 0 && k.Pending() == Ok(Debt(k))
  {
  }

  lemma DrainingStarts(sim: CircuitStressSim, schedule: CircuitEvictionSchedule)
    requires sim.Valid() && schedule.Valid() && schedule.leafBits == sim.table.params.LeafBits()
    ensures Draining(sim, schedule, schedule.View(), sim.State(), [sim.State()], 0)
  {
    NoEvictions(sim.table.params, schedule.View().completed, sim.State());
  }

  lemma PendingIs(sim: CircuitStressSim, schedule: CircuitEvictionSchedule, view0: Counters, debt: nat,
                  start: TableState, trail: seq<TableState>, n: nat)
    requires Draining(sim, schedule, view0, start, trail, n) && view0.Pending() == Ok(debt) && n <= debt
    ensures schedule.View().Pending() == Ok(debt - n)
  {
    hide EvictionsOf, CircuitStressSim.Valid;
  }

  /** Drains up to `budget` more evictions of a debt of which `n` have been completed. */
  method DrainMore(sim: CircuitStressSim, schedule: CircuitEvictionSchedule, budget: nat, ghost view0: Counters,
                   ghost debt: nat, ghost start: TableState, ghost trail: seq<TableState>, ghost n: nat)
    returns (drained: nat, ghost longer: seq<TableState>)
    requires Draining(sim, schedule, view0, start, trail, n) && view0.Pending() == Ok(debt) && n <= debt
    modifies schedule, sim.table`stash, sim.table.slots
    ensures drained == Min(budget, debt - n)
    ensures Draining(sim, schedule, view0, start, longer, n + drained)
  {
    hide CircuitStressSim.Valid, EvictionsOf, Counters.Pending;
    PendingIs(sim, schedule, view0, debt, start, trail, n);
    ghost var before := sim.State();
    var r;
    ghost var more;
    r, more := DrainPublicEvictions(sim, schedule, budget);
    drained := r.value;
    MoreEvictions(sim.table.params, view0.completed, n, drained, start, trail, before, more, sim.State());
    longer := trail + more[1..];
  }

  /** The debt after `k` steps: each access adds two evictions, each step drains some. */
  function DebtAfter(c: CircuitStressConfig, k: nat): nat {
    if k == 0 then 0
    else
      var owed := DebtAfter(c, k - 1) + 2;
      owed - Drained(c, k - 1, owed)
  }

  /** The largest debt after any of the first `k` steps. */
  function PeakDebt(c: CircuitStressConfig, k: nat): nat {
    if k == 0 then 0
    else if DebtAfter(c, k) > PeakDebt(c, k - 1) then DebtAfter(c, k) else PeakDebt(c, k - 1)
  }

  lemma PeakNext(c: CircuitStressConfig, k: nat)
    ensures PeakDebt(c, k + 1) == if DebtAfter(c, k + 1) > PeakDebt(c, k) then DebtAfter(c, k + 1) else PeakDebt(c, k)
  {
    hide DebtAfter;
  }

  /** The debt never exceeds what was scheduled. */
  lemma {:induction false} DebtScheduled(c: CircuitStressConfig, k: nat)
    ensures DebtAfter(c, k) <= 2 * k
    ensures c.maxDebt.Some? ==> DebtAfter(c, k) <= c.maxDebt.value && PeakDebt(c, k) <= c.maxDebt.value
    ensures DebtAfter(c, k) <= PeakDebt(c, k)
  {
    hide Drained;
    if k > 0 {
      DebtScheduled(c, k - 1);
      DrainedToCap(c, k - 1, DebtAfter(c, k - 1) + 2);
    }
  }

  lemma DrainedToCap(c: CircuitStressConfig, step: nat, debt: nat)
    ensures c.maxDebt.Some? ==> debt - Drained(c, step, debt) <= c.maxDebt.value
  {
  }

  /** One step: the access, then the next scheduled evictions, as many as the step drains. */
  ghost predicate StepOf(c: CircuitStressConfig, draws: nat -> nat, step: nat, a: TableState, trail: seq<TableState>,
                         b: TableState)
    requires c.params.Valid() && DebtAfter(c, step) <= 2 * step
  {
    && trail != []
    && TableAccessed(c.params, a, IdAt(c.pattern, c.params.logicalBlocks, draws, step), draws(DrawAt(c.pattern, step)),
                     trail[0])
    && EvictionsOf(c.params, 2 * step - DebtAfter(c, step), Drained(c, step, DebtAfter(c, step) + 2), trail[0], trail,
                   b)
  }

  /** The run so far: it starts as a simulation does, and every step led to the next state. */
  ghost predicate RunOf(c: CircuitStressConfig, draws: nat -> nat, states: seq<TableState>,
                        trails: seq<seq<TableState>>) {
    && c.params.Valid() && |states| == |trails| + 1 && StartsAs(c.params, draws, states[0])
    && forall s :: 0 <= s < |trails| ==>
         DebtAfter(c, s) <= 2 * s && StepOf(c, draws, s, states[s], trails[s], states[s + 1])
  }

  lemma RunOn(c: CircuitStressConfig, draws: nat -> nat, states: seq<TableState>, trails: seq<seq<TableState>>,
              a: TableState, trail: seq<TableState>, b: TableState)
    requires RunOf(c, draws, states, trails) && states[|trails|] == a && DebtAfter(c, |trails|) <= 2 * |trails|
    requires StepOf(c, draws, |trails|, a, trail, b)
    ensures RunOf(c, draws, states + [b], trails + [trail]) && (states + [b])[0] == states[0]
    ensures (states + [b])[|trails + [trail]|] == b
  {
    hide StepOf, StartsAs, DebtAfter;
    forall s | 0 <= s < |trails + [trail]|
      ensures DebtAfter(c, s) <= 2 * s &&
              StepOf(c, draws, s, (states + [b])[s], (trails + [trail])[s], (states + [b])[s + 1])
    {
      if s < |trails| {
        assert StepOf(c, draws, s, states[s], trails[s], states[s + 1]);
      }
    }
  }

  /** After `k` steps: the run so far, ending in state `s`. */
  ghost predicate Listed(c: CircuitStressConfig, draws: nat -> nat, states: seq<TableState>,
                         trails: seq<seq<TableState>>, start: TableState, k: nat, s: TableState) {
    && RunOf(c, draws, states, trails)
    && |trails| == k && |states| == k + 1 && states[0] == start && states[k] == s
    && |s.stash| <= |start.stash| + k
  }

  lemma ListOn(c: CircuitStressConfig, draws: nat -> nat, states: seq<TableState>, trails: seq<seq<TableState>>,
               start: TableState, k: nat, a: TableState, trail: seq<TableState>, b: TableState)
    requires Listed(c, draws, states, trails, start, k, a) && c.params.Valid() && DebtAfter(c, k) <= 2 * k
    requires StepOf(c, draws, k, a, trail, b) && |b.stash| <= |a.stash| + 1
    ensures Listed(c, draws, states + [b], trails + [trail], start, k + 1, b)
  {
    hide RunOf, StepOf;
    RunOn(c, draws, states, trails, a, trail, b);
  }

  /** Between two steps: the counters say what was scheduled and what is still owed. */
  ghost predicate Ready(c: CircuitStressConfig, draws: nat -> nat, sim: CircuitStressSim,
                        schedule: CircuitEvictionSchedule, step: nat)
    reads sim, sim.table, sim.table.slots, sim.table.positionMap, schedule
  {
    && sim.Valid() && sim.table.params == c.params && sim.table.draws == draws
    && schedule.Valid() && DebtAfter(c, step) <= 2 * step && schedule.View() == CountersAt(c, step)
    && Countable(step)
  }

  /** The counters after `step` steps. */
  ghost function CountersAt(c: CircuitStressConfig, step: nat): Counters
    requires DebtAfter(c, step) <= 2 * step
  {
    Counters(c.params.LeafBits(), 2, step, 2 * step - DebtAfter(c, step))
  }

  /** What recording an access and draining do to the counters of a step. */
  lemma CountersStep(c: CircuitStressConfig, step: nat)
    requires DebtAfter(c, step) <= 2 * step && Countable(step)
    ensures DebtAfter(c, step + 1) <= 2 * (step + 1)
    ensures var k, debt := CountersAt(c, step).(issued := step + 1), DebtAfter(c, step) + 2;
            && (k.Pending().Ok? <==> Countable(step + 1)) && step < U64_MAX
            && Debt(k) == debt && k.completed == 2 * step - DebtAfter(c, step)
            && k.Advance(Drained(c, step, debt)) == CountersAt(c, step + 1)
            && debt - Drained(c, step, debt) == DebtAfter(c, step + 1)
  {
    hide Drained;
    DebtScheduled(c, step + 1);
  }

  /** Step number `step`; it fails when the counters cannot hold the evictions of one more access. */
  method StressStep(c: CircuitStressConfig, draws: nat -> nat, sim: CircuitStressSim, schedule: CircuitEvictionSchedule,
                    step: nat, rng: nat)
    returns (r: Result<nat>, ghost trail: seq<TableState>)
    requires c.params.Valid() && c.params.logicalBlocks > 0 && Ready(c, draws, sim, schedule, step)
    requires rng == if c.pattern == Random then 2 * step else step
    modifies schedule, sim.table`stash, sim.table.slots, sim.table.positionMap
    ensures r.Ok? <==> Countable(step + 1)
    ensures r.Ok? ==>
              && Ready(c, draws, sim, schedule, step + 1) && r.value == DebtAfter(c, step + 1)
              && DebtAfter(c, step) <= 2 * step && StepOf(c, draws, step, old(sim.State()), trail, sim.State())
              && |sim.table.stash| <= |old(sim.table.stash)| + 1
  {
    hide CircuitStressSim.Valid, EvictionsOf, TableAccessed, Drained, DebtAfter, Countable, CountersAt, Debt,
         Counters.Pending, Draining;
    CountersStep(c, step);
    trail := [];
    var drawn := rng;
    var id := Reduce(step, c.params.logicalBlocks);
    if c.pattern == Random {
      id := Reduce(draws(drawn), c.params.logicalBlocks);
      drawn := drawn + 1;
    }
    AtCounters(c, step);
    var accessed := sim.Access(id, drawn);
    var recorded := schedule.RecordAccess();
    if recorded.Err? || schedule.View().Pending().Err? {
      return Err(InvalidInput), trail;
    }
    ghost var before, view1, n := sim.State(), schedule.View(), Drained(c, step, DebtAfter(c, step) + 2);
    var drained;
    drained, trail := DrainStep(c, sim, schedule, step);
    DrainedSoFar(sim, schedule, view1, before, trail, n);
    FirstOfTrail(c.params, view1.completed, n, before, trail, sim.State());
    return Ok(schedule.View().Pending().value), trail;
  }

  lemma AtCounters(c: CircuitStressConfig, step: nat)
    requires DebtAfter(c, step) <= 2 * step
    ensures CountersAt(c, step).issued == step && CountersAt(c, step).leafBits == c.params.LeafBits()
  {
  }


  /** The whole simulation. It fails only on a rejected configuration or when the schedule counter
      cannot hold the evictions; every scheduled eviction is completed or still owed, and the debt
      after each step respects the cap. */
  method StressCircuit(c: CircuitStressConfig, draws: nat -> nat)
    returns (r: Result<CircuitStressReport>, ghost states: seq<TableState>, ghost trails: seq<seq<TableState>>)
    requires c.params.Valid()
    ensures r.Ok? <==> Accepts(c) && Countable(c.warmupOps + c.ops)
    ensures r.Ok? ==>
              && r.value.scheduledEvictions == (c.warmupOps + c.ops) * 2
              && r.value.completedEvictions + r.value.finalEvictionDebt == r.value.scheduledEvictions
              && r.value.finalEvictionDebt <= r.value.maxEvictionDebt
              && (c.maxDebt.Some? ==> r.value.maxEvictionDebt <= c.maxDebt.value)
              && r.value.finalStash <= r.value.initStash + c.warmupOps + c.ops
    ensures r.Ok? ==>
              && r.value.finalEvictionDebt == DebtAfter(c, c.warmupOps + c.ops)
              && r.value.maxEvictionDebt == PeakDebt(c, c.warmupOps + c.ops)
              && RunOf(c, draws, states, trails) && |trails| == c.warmupOps + c.ops
              && r.value.initStash == |states[0].stash| && r.value.finalStash == |states[|trails|].stash|
  {
    hide Ready, RunOf, StartsAs, Countable, DebtAfter, PeakDebt, Accepts, OramParams.Valid, Counters.Pending,
         CircuitStressSim.Valid;
    states, trails := [], [];
    if !Accepts(c) {
      return Err(InvalidInput), states, trails;
    }
    var sim, schedule := StartCircuit(c, draws);
    var total := c.warmupOps + c.ops;
    var peak;
    peak, states, trails := RunSteps(c, draws, sim, schedule, total);
    if peak.Err? {
      return Err(peak.error), states, trails;
    }
    EndReady(c, draws, sim, schedule, total);
    return Ok(CircuitStressReport(sim.initStash, |sim.table.stash|, peak.value, schedule.View().Pending().value,
                                  schedule.completedEvictions, schedule.issuedAccesses * schedule.evictionsPerAccess)),
           states, trails;
  }

  /** The simulator and its schedule before the first step. */
  method StartCircuit(c: CircuitStressConfig, draws: nat -> nat)
    returns (sim: CircuitStressSim, schedule: CircuitEvictionSchedule)
    requires c.params.Valid() && Accepts(c)
    ensures c.params.logicalBlocks > 0 && Ready(c, draws, sim, schedule, 0) && StartsAs(c.params, draws, sim.State())
    ensures sim.initStash == |sim.table.stash|
    ensures fresh(schedule) && fresh(sim.table) && fresh(sim.table.slots) && fresh(sim.table.positionMap)
  {
    hide CircuitStressSim.Valid, OramParams.NodeIndex, TableSize, StartsAs, Countable;
    sim := new CircuitStressSim(c.params, draws);
    schedule := new CircuitEvictionSchedule.WithRate(c.params, DEFAULT_EVICTIONS_PER_ACCESS);
    CountNone();
  }

  lemma CountNone()
    ensures Countable(0)
  {
  }

  /** The steps of a simulation, and the largest debt after any of them. */
  method RunSteps(c: CircuitStressConfig, draws: nat -> nat, sim: CircuitStressSim, schedule: CircuitEvictionSchedule,
                  total: nat)
    returns (r: Result<nat>, ghost states: seq<TableState>, ghost trails: seq<seq<TableState>>)
    requires c.params.Valid() && c.params.logicalBlocks > 0 && Ready(c, draws, sim, schedule, 0)
    requires StartsAs(c.params, draws, sim.State())
    modifies schedule, sim.table`stash, sim.table.slots, sim.table.positionMap
    ensures r.Ok? <==> Countable(total)
    ensures r.Ok? ==>
              && Ready(c, draws, sim, schedule, total) && r.value == PeakDebt(c, total)
              && RunOf(c, draws, states, trails) && |trails| == total && |states| == total + 1
              && states[0] == old(sim.State()) && states[total] == sim.State()
              && |sim.table.stash| <= |old(sim.table.stash)| + total
  {
    trails := [];
    states := [sim.State()];
    ghost var start := sim.State();
    var rng: nat, peak: nat := 0, 0;
    assert Running(c, draws, sim, schedule, states, trails, start, 0, 0, 0) && Countable(0);
    hide *;
    for step := 0 to total
      invariant Running(c, draws, sim, schedule, states, trails, start, step, rng, peak)
    {
      var next;
      next, states, trails := RunningStep(c, draws, sim, schedule, states, trails, start, step, rng, peak);
      if next.Err? {
        Uncountable(step + 1, total);
        return Err(next.error), states, trails;
      }
      rng, peak := next.value.0, next.value.1;
    }
    RunningEnds(c, draws, sim, schedule, states, trails, start, total, rng, peak);
    return Ok(peak), states, trails;
  }

  lemma Uncountable(m: nat, n: nat)
    requires m <= n && !Countable(m)
    ensures !Countable(n)
  {
  }

  /** After `step` steps: counters, states so far, position in the draws, and the largest debt. */
  ghost predicate Running(c: CircuitStressConfig, draws: nat -> nat, sim: CircuitStressSim,
                          schedule: CircuitEvictionSchedule, states: seq<TableState>, trails: seq<seq<TableState>>,
                          start: TableState, step: nat, rng: nat, peak: nat)
    reads sim, sim.table, sim.table.slots, sim.table.positionMap, schedule
  {
    && c.params.Valid() && Ready(c, draws, sim, schedule, step)
    && Listed(c, draws, states, trails, start, step, sim.State())
    && rng == (if c.pattern == Random then 2 * step else step) && peak == PeakDebt(c, step)
  }

  lemma RunningEnds(c: CircuitStressConfig, draws: nat -> nat, sim: CircuitStressSim, schedule: CircuitEvictionSchedule,
                    states: seq<TableState>, trails: seq<seq<TableState>>, start: TableState, n: nat, rng: nat,
                    peak: nat)
    requires Running(c, draws, sim, schedule, states, trails, start, n, rng, peak)
    ensures Countable(n) && Ready(c, draws, sim, schedule, n) && peak == PeakDebt(c, n)
    ensures RunOf(c, draws, states, trails) && |trails| == n && |states| == n + 1
    ensures states[0] == start && states[n] == sim.State() && |sim.table.stash| <= |start.stash| + n
  {
    hide RunOf, PeakDebt, Countable, CountersAt, CircuitStressSim.Valid;
  }

  /** One step, added to the list of states. */
  method RunningStep(c: CircuitStressConfig, draws: nat -> nat, sim: CircuitStressSim,
                     schedule: CircuitEvictionSchedule,
                     ghost states: seq<TableState>, ghost trails: seq<seq<TableState>>, ghost start: TableState,
                     step: nat, rng: nat, peak: nat)
    returns (r: Result<(nat, nat)>, ghost states': seq<TableState>, ghost trails': seq<seq<TableState>>)
    requires Running(c, draws, sim, schedule, states, trails, start, step, rng, peak)
    modifies schedule, sim.table`stash, sim.table.slots, sim.table.positionMap
    ensures r.Ok? <==> Countable(step + 1)
    ensures r.Ok? ==>
              Running(c, draws, sim, schedule, states', trails', start, step + 1, r.value.0, r.value.1)
  {
    hide Ready, Listed, PeakDebt, DebtAfter, StepOf, Countable, CircuitStressSim.Valid;
    states', trails' := states, trails;
    ghost var before := sim.State();
    StepFits(c, draws, sim, schedule, step);
    var debt;
    ghost var trail;
    debt, trail := StressStep(c, draws, sim, schedule, step, rng);
    if debt.Err? {
      return Err(debt.error), states', trails';
    }
    PeakNext(c, step);
    ListOn(c, draws, states, trails, start, step, before, trail, sim.State());
    states', trails' := states + [sim.State()], trails + [trail];
    return Ok((rng + (if c.pattern == Random then 2 else 1), if debt.value > peak then debt.value else peak)), states',
      trails';
  }

  lemma StepFits(c: CircuitStressConfig, draws: nat -> nat, sim: CircuitStressSim, schedule: CircuitEvictionSchedule,
                 step: nat)
    requires Ready(c, draws, sim, schedule, step)
    ensures DebtAfter(c, step) <= 2 * step
  {
  }

  lemma EndReady(c: CircuitStressConfig, draws: nat -> nat, sim: CircuitStressSim, schedule: CircuitEvictionSchedule,
                 n: nat)
    requires Ready(c, draws, sim, schedule, n)
    ensures Countable(n) && schedule.View().Pending() == Ok(DebtAfter(c, n)) && DebtAfter(c, n) <= 2 * n
    ensures schedule.completedEvictions == 2 * n - DebtAfter(c, n)
    ensures schedule.issuedAccesses * schedule.evictionsPerAccess == 2 * n
    ensures DebtAfter(c, n) <= PeakDebt(c, n)
    ensures c.maxDebt.Some? ==> PeakDebt(c, n) <= c.maxDebt.value
  {
    hide CircuitStressSim.Valid;
    DebtScheduled(c, n);
  }
}
