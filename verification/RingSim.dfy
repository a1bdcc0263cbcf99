/** The Ring ORAM stress simulator (src/ring_stress.rs, RingStressSim and stress_ring): read counters
    per bucket, periodic path evictions, and early reshuffles of exhausted buckets. */
module RingSim {
  import opened Common
  import opened Geometry
  import opened Schedule
  import opened SlotTable
  import opened EvictionPlan
  import opened SimSpec
  import opened SimTables
  import opened SimEviction
  import opened RingSpec
  import opened MerkleIoPlan

  /** A reshuffled bucket takes all its blocks back, or more. */
  lemma ReshuffleNeverGrows(p: OramParams, pos: seq<nat>, leaf: nat, depth: nat, slots0: seq<nat>,
                            stash0: seq<SimBlock>, slots1: seq<nat>, slots: seq<nat>, stash: seq<SimBlock>)
    requires TableShape(p, slots0, pos) && SlotsPlaced(p, slots0, pos) && leaf < p.leaves && depth < p.Height()
    requires p.NodeIndex(depth, leaf) < p.BucketCount() && |slots1| == TableSize(p)
    requires Labelled(BucketSlots(p, slots0, p.NodeIndex(depth, leaf)), pos)
    requires forall o :: 0 <= o < |slots1| && NodeOf(p, o) == p.NodeIndex(depth, leaf) ==> slots1[o] == EMPTY_SLOT
    requires var pool := stash0 + BlocksOf(BucketSlots(p, slots0, p.NodeIndex(depth, leaf)), pos);
             RefilledBucket(p, leaf, depth, slots1, pool, slots, stash, p.NodeIndex(depth, leaf))
    ensures |stash| <= |stash0|
  {
    hide TableSize, SlotsPlaced, SimReach, OramParams.NodeIndex, BucketSlots, BlocksOf, NodeOf, Eligible, FreeSlots;
    var node := p.NodeIndex(depth, leaf);
    var own := BlocksOf(BucketSlots(p, slots0, node), pos);
    forall j | 0 <= j < |own|
      ensures depth < SimReach(p, leaf, own[j])
    {
      StoredReach(p, pos, leaf, slots0, depth, j);
    }
    EmptyBucket(p, slots1, node);
    assert SimReaches(p, leaf, stash0 + own) == SimReaches(p, leaf, stash0) + SimReaches(p, leaf, own);
    EligibleAppend(SimReaches(p, leaf, stash0), SimReaches(p, leaf, own), depth);
    EligibleAll(SimReaches(p, leaf, own), depth);
  }

  class RingStressSim {
    const table: SimTable
    const readCounters: array<nat>
    const initStash: nat
    var maxReadCounter: nat

    ghost predicate Valid()
      reads this, table, table.slots, table.positionMap, readCounters
    {
      && table.Valid(FirstIds(table.params.logicalBlocks))
      && table.params.Valid()
      && readCounters.Length == table.params.BucketCount()
      && readCounters != table.slots && readCounters != table.positionMap
      && AtMost(readCounters[..], maxReadCounter) && maxReadCounter <= U32_MAX
    }

    ghost function State(): RingState
      reads this, table, table.slots, table.positionMap, readCounters
    {
      RingState(table.slots[..], table.positionMap[..], table.stash, readCounters[..], maxReadCounter)
    }

    constructor (params: OramParams, draws: nat -> nat)
      requires params.Valid() && params.logicalBlocks <= EMPTY_SLOT
      ensures Valid() && table.params == params && table.draws == draws
      ensures StartsAs(params, draws, State()) && initStash == |table.stash|
      ensures fresh(table) && fresh(table.slots) && fresh(table.positionMap) && fresh(readCounters)
    {
      LeavesArePow2(params);
      var t := new SimTable(params, draws);
      this.table := t;
      this.readCounters := new nat[params.BucketCount()](_ => 0);
      this.initStash := |t.stash|;
      this.maxReadCounter := 0;
    }

    lemma Shape()
      requires Valid()
      ensures table.params.Valid() && table.slots.Length == TableSize(table.params)
      ensures table.positionMap.Length == table.params.logicalBlocks
      ensures TableShape(table.params, table.slots[..], table.positionMap[..])
      ensures SlotsPlaced(table.params, table.slots[..], table.positionMap[..])
      ensures Labelled(table.slots[..], table.positionMap[..])
      ensures forall i :: 0 <= i < table.positionMap.Length ==> table.positionMap[i] < table.params.leaves
    {
    }

    /** Relabels the id and counts one read of every bucket of its old path. */
    method Access(id: nat, rng: nat) returns (r: Result<nat>)
      requires Valid() && id < table.params.logicalBlocks
      modifies this`maxReadCounter, table`stash, table.slots, table.positionMap, readCounters
      ensures Valid()
      ensures r.Ok? && r.value < table.params.leaves && r.value == old(table.positionMap[id])
      ensures Accessed(table.params, old(State()), id, table.draws(rng), State())
      ensures |table.stash| <= |old(table.stash)| + 1
    {
      Shape();
      hide OramParams.NodeIndex, Holds, Counted, TakenOut, MaxOf, Residue;
      r := table.Access(id, rng);
      CountReads(r.value);
    }

    /** Reads the whole path into the stash, then refills it from the leaf up; its counters restart. */
    method EvictPath(leaf: nat)
      requires Valid() && leaf < table.params.leaves
      modifies table`stash, table.slots, readCounters
      ensures Valid() && |table.stash| <= |old(table.stash)|
      ensures PathEvicted(table.params, old(State()), Some(leaf), State())
    {
      ghost var p, a := table.params, State();
      assert p.Valid() && Evictable(p, a) by { Shape(); }
      ReadingStarts(leaf);
      hide OramParams.NodeIndex, Valid, ReadingPath, PathRead, PathEvicted, Evicted, Evictable, Cleared,
           OramParams.Valid, SimTable.Valid;
      ReadPath(leaf);
      ReadingEnds(leaf, a.slots, a.stash, a.counters);
      WritePathFromStash(table, leaf, a.slots, a.stash, FirstIds(p.logicalBlocks));
      EvictionDone(leaf, a);
    }

    /** What an eviction needs of the state it starts from. */
    ghost predicate Evictable(p: OramParams, a: RingState) {
      && p.Valid() && TableShape(p, a.slots, a.pos) && SlotsPlaced(p, a.slots, a.pos)
      && AtMost(a.counters, a.maxReads) && a.maxReads <= U32_MAX
    }

    lemma ReadingEnds(leaf: nat, slots0: seq<nat>, stash0: seq<SimBlock>, counters0: seq<nat>)
      requires ReadingPath(leaf, table.params.Height(), slots0, stash0, counters0)
      ensures table.Valid(FirstIds(table.params.logicalBlocks)) && table.params.Valid() && leaf < table.params.leaves
      ensures readCounters != table.slots && readCounters != table.positionMap
      ensures readCounters.Length == table.params.BucketCount()
      ensures PathRead(table.params, table.positionMap[..], leaf, slots0, stash0, table.params.Height(),
                       table.slots[..], table.stash)
      ensures Cleared(counters0, readCounters[..], table.params.PathNodes(leaf), table.params.Height())
    {
    }

    lemma EvictionDone(leaf: nat, a: RingState)
      requires table.Valid(FirstIds(table.params.logicalBlocks)) && leaf < table.params.leaves
      requires readCounters != table.slots && readCounters != table.positionMap
      requires readCounters.Length == table.params.BucketCount()
      requires Evictable(table.params, a) && a.pos == table.positionMap[..] && a.maxReads == maxReadCounter
      requires Evicted(table.params, a.pos, leaf, a.slots, a.stash, table.slots[..], table.stash)
      requires Cleared(a.counters, readCounters[..], table.params.PathNodes(leaf), table.params.Height())
      ensures Valid() && |table.stash| <= |a.stash|
      ensures PathEvicted(table.params, a, Some(leaf), State())
    {
      hide OramParams.NodeIndex, OramParams.PathNodes, Evicted, Cleared, TableShape, SlotsPlaced, AtMost,
           SimTable.Valid, OramParams.Valid;
      var p := table.params;
      ClearedAtMost(a.counters, readCounters[..], p.PathNodes(leaf), p.Height(), maxReadCounter);
      EvictionNeverGrows(p, a.pos, leaf, a.slots, a.stash, table.slots[..], table.stash);
    }

    /** The path has been read down to depth `d` and its counters restarted. */
    ghost predicate ReadingPath(leaf: nat, d: nat, slots0: seq<nat>, stash0: seq<SimBlock>, counters0: seq<nat>)
      reads this, table, table.slots, table.positionMap, readCounters
    {
      && table.Valid(FirstIds(table.params.logicalBlocks)) && table.params.Valid()
      && leaf < table.params.leaves && d <= table.params.Height()
      && readCounters != table.slots && readCounters != table.positionMap
      && readCounters.Length == table.params.BucketCount()
      && PathRead(table.params, table.positionMap[..], leaf, slots0, stash0, d, table.slots[..], table.stash)
      && Cleared(counters0, readCounters[..], table.params.PathNodes(leaf), d)
    }

    lemma ReadingStarts(leaf: nat)
      requires Valid() && leaf < table.params.leaves
      ensures ReadingPath(leaf, 0, table.slots[..], table.stash, readCounters[..])
    {
      hide PathRead, OramParams.PathNodes;
      ReadStart(table.params, table.positionMap[..], leaf, table.slots[..], table.stash);
      NothingCleared(readCounters[..], table.params.PathNodes(leaf));
    }

    method ReadPath(leaf: nat)
      requires ReadingPath(leaf, 0, table.slots[..], table.stash, readCounters[..])
      modifies table`stash, table.slots, readCounters
      ensures ReadingPath(leaf, table.params.Height(), old(table.slots[..]), old(table.stash), old(readCounters[..]))
    {
      hide ReadingPath;
      for d := 0 to table.params.Height()
        invariant ReadingPath(leaf, d, old(table.slots[..]), old(table.stash), old(readCounters[..]))
      {
        ReadAndClear(d, leaf, old(table.slots[..]), old(table.stash), old(readCounters[..]));
      }
    }

    method ReadAndClear(d: nat, leaf: nat, ghost slots0: seq<nat>, ghost stash0: seq<SimBlock>,
                        ghost counters0: seq<nat>)
      requires ReadingPath(leaf, d, slots0, stash0, counters0) && d < table.params.Height()
      modifies table`stash, table.slots, readCounters
      ensures ReadingPath(leaf, d + 1, slots0, stash0, counters0)
    {
      hide OramParams.NodeIndex, Holds, PathRead, Cleared, FirstIds;
      ReadPathBucket(table, leaf, d, slots0, stash0, FirstIds(table.params.logicalBlocks));
      ClearCounter(d, leaf, counters0);
    }

    method ClearCounter(d: nat, leaf: nat, ghost before: seq<nat>)
      requires table.params.Valid() && leaf < table.params.leaves && d < table.params.Height()
      requires readCounters.Length == table.params.BucketCount()
      requires Cleared(before, readCounters[..], table.params.PathNodes(leaf), d)
      modifies readCounters
      ensures Cleared(before, readCounters[..], table.params.PathNodes(leaf), d + 1)
    {
      hide OramParams.NodeIndex, Cleared;
      var node := table.params.NodeIndex(d, leaf);
      NodeIndexRange(table.params, d, leaf);
      ClearedStep(before, readCounters[..], table.params.PathNodes(leaf), d);
      ghost var prev := readCounters[..];
      readCounters[node] := 0;
      assert readCounters[..] == prev[node := 0];
    }

    /** One bucket of the path to `leaf` is read and rewritten; its counter restarts. */
    method ReshuffleBucket(depth: nat, node: nat, ghost leaf: nat, ghost dummySlots: nat)
      requires node < readCounters.Length && readCounters[node] >= dummySlots
      requires Valid() && leaf < table.params.leaves && depth < table.params.Height()
      requires node == table.params.NodeIndex(depth, leaf)
      modifies table`stash, table.slots, readCounters
      ensures Valid() && node < readCounters.Length
      ensures |table.stash| <= |old(table.stash)|
      ensures readCounters[..] == old(readCounters[..])[node := 0]
      ensures BucketReshuffled(table.params, depth, leaf, dummySlots, old(State()), State())
    {
      ghost var p, a := table.params, State();
      assert p.Valid() && TablePart() by { Shape(); }
      hide OramParams.NodeIndex, Valid, BucketReshuffled, BucketRefill, BucketSlots, OramParams.Valid, SimTable.Valid;
      RewriteBucket(table, depth, node, leaf, FirstIds(p.logicalBlocks));
      readCounters[node] := 0;
      assert readCounters[..] == a.counters[node := 0];
      BucketDone(depth, node, a);
      Reshuffled(p, depth, leaf, dummySlots, a, State());
    }

    /** `Valid` without the counters. */
    ghost predicate TablePart()
      reads this, table, table.slots, table.positionMap
    {
      && table.Valid(FirstIds(table.params.logicalBlocks)) && table.params.Valid()
      && readCounters != table.slots && readCounters != table.positionMap
    }

    lemma BucketDone(depth: nat, node: nat, a: RingState)
      requires TablePart() && node < |a.counters| == table.params.BucketCount()
      requires readCounters[..] == a.counters[node := 0] && AtMost(a.counters, maxReadCounter)
      requires maxReadCounter <= U32_MAX
      ensures Valid()
    {
      hide SimTable.Valid, OramParams.Valid;
    }

    method CountReads(leaf: nat)
      requires table.params.Valid() && leaf < table.params.leaves && readCounters.Length == table.params.BucketCount()
      requires AtMost(readCounters[..], maxReadCounter) && maxReadCounter <= U32_MAX
      modifies this`maxReadCounter, readCounters
      ensures Counted(old(readCounters[..]), readCounters[..], table.params.PathNodes(leaf))
      ensures AtMost(readCounters[..], maxReadCounter) && maxReadCounter <= U32_MAX
      ensures MaxOf(old(maxReadCounter), readCounters[..], maxReadCounter) && old(maxReadCounter) <= maxReadCounter
    {
      hide OramParams.NodeIndex, Counted;
      ghost var path := table.params.PathNodes(leaf);
      PathNodesDistinct(table.params, leaf);
      NothingCounted(readCounters[..], path);
      for d := 0 to table.params.Height()
        invariant Counted(old(readCounters[..]), readCounters[..], path[..d])
        invariant AtMost(readCounters[..], maxReadCounter) && maxReadCounter <= U32_MAX
        invariant MaxOf(old(maxReadCounter), readCounters[..], maxReadCounter) && old(maxReadCounter) <= maxReadCounter
      {
        var node := table.params.NodeIndex(d, leaf);
        CountedStep(old(readCounters[..]), readCounters[..], path, d);
        ghost var before, maxBefore := readCounters[..], maxReadCounter;
        readCounters[node] := SaturatingAdd(readCounters[node], 1);
        maxReadCounter := Max(maxReadCounter, readCounters[node]);
        assert readCounters[..] == before[node := SaturatingAdd(before[node], 1)];
        MaxStep(old(maxReadCounter), before, maxBefore, node);
      }
      assert path[..table.params.Height()] == path;
    }
  }

  lemma Emptied(p: OramParams, before: seq<nat>, after: seq<nat>, node: nat)
    requires p.bucketSize > 0 && SameOutside(p, before, after, node)
    requires forall o :: 0 <= o < |after| && NodeOf(p, o) == node ==> after[o] == EMPTY_SLOT
    ensures after == EmptiedBucket(p, before, node)
  {
  }

  lemma BucketRefilled(p: OramParams, leaf: nat, depth: nat, before: seq<nat>, pool: seq<SimBlock>, after: seq<nat>,
                       left: seq<SimBlock>, node: nat)
    requires p.bucketSize > 0 && |before| == TableSize(p) && node < p.BucketCount()
    requires RefilledBucket(p, leaf, depth, before, pool, after, left, node)
    ensures depth < p.Height() && (after, left) == BucketRefill(p, depth, node, before, pool)
  {
  }

  /** Reads one bucket of the path to `leaf` into the stash and refills it. */
  method RewriteBucket(table: SimTable, depth: nat, node: nat, ghost leaf: nat, ghost ids: multiset<nat>)
    requires table.Valid(ids) && leaf < table.params.leaves && depth < table.params.Height()
    requires node == table.params.NodeIndex(depth, leaf)
    modifies table`stash, table.slots
    ensures table.Valid(ids) && table.params.Valid() && node < table.params.BucketCount()
    ensures |old(table.slots[..])| == TableSize(table.params)
    ensures Labelled(BucketSlots(table.params, old(table.slots[..]), node), table.positionMap[..])
    ensures (table.slots[..], table.stash) ==
            BucketRefill(table.params, depth, node, EmptiedBucket(table.params, old(table.slots[..]), node),
                         old(table.stash) +
                         BlocksOf(BucketSlots(table.params, old(table.slots[..]), node), table.positionMap[..]))
    ensures |table.stash| <= |old(table.stash)|
  {
    ghost var p, slots0, stash0, pos := table.params, table.slots[..], table.stash, table.positionMap[..];
    assert p.Valid() && |slots0| == TableSize(p) && TableShape(p, slots0, pos) && SlotsPlaced(p, slots0, pos) by {
      table.Sizes(ids);
    }
    NodeIndexRange(p, depth, leaf);
    hide OramParams.NodeIndex, Holds, RefilledBucket, SlotsPlaced, NodeOf, SameOutside, BlocksOf, BucketSlots,
         SimTable.Valid, BucketRefill, TableShape, EmptiedBucket, TableSize;
    table.ReadBucketIntoStash(node, ids);
    ghost var slots1, pool := table.slots[..], table.stash;
    Emptied(p, slots0, slots1, node);
    table.WriteBucketFromStash(depth, node, leaf, ids);
    ReshuffleNeverGrows(p, pos, leaf, depth, slots0, stash0, slots1, table.slots[..], table.stash);
    BucketRefilled(p, leaf, depth, slots1, pool, table.slots[..], table.stash, node);
  }

  lemma Reshuffled(p: OramParams, depth: nat, leaf: nat, dummySlots: nat, a: RingState, b: RingState)
    requires p.Valid() && leaf < p.leaves && depth < p.Height()
    requires var node := p.NodeIndex(depth, leaf);
             && node < p.BucketCount() && |a.slots| == TableSize(p) && Labelled(BucketSlots(p, a.slots, node), a.pos)
             && node < |a.counters| && a.counters[node] >= dummySlots
             && (b.slots, b.stash) == BucketRefill(p, depth, node, EmptiedBucket(p, a.slots, node),
                                                   a.stash + BlocksOf(BucketSlots(p, a.slots, node), a.pos))
             && b == RingState(b.slots, a.pos, b.stash, a.counters[node := 0], a.maxReads)
    ensures BucketReshuffled(p, depth, leaf, dummySlots, a, b)
  {
    hide OramParams.NodeIndex, OramParams.Valid, BucketRefill, EmptiedBucket, TableSize;
  }

  lemma NothingCounted(counters: seq<nat>, path: seq<nat>)
    ensures Counted(counters, counters, path[..0])
  {
  }

  lemma NothingCleared(counters: seq<nat>, path: seq<nat>)
    ensures Cleared(counters, counters, path, 0)
  {
  }

  lemma ClearedStep(before: seq<nat>, after: seq<nat>, path: seq<nat>, d: nat)
    requires d < |path| && path[d] < |after| && Cleared(before, after, path, d)
    ensures Cleared(before, after[path[d] := 0], path, d + 1)
  {
    assert path[..d + 1] == path[..d] + [path[d]];
  }

  lemma ClearedAtMost(before: seq<nat>, after: seq<nat>, path: seq<nat>, d: nat, bound: nat)
    requires Cleared(before, after, path, d) && AtMost(before, bound)
    ensures AtMost(after, bound)
  {
  }

  lemma MaxStep(first: nat, before: seq<nat>, max: nat, node: nat)
    requires node < |before| && MaxOf(first, before, max) && AtMost(before, U32_MAX)
    ensures var after := before[node := SaturatingAdd(before[node], 1)];
            MaxOf(first, after, Max(max, after[node]))
  {
    var after := before[node := SaturatingAdd(before[node], 1)];
    forall bound | first <= bound && AtMost(after, bound)
      ensures Max(max, after[node]) <= bound
    {
      assert forall n :: 0 <= n < |before| ==> before[n] <= after[n];
      assert AtMost(before, bound);
    }
  }

  lemma CountedStep(before: seq<nat>, after: seq<nat>, path: seq<nat>, d: nat)
    requires d < |path| && path[d] < |after| && Counted(before, after, path[..d])
    requires forall e :: 0 <= e < d ==> path[e] != path[d]
    ensures Counted(before, after[path[d] := SaturatingAdd(after[path[d]], 1)], path[..d + 1])
  {
    assert path[..d + 1] == path[..d] + [path[d]];
    assert path[d] !in path[..d];
  }

  /** Exhausted buckets all lie among the first `d` of the read path. */
  ghost predicate ExhaustedWithin(counters: seq<nat>, dummySlots: nat, path: seq<nat>, d: nat) {
    && AtMost(counters, dummySlots)
    && d <= |path|
    && forall n :: 0 <= n < |counters| && counters[n] >= dummySlots ==> n in path[..d]
  }

  lemma AfterAccess(before: seq<nat>, after: seq<nat>, dummySlots: nat, path: seq<nat>)
    requires AtMost(before, dummySlots - 1) && 0 < dummySlots && Counted(before, after, path)
    ensures ExhaustedWithin(after, dummySlots, path, |path|)
  {
    assert path[..|path|] == path;
  }

  lemma AfterEviction(before: seq<nat>, after: seq<nat>, dummySlots: nat, path: seq<nat>, evicted: seq<nat>, d: nat)
    requires ExhaustedWithin(before, dummySlots, path, |path|) && Cleared(before, after, evicted, d) && dummySlots > 0
    ensures ExhaustedWithin(after, dummySlots, path, |path|)
  {
  }

  lemma AfterBucket(counters: seq<nat>, dummySlots: nat, path: seq<nat>, d: nat)
    requires dummySlots > 0 && d < |path| && ExhaustedWithin(counters, dummySlots, path, d + 1)
    ensures path[d] < |counters| && counters[path[d]] < dummySlots ==> ExhaustedWithin(counters, dummySlots, path, d)
    ensures path[d] < |counters| ==> ExhaustedWithin(counters[path[d] := 0], dummySlots, path, d)
  {
    assert path[..d + 1] == path[..d] + [path[d]];
  }

  lemma NoneExhausted(counters: seq<nat>, dummySlots: nat, path: seq<nat>)
    requires ExhaustedWithin(counters, dummySlots, path, 0)
    ensures AtMost(counters, dummySlots - 1)
  {
    assert path[..0] == [];
  }

  /** One simulated step: access, an eviction when one is due, early reshuffles, all as `trail` lists them.
      Within the step no counter exceeds `dummySlots`; after it every counter is below, and those of an
      evicted path are zero. */
  method RingStep(sim: RingStressSim, id: nat, rng: nat, evict: Option<nat>, dummySlots: nat)
    returns (r: Result<nat>, ghost trail: seq<RingState>)
    requires sim.Valid() && id < sim.table.params.logicalBlocks && 0 < dummySlots <= U32_MAX
    requires evict.Some? ==> evict.value < sim.table.params.leaves
    requires AtMost(sim.readCounters[..], dummySlots - 1) && sim.maxReadCounter <= dummySlots
    modifies sim`maxReadCounter, sim.table`stash, sim.table.slots, sim.table.positionMap, sim.readCounters
    ensures r.Ok? && sim.Valid()
    ensures AtMost(sim.readCounters[..], dummySlots - 1) && sim.maxReadCounter <= dummySlots
    ensures |sim.table.stash| <= |old(sim.table.stash)| + 1
    ensures evict.Some? ==>
              forall n :: 0 <= n < |sim.readCounters[..]| && n in sim.table.params.PathNodes(evict.value) ==>
                sim.readCounters[..][n] == 0
    ensures StepTrail(sim.table.params, id, sim.table.draws(rng), evict, dummySlots, trail)
    ensures trail[0] == old(sim.State()) && trail[|trail| - 1] == sim.State()
    ensures r.value == Reshuffles(sim.table.params, trail[0].pos[id], dummySlots, trail, sim.table.params.Height())
  {
    ghost var p, s0 := sim.table.params, sim.State();
    assert p.Valid() && id < |s0.pos| by { ShapeOf(sim); }
    hide OramParams.NodeIndex, OramParams.PathNodes, RingStressSim.Valid, ExhaustedWithin, Evicted, Accessed,
         PathEvicted, Looked, StepTrail, Reshuffles, OramParams.Valid;
    var leaf := AccessWithin(sim, id, rng, dummySlots);
    ghost var s1 := sim.State();
    EvictIfDue(sim, evict, dummySlots, leaf);
    ghost var s2 := sim.State();
    var reshuffled;
    reshuffled, trail := ReshuffleExhausted(sim, leaf, dummySlots, [s0, s1, s2]);
    TrailOf(p, id, sim.table.draws(rng), evict, dummySlots, s0, s1, s2, leaf, trail, sim.State(), reshuffled);
    EvictedZero(p, id, sim.table.draws(rng), evict, dummySlots, trail, sim.readCounters[..]);
    return Ok(reshuffled), trail;
  }

  lemma EvictedZero(p: OramParams, id: nat, draw: nat, evict: Option<nat>, dummySlots: nat, trail: seq<RingState>,
                    counters: seq<nat>)
    requires StepTrail(p, id, draw, evict, dummySlots, trail) && counters == trail[|trail| - 1].counters
    ensures evict.Some? ==> forall n :: 0 <= n < |counters| && n in p.PathNodes(evict.value) ==> counters[n] == 0
  {
    hide OramParams.NodeIndex, OramParams.PathNodes, Accessed, PathEvicted, BucketReshuffled;
    StepCounters(p, id, draw, evict, dummySlots, trail);
  }

  /** The access of a step: no counter passes `dummySlots`, and only buckets of the read path reach it. */
  method AccessWithin(sim: RingStressSim, id: nat, rng: nat, dummySlots: nat) returns (leaf: nat)
    requires sim.Valid() && id < sim.table.params.logicalBlocks && 0 < dummySlots
    requires AtMost(sim.readCounters[..], dummySlots - 1) && sim.maxReadCounter <= dummySlots
    modifies sim`maxReadCounter, sim.table`stash, sim.table.slots, sim.table.positionMap, sim.readCounters
    ensures sim.Valid() && leaf < sim.table.params.leaves && sim.maxReadCounter <= dummySlots
    ensures id < |old(sim.State()).pos| && leaf == old(sim.State()).pos[id]
    ensures Accessed(sim.table.params, old(sim.State()), id, sim.table.draws(rng), sim.State())
    ensures ExhaustedWithin(sim.readCounters[..], dummySlots, sim.table.params.PathNodes(leaf),
                            sim.table.params.Height())
    ensures |sim.table.stash| <= |old(sim.table.stash)| + 1
  {
    ShapeOf(sim);
    hide OramParams.NodeIndex, OramParams.PathNodes, RingStressSim.Valid, Counted, ExhaustedWithin, TakenOut, MaxOf,
         Residue;
    ghost var s0 := sim.State();
    var accessed := sim.Access(id, rng);
    leaf := accessed.value;
    ghost var path := sim.table.params.PathNodes(leaf);
    AfterAccess(s0.counters, sim.readCounters[..], dummySlots, path);
    WithinAtMost(sim.readCounters[..], dummySlots, path);
    MaxWithin(s0.maxReads, sim.readCounters[..], sim.maxReadCounter, dummySlots);
  }

  /** The eviction of a step, when one is due. */
  method EvictIfDue(sim: RingStressSim, evict: Option<nat>, dummySlots: nat, ghost leaf: nat)
    requires sim.Valid() && sim.table.params.Valid() && 0 < dummySlots
    requires evict.Some? ==> evict.value < sim.table.params.leaves
    requires ExhaustedWithin(sim.readCounters[..], dummySlots, sim.table.params.PathNodes(leaf),
                             sim.table.params.Height())
    modifies sim.table`stash, sim.table.slots, sim.readCounters
    ensures sim.Valid() && PathEvicted(sim.table.params, old(sim.State()), evict, sim.State())
    ensures ExhaustedWithin(sim.readCounters[..], dummySlots, sim.table.params.PathNodes(leaf),
                            sim.table.params.Height())
    ensures |sim.table.stash| <= |old(sim.table.stash)|
  {
    hide OramParams.NodeIndex, OramParams.PathNodes, RingStressSim.Valid, Cleared, ExhaustedWithin, Evicted;
    if evict.Some? {
      sim.EvictPath(evict.value);
      AfterEviction(old(sim.readCounters[..]), sim.readCounters[..], dummySlots, sim.table.params.PathNodes(leaf),
                    sim.table.params.PathNodes(evict.value), sim.table.params.Height());
    }
  }

  /** After `k` buckets were looked at: the trail lists the states, the last one present, and the count. */
  ghost predicate Looked(p: OramParams, leaf: nat, dummySlots: nat, first: seq<RingState>, trail: seq<RingState>,
                         k: nat, s: RingState, reshuffled: nat) {
    && p.Valid() && leaf < p.leaves && k <= p.Height() && |trail| == k + 3 && trail[k + 2] == s && trail[..3] == first
    && (forall i :: 2 <= i < |trail| - 1 ==>
          BucketReshuffled(p, p.Height() + 1 - i, leaf, dummySlots, trail[i], trail[i + 1]))
    && reshuffled == Reshuffles(p, leaf, dummySlots, trail, k)
  }

  lemma LookingStarts(p: OramParams, leaf: nat, dummySlots: nat, trail: seq<RingState>)
    requires p.Valid() && leaf < p.leaves && |trail| == 3
    ensures Looked(p, leaf, dummySlots, trail, trail, 0, trail[2], 0)
  {
    assert trail[..3] == trail;
  }

  lemma LookOn(p: OramParams, leaf: nat, dummySlots: nat, first: seq<RingState>, trail: seq<RingState>, k: nat, d: nat,
               a: RingState, b: RingState, reshuffled: nat, yes: bool)
    requires k + d + 1 == p.Height() && Looked(p, leaf, dummySlots, first, trail, k, a, reshuffled)
    requires p.Valid() && leaf < p.leaves && BucketReshuffled(p, d, leaf, dummySlots, a, b)
    requires var node := p.NodeIndex(d, leaf);
             node < |a.counters| && (yes <==> a.counters[node] >= dummySlots)
    ensures Looked(p, leaf, dummySlots, first, trail + [b], k + 1, b, reshuffled + (if yes then 1 else 0))
  {
    hide OramParams.NodeIndex, BucketReshuffled, Reshuffles;
    MoreTrail(p, leaf, dummySlots, trail, b, k);
  }

  lemma TrailOf(p: OramParams, id: nat, draw: nat, evict: Option<nat>, dummySlots: nat, s0: RingState, s1: RingState,
                s2: RingState, leaf: nat, trail: seq<RingState>, last: RingState, reshuffled: nat)
    requires p.Valid() && id < |s0.pos| && leaf == s0.pos[id] < p.leaves
    requires Accessed(p, s0, id, draw, s1) && PathEvicted(p, s1, evict, s2)
    requires Looked(p, leaf, dummySlots, [s0, s1, s2], trail, p.Height(), last, reshuffled)
    ensures StepTrail(p, id, draw, evict, dummySlots, trail)
    ensures trail[0] == s0 && trail[|trail| - 1] == last
    ensures reshuffled == Reshuffles(p, trail[0].pos[id], dummySlots, trail, p.Height())
  {
    hide OramParams.NodeIndex, BucketReshuffled, Reshuffles, Accessed, PathEvicted;
    assert trail[0] == trail[..3][0] && trail[1] == trail[..3][1] && trail[2] == trail[..3][2];
  }

  lemma ShapeOf(sim: RingStressSim)
    requires sim.Valid()
    ensures sim.table.params.Valid() && sim.table.positionMap.Length == sim.table.params.logicalBlocks
  {
    sim.Shape();
  }

  lemma MaxWithin(before: nat, counters: seq<nat>, max: nat, bound: nat)
    requires MaxOf(before, counters, max) && before <= bound && AtMost(counters, bound)
    ensures max <= bound
  {
  }

  lemma WithinAtMost(counters: seq<nat>, dummySlots: nat, path: seq<nat>)
    requires ExhaustedWithin(counters, dummySlots, path, |path|)
    ensures AtMost(counters, dummySlots)
  {
  }

  /** Reshuffles the exhausted buckets of the read path, leaf first, and adds the states to the trail. */
  method ReshuffleExhausted(sim: RingStressSim, leaf: nat, dummySlots: nat, ghost first: seq<RingState>)
    returns (reshuffled: nat, ghost trail: seq<RingState>)
    requires sim.Valid() && leaf < sim.table.params.leaves && 0 < dummySlots
    requires |first| == 3 && first[2] == sim.State()
    requires ExhaustedWithin(sim.readCounters[..], dummySlots, sim.table.params.PathNodes(leaf),
                             sim.table.params.Height())
    modifies sim.table`stash, sim.table.slots, sim.readCounters
    ensures sim.Valid() && AtMost(sim.readCounters[..], dummySlots - 1)
    ensures |sim.table.stash| <= |old(sim.table.stash)|
    ensures Looked(sim.table.params, leaf, dummySlots, first, trail, sim.table.params.Height(), sim.State(), reshuffled)
  {
    ghost var p := sim.table.params;
    assert p.Valid() by { ShapeOf(sim); }
    hide OramParams.NodeIndex, OramParams.PathNodes, RingStressSim.Valid, ExhaustedWithin, Looked, BucketReshuffled,
         OramParams.Valid, AtMost;
    ghost var path := p.PathNodes(leaf);
    reshuffled := 0;
    trail := first;
    LookingStarts(p, leaf, dummySlots, trail);
    for d := sim.table.params.Height() downto 0
      invariant sim.Valid() && ExhaustedWithin(sim.readCounters[..], dummySlots, path, d)
      invariant |sim.table.stash| <= |old(sim.table.stash)|
      invariant Looked(p, leaf, dummySlots, first, trail, p.Height() - d, sim.State(), reshuffled)
    {
      var yes;
      yes, trail := LookAndList(sim, d, leaf, dummySlots, first, trail, reshuffled);
      reshuffled := reshuffled + (if yes then 1 else 0);
    }
    NoneExhausted(sim.readCounters[..], dummySlots, path);
  }

  /** One bucket more of the read path. */
  method LookAndList(sim: RingStressSim, d: nat, leaf: nat, dummySlots: nat, ghost first: seq<RingState>,
                     ghost trail: seq<RingState>, ghost reshuffled: nat)
    returns (yes: bool, ghost longer: seq<RingState>)
    requires sim.Valid() && leaf < sim.table.params.leaves && 0 < dummySlots && d < sim.table.params.Height()
    requires ExhaustedWithin(sim.readCounters[..], dummySlots, sim.table.params.PathNodes(leaf), d + 1)
    requires Looked(sim.table.params, leaf, dummySlots, first, trail, sim.table.params.Height() - d - 1, sim.State(),
                    reshuffled)
    modifies sim.table`stash, sim.table.slots, sim.readCounters
    ensures sim.Valid() && ExhaustedWithin(sim.readCounters[..], dummySlots, sim.table.params.PathNodes(leaf), d)
    ensures |sim.table.stash| <= |old(sim.table.stash)|
    ensures Looked(sim.table.params, leaf, dummySlots, first, longer, sim.table.params.Height() - d, sim.State(),
                   reshuffled + (if yes then 1 else 0))
  {
    assert sim.table.params.Valid() by { ShapeOf(sim); }
    hide OramParams.NodeIndex, OramParams.PathNodes, RingStressSim.Valid, ExhaustedWithin, Looked, BucketReshuffled,
         OramParams.Valid;
    ghost var p, before := sim.table.params, sim.State();
    yes := LookAtBucket(sim, d, leaf, dummySlots);
    LookOn(p, leaf, dummySlots, first, trail, p.Height() - d - 1, d, before, sim.State(), reshuffled, yes);
    longer := trail + [sim.State()];
  }

  /** One bucket of the read path: reshuffled if it is exhausted. */
  method LookAtBucket(sim: RingStressSim, d: nat, leaf: nat, dummySlots: nat) returns (yes: bool)
    requires sim.Valid() && sim.table.params.Valid() && leaf < sim.table.params.leaves && d < sim.table.params.Height()
    requires 0 < dummySlots
    requires ExhaustedWithin(sim.readCounters[..], dummySlots, sim.table.params.PathNodes(leaf), d + 1)
    modifies sim.table`stash, sim.table.slots, sim.readCounters
    ensures sim.Valid() && BucketReshuffled(sim.table.params, d, leaf, dummySlots, old(sim.State()), sim.State())
    ensures ExhaustedWithin(sim.readCounters[..], dummySlots, sim.table.params.PathNodes(leaf), d)
    ensures |sim.table.stash| <= |old(sim.table.stash)|
    ensures var node := sim.table.params.NodeIndex(d, leaf);
            node < |old(sim.State()).counters| && (yes <==> old(sim.State()).counters[node] >= dummySlots)
  {
    hide OramParams.NodeIndex, OramParams.PathNodes, RingStressSim.Valid, ExhaustedWithin, BucketReshuffled;
    var node := sim.table.params.NodeIndex(d, leaf);
    assert node < sim.readCounters.Length by { NodeHasCounter(sim, d, leaf); }
    assert sim.table.params.PathNodes(leaf)[d] == node by { PathAt(sim.table.params, d, leaf); }
    AfterBucket(sim.readCounters[..], dummySlots, sim.table.params.PathNodes(leaf), d);
    yes := sim.readCounters[node] >= dummySlots;
    if yes {
      sim.ReshuffleBucket(d, node, leaf, dummySlots);
    } else {
      NotReshuffled(sim, d, leaf, dummySlots);
    }
  }

  lemma PathAt(p: OramParams, d: nat, leaf: nat)
    requires d < p.Height()
    ensures |p.PathNodes(leaf)| == p.Height() && p.PathNodes(leaf)[d] == p.NodeIndex(d, leaf)
  {
  }

  lemma {:induction false} SameSoFar(p: OramParams, leaf: nat, dummySlots: nat, trail: seq<RingState>, s: RingState,
                                     k: nat)
    requires k <= p.Height() && |trail| >= k + 3
    ensures Reshuffles(p, leaf, dummySlots, trail + [s], k) == Reshuffles(p, leaf, dummySlots, trail, k)
  {
    hide OramParams.NodeIndex;
    if k > 0 {
      SameSoFar(p, leaf, dummySlots, trail, s, k - 1);
    }
  }

  lemma MoreTrail(p: OramParams, leaf: nat, dummySlots: nat, trail: seq<RingState>, s: RingState, k: nat)
    requires k < p.Height() && |trail| == k + 3
    ensures var counters, node := trail[k + 2].counters, p.NodeIndex(p.Height() - k - 1, leaf);
            Reshuffles(p, leaf, dummySlots, trail + [s], k + 1) ==
            Reshuffles(p, leaf, dummySlots, trail, k) +
            (if node < |counters| && counters[node] >= dummySlots then 1 else 0)
  {
    hide OramParams.NodeIndex;
    SameSoFar(p, leaf, dummySlots, trail, s, k);
  }

  lemma NotReshuffled(sim: RingStressSim, d: nat, leaf: nat, dummySlots: nat)
    requires sim.Valid() && sim.table.params.Valid() && leaf < sim.table.params.leaves && d < sim.table.params.Height()
    requires sim.table.params.NodeIndex(d, leaf) < sim.readCounters.Length
    requires sim.readCounters[sim.table.params.NodeIndex(d, leaf)] < dummySlots
    ensures BucketReshuffled(sim.table.params, d, leaf, dummySlots, sim.State(), sim.State())
  {
    sim.Shape();
  }

  lemma NodeHasCounter(sim: RingStressSim, d: nat, leaf: nat)
    requires sim.Valid() && leaf < sim.table.params.leaves && d < sim.table.params.Height()
    ensures sim.table.params.NodeIndex(d, leaf) < sim.readCounters.Length
  {
    NodeIndexRange(sim.table.params, d, leaf);
  }

  datatype RingStressConfig = RingStressConfig(
    params: OramParams,
    dummySlots: nat,
    evictionPeriod: nat,
    warmupOps: nat,
    ops: nat,
    pattern: Pattern,
    authStore: bool,
    authTrustedLevels: nat,
    authHashPageSize: nat)

  datatype RingStressReport = RingStressReport(
    completedEvictions: nat,
    earlyReshuffleBuckets: nat,
    maxReadCounter: nat,
    initStash: nat,
    finalStash: nat)

  /** Whether the simulator accepts the configuration. */
  predicate Accepts(c: RingStressConfig)
    requires c.params.Valid()
  {
    && c.params.logicalBlocks <= U32_MAX
    && 0 < c.dummySlots <= U32_MAX
    && c.evictionPeriod > 0
    && c.authHashPageSize >= 32
    && c.params.logicalBlocks <= TableSize(c.params)
    && (c.authStore ==> MerkleHashTouchCostOf(c.params.BucketCount(), c.authTrustedLevels).Ok?)
  }

  /** Bound after `n` steps and the eviction count at any step of the run. */
  lemma PeriodStep(step: nat, period: nat)
    requires period > 0
    ensures (step + 1) / period == step / period + (if (step + 1) % period == 0 then 1 else 0)
  {
    var q, r := step / period, step % period;
    assert step == q * period + r;
    if r + 1 == period {
      assert step + 1 == (q + 1) * period + 0 by { assert (q + 1) * period == q * period + period; }
      DivUnique(step + 1, period, q + 1, 0);
    } else {
      DivUnique(step + 1, period, q, r + 1);
    }
  }

  /** One eviction after every period, in schedule order. */
  function EvictionAt(c: RingStressConfig, step: nat): Option<nat>
    requires c.evictionPeriod > 0 && 0 < c.params.LeafBits() <= 32
  {
    if (step + 1) % c.evictionPeriod == 0 then Some(EvictionLeafAt(c.params, step / c.evictionPeriod)) else None
  }

  /** The id accessed in a step. */
  function StepId(c: RingStressConfig, draws: nat -> nat, step: nat): nat
    requires c.params.logicalBlocks > 0
  {
    IdAt(c.pattern, c.params.logicalBlocks, draws, step)
  }

  /** Step `s` of the run led from state `s` to the next one, along its trail. */
  ghost predicate RunStep(c: RingStressConfig, draws: nat -> nat, s: nat, before: RingState, trail: seq<RingState>,
                          after: RingState)
    requires c.params.Valid() && c.evictionPeriod > 0 && 0 < c.params.LeafBits() <= 32
  {
    && StepTrail(c.params, StepId(c, draws, s), draws(DrawAt(c.pattern, s)), EvictionAt(c, s), c.dummySlots, trail)
    && trail[0] == before && trail[|trail| - 1] == after
  }

  /** Every trail has the states of one step. */
  ghost predicate Trails(c: RingStressConfig, draws: nat -> nat, trails: seq<seq<RingState>>)
    requires c.params.Valid()
  {
    forall s :: 0 <= s < |trails| ==>
      |trails[s]| == c.params.Height() + 3 && StepId(c, draws, s) < |trails[s][0].pos|
  }

  /** Buckets reshuffled early in the first `k` steps. */
  ghost function ReshufflesIn(c: RingStressConfig, draws: nat -> nat, trails: seq<seq<RingState>>, k: nat): nat
    requires c.params.Valid() && k <= |trails|
    requires Trails(c, draws, trails)
  {
    if k == 0 then 0
    else
      ReshufflesIn(c, draws, trails, k - 1) +
      Reshuffles(c.params, trails[k - 1][0].pos[StepId(c, draws, k - 1)], c.dummySlots, trails[k - 1],
                 c.params.Height())
  }

  /** The run so far: it starts as a simulation does, and every step led to the next state. */
  ghost predicate RunOf(c: RingStressConfig, draws: nat -> nat, states: seq<RingState>, trails: seq<seq<RingState>>) {
    && c.params.Valid() && c.evictionPeriod > 0 && 0 < c.params.LeafBits() <= 32
    && |states| == |trails| + 1 && StartsAs(c.params, draws, states[0])
    && forall s :: 0 <= s < |trails| ==> RunStep(c, draws, s, states[s], trails[s], states[s + 1])
  }

  lemma {:induction false} SameReshuffles(c: RingStressConfig, draws: nat -> nat, trails: seq<seq<RingState>>,
                                          trail: seq<RingState>, k: nat)
    requires c.params.Valid() && k <= |trails| && Trails(c, draws, trails) && Trails(c, draws, trails + [trail])
    ensures ReshufflesIn(c, draws, trails + [trail], k) == ReshufflesIn(c, draws, trails, k)
  {
    hide Reshuffles, IdAt;
    if k > 0 {
      SameReshuffles(c, draws, trails, trail, k - 1);
    }
  }

  lemma MoreReshuffles(c: RingStressConfig, draws: nat -> nat, trails: seq<seq<RingState>>, trail: seq<RingState>,
                       k: nat)
    requires c.params.Valid() && k == |trails| && Trails(c, draws, trails)
    requires |trail| == c.params.Height() + 3 && StepId(c, draws, k) < |trail[0].pos|
    ensures Trails(c, draws, trails + [trail])
    ensures ReshufflesIn(c, draws, trails + [trail], k + 1) ==
            ReshufflesIn(c, draws, trails, k) +
            Reshuffles(c.params, trail[0].pos[StepId(c, draws, k)], c.dummySlots, trail, c.params.Height())
  {
    hide Reshuffles, IdAt;
    SameReshuffles(c, draws, trails, trail, k);
  }

  lemma TrailShape(p: OramParams, id: nat, draw: nat, evict: Option<nat>, dummySlots: nat, trail: seq<RingState>)
    requires StepTrail(p, id, draw, evict, dummySlots, trail)
    ensures |trail| == p.Height() + 3 && id < |trail[0].pos|
  {
  }

  /** Right after every access a bucket of depth `d` has been read at most `period * 2^d` times since it was
      written; no bucket more than `period * leaves` times; with more dummy slots nothing is reshuffled. */
  ghost predicate RunBounded(c: RingStressConfig, trails: seq<seq<RingState>>, maxReads: nat, reshuffles: nat) {
    && (forall s :: 0 <= s < |trails| ==> ReadsFit(c.params, c.evictionPeriod, trails[s]))
    && maxReads <= c.evictionPeriod * c.params.leaves
    && (c.dummySlots > c.evictionPeriod * c.params.leaves ==> reshuffles == 0)
  }

  /** What the eviction schedule does to a run: between two evictions of a bucket of depth `d` it is read at
      most `period * 2^d` times, so no bucket more than `period * leaves` times; with more dummy slots than
      that nothing is reshuffled early. */
  lemma {:induction false} RunReads(c: RingStressConfig, draws: nat -> nat, states: seq<RingState>,
                                    trails: seq<seq<RingState>>, k: nat)
    requires RunOf(c, draws, states, trails) && k <= |trails|
    requires Trails(c, draws, trails)
    ensures ReadsSince(c.params, c.evictionPeriod, k, states[k].counters)
    ensures states[k].maxReads <= c.evictionPeriod * c.params.leaves
    ensures forall s :: 0 <= s < k ==> ReadsFit(c.params, c.evictionPeriod, trails[s])
    ensures c.dummySlots > c.evictionPeriod * c.params.leaves ==> ReshufflesIn(c, draws, trails, k) == 0
  {
    hide StepTrail, ReadsSince, ReadsFit, Reshuffles, EvictionLeafAt, OramParams.NodeIndex, OramParams.PathNodes, IdAt,
         DrawAt, EvictionAt, RunOf, OramParams.Valid, StartsAs, Trails, Due;
    RunStarts(c, draws, states, trails);
    if k == 0 {
      NoReadsYet(c.params, c.evictionPeriod, draws, states[0]);
    } else {
      RunReads(c, draws, states, trails, k - 1);
      RunStepAt(c, draws, states, trails, k - 1);
      StepReads(c.params, c.evictionPeriod, k - 1, StepId(c, draws, k - 1), draws(DrawAt(c.pattern, k - 1)),
                EvictionAt(c, k - 1), c.dummySlots, trails[k - 1]);
    }
  }

  lemma RunStarts(c: RingStressConfig, draws: nat -> nat, states: seq<RingState>, trails: seq<seq<RingState>>)
    requires RunOf(c, draws, states, trails)
    ensures c.params.Valid() && c.evictionPeriod > 0 && 0 < c.params.LeafBits() <= 32 && |states| == |trails| + 1
    ensures c.params.logicalBlocks > 0
    ensures StartsAs(c.params, draws, states[0])
  {
    hide RunStep, StartsAs;
  }

  lemma RunStepAt(c: RingStressConfig, draws: nat -> nat, states: seq<RingState>, trails: seq<seq<RingState>>, s: nat)
    requires RunOf(c, draws, states, trails) && s < |trails| && Trails(c, draws, trails)
    ensures RunStep(c, draws, s, states[s], trails[s], states[s + 1])
    ensures Due(c.params, c.evictionPeriod, s, EvictionAt(c, s))
    ensures |trails[s]| == c.params.Height() + 3 && StepId(c, draws, s) < |trails[s][0].pos|
  {
    hide StepTrail, StartsAs;
  }

  lemma NoReadsYet(p: OramParams, period: nat, draws: nat -> nat, s: RingState)
    requires p.Valid() && period > 0 && 0 < p.LeafBits() <= 32 && StartsAs(p, draws, s)
    ensures ReadsSince(p, period, 0, s.counters) && s.maxReads <= period * p.leaves
  {
  }

  /** The whole simulation. It never fails on an accepted configuration; the number of completed
      evictions is the number of steps divided by the period; no counter ever passed `dummySlots`. */
  method StressRing(c: RingStressConfig, draws: nat -> nat)
    returns (r: Result<RingStressReport>, ghost states: seq<RingState>, ghost trails: seq<seq<RingState>>)
    requires c.params.Valid()
    ensures r.Ok? <==> Accepts(c)
    ensures r.Ok? ==>
              && r.value.completedEvictions == (c.warmupOps + c.ops) / c.evictionPeriod
              && r.value.maxReadCounter <= c.dummySlots
              && r.value.finalStash <= r.value.initStash + c.warmupOps + c.ops
    ensures r.Ok? ==>
              && RunOf(c, draws, states, trails) && |trails| == c.warmupOps + c.ops
              && r.value.initStash == |states[0].stash| && r.value.finalStash == |states[|trails|].stash|
              && r.value.maxReadCounter == states[|trails|].maxReads
    ensures r.Ok? ==>
              && Trails(c, draws, trails)
              && r.value.earlyReshuffleBuckets == ReshufflesIn(c, draws, trails, |trails|)
              && RunBounded(c, trails, r.value.maxReadCounter, r.value.earlyReshuffleBuckets)
  {
    hide StepTrail, StartsAs, RunOf, Trails, Reshuffles, ReadsFit, RunStep, Ready, RunBounded, Listed, OramParams.Valid,
         OramParams.NodeIndex, RingStressSim.Valid, TableSize, MerkleHashTouchCostOf, Accepts;
    states, trails := [], [];
    if !Accepts(c) {
      return Err(InvalidInput), states, trails;
    }
    assert c.evictionPeriod > 0 && c.dummySlots > 0 by { AcceptedPeriod(c); }
    var sim := StartRing(c, draws);
    states := [sim.State()];
    var totalOps := c.warmupOps + c.ops;
    var completed: nat, reshuffles: nat, rng: nat := 0, 0, 0;
    for step := 0 to totalOps
      invariant Ready(c, draws, sim)
      invariant completed == step / c.evictionPeriod && rng == if c.pattern == Random then 2 * step else step
      invariant |sim.table.stash| <= sim.initStash + step
      invariant Listed(c, draws, states, trails, step, sim.State(), reshuffles) && |states| == step + 1
      invariant sim.initStash == |states[0].stash|
    {
      ghost var before := sim.State();
      var reshuffled;
      ghost var trail;
      reshuffled, rng, completed, trail := StressStep(c, draws, sim, step, rng, completed);
      ListOn(c, draws, states, trails, step, before, reshuffles, trail, sim.State(), reshuffled);
      reshuffles := reshuffles + reshuffled;
      states, trails := states + [sim.State()], trails + [trail];
    }
    ListEnds(c, draws, states, trails, totalOps, sim.State(), reshuffles);
    assert sim.maxReadCounter <= c.dummySlots by { MaxReady(c, draws, sim); }
    return Ok(RingStressReport(completed, reshuffles, sim.maxReadCounter, sim.initStash, |sim.table.stash|)), states,
      trails;
  }

  lemma AcceptedPeriod(c: RingStressConfig)
    requires c.params.Valid() && Accepts(c)
    ensures c.evictionPeriod > 0 && c.dummySlots > 0
  {
  }

  /** The simulator before the first step. */
  method StartRing(c: RingStressConfig, draws: nat -> nat) returns (sim: RingStressSim)
    requires c.params.Valid() && Accepts(c)
    ensures Ready(c, draws, sim) && sim.initStash == |sim.table.stash|
    ensures 0 < c.params.LeafBits() <= 32 && Listed(c, draws, [sim.State()], [], 0, sim.State(), 0)
    ensures fresh(sim) && fresh(sim.table) && fresh(sim.table.slots) && fresh(sim.table.positionMap)
    ensures fresh(sim.readCounters)
  {
    hide OramParams.NodeIndex, RingStressSim.Valid, TableSize, MerkleHashTouchCostOf;
    EvictionNode(c.params, 0, 0);
    sim := new RingStressSim(c.params, draws);
    CountersStartLow(sim, c.dummySlots);
  }

  /** Between two steps: every counter below `dummySlots`. */
  ghost predicate Ready(c: RingStressConfig, draws: nat -> nat, sim: RingStressSim)
    reads sim, sim.table, sim.table.slots, sim.table.positionMap, sim.readCounters
  {
    && sim.Valid() && sim.table.params == c.params && sim.table.draws == draws
    && AtMost(sim.readCounters[..], c.dummySlots - 1) && sim.maxReadCounter <= c.dummySlots
  }

  /** Step number `step` of the simulation. */
  method StressStep(c: RingStressConfig, draws: nat -> nat, sim: RingStressSim, step: nat, rng: nat, completed: nat)
    returns (reshuffled: nat, rng': nat, completed': nat, ghost trail: seq<RingState>)
    requires c.params.Valid() && Accepts(c) && 0 < c.params.LeafBits() <= 32
    requires Ready(c, draws, sim)
    requires completed == step / c.evictionPeriod && rng == if c.pattern == Random then 2 * step else step
    modifies sim`maxReadCounter, sim.table`stash, sim.table.slots, sim.table.positionMap, sim.readCounters
    ensures Ready(c, draws, sim)
    ensures |sim.table.stash| <= |old(sim.table.stash)| + 1
    ensures completed' == (step + 1) / c.evictionPeriod
    ensures rng' == if c.pattern == Random then 2 * step + 2 else step + 1
    ensures |trail| == c.params.Height() + 3 && StepId(c, draws, step) < |trail[0].pos|
    ensures RunStep(c, draws, step, old(sim.State()), trail, sim.State())
    ensures reshuffled ==
            Reshuffles(c.params, trail[0].pos[StepId(c, draws, step)], c.dummySlots, trail, c.params.Height())
  {
    hide OramParams.NodeIndex, RingStressSim.Valid, StepTrail, Reshuffles, TableSize, MerkleHashTouchCostOf,
         EvictionLeafAt;
    PeriodStep(step, c.evictionPeriod);
    rng', completed' := rng, completed;
    var id := Reduce(step, c.params.logicalBlocks);
    if c.pattern == Random {
      id := Reduce(draws(rng'), c.params.logicalBlocks);
      rng' := rng' + 1;
    }
    var evict: Option<nat> := None;
    if (step + 1) % c.evictionPeriod == 0 {
      EvictionNode(c.params, 0, completed);
      evict := Some(EvictionLeafAt(c.params, completed));
      completed' := completed + 1;
    }
    var stepped;
    stepped, trail := RingStep(sim, id, rng', evict, c.dummySlots);
    TrailShape(c.params, id, draws(rng'), evict, c.dummySlots, trail);
    rng' := rng' + 1;
    reshuffled := stepped.value;
  }

  lemma MaxReady(c: RingStressConfig, draws: nat -> nat, sim: RingStressSim)
    requires Ready(c, draws, sim)
    ensures sim.maxReadCounter <= c.dummySlots
  {
  }

  /** After `k` steps: the run so far, ending in state `s`, with the buckets reshuffled in it. */
  ghost predicate Listed(c: RingStressConfig, draws: nat -> nat, states: seq<RingState>, trails: seq<seq<RingState>>,
                         k: nat, s: RingState, reshuffles: nat) {
    && RunOf(c, draws, states, trails) && Trails(c, draws, trails)
    && |trails| == k && |states| == k + 1 && states[k] == s && reshuffles == ReshufflesIn(c, draws, trails, k)
  }

  lemma ListOn(c: RingStressConfig, draws: nat -> nat, states: seq<RingState>, trails: seq<seq<RingState>>, k: nat,
               a: RingState, reshuffles: nat, trail: seq<RingState>, b: RingState, reshuffled: nat)
    requires Listed(c, draws, states, trails, k, a, reshuffles) && c.params.Valid() && c.evictionPeriod > 0
    requires 0 < c.params.LeafBits() <= 32 && RunStep(c, draws, k, a, trail, b)
    requires |trail| == c.params.Height() + 3 && StepId(c, draws, k) < |trail[0].pos|
    requires reshuffled == Reshuffles(c.params, trail[0].pos[StepId(c, draws, k)], c.dummySlots, trail,
                                      c.params.Height())
    ensures Listed(c, draws, states + [b], trails + [trail], k + 1, b, reshuffles + reshuffled)
    ensures (states + [b])[0] == states[0]
  {
    hide RunOf, Trails, ReshufflesIn, Reshuffles, RunStep, IdAt;
    RunOn(c, draws, states, trails, trail, b);
    MoreReshuffles(c, draws, trails, trail, k);
  }

  lemma ListEnds(c: RingStressConfig, draws: nat -> nat, states: seq<RingState>, trails: seq<seq<RingState>>, k: nat,
                 s: RingState, reshuffles: nat)
    requires Listed(c, draws, states, trails, k, s, reshuffles)
    ensures RunOf(c, draws, states, trails) && Trails(c, draws, trails) && c.params.Valid()
    ensures |trails| == k && |states| == k + 1 && states[k] == s &&
            reshuffles == ReshufflesIn(c, draws, trails, |trails|)
    ensures RunBounded(c, trails, s.maxReads, reshuffles)
  {
    hide ReadsFit, ReshufflesIn;
    RunReads(c, draws, states, trails, k);
  }

  lemma RunOn(c: RingStressConfig, draws: nat -> nat, states: seq<RingState>, trails: seq<seq<RingState>>,
              trail: seq<RingState>, s: RingState)
    requires RunOf(c, draws, states, trails) && RunStep(c, draws, |trails|, states[|trails|], trail, s)
    ensures RunOf(c, draws, states + [s], trails + [trail])
  {
    hide StepTrail, StartsAs, RunStep;
    forall k | 0 <= k < |trails + [trail]|
      ensures RunStep(c, draws, k, (states + [s])[k], (trails + [trail])[k], (states + [s])[k + 1])
    {
      if k < |trails| {
        assert RunStep(c, draws, k, states[k], trails[k], states[k + 1]);
      }
    }
  }

  lemma CountersStartLow(sim: RingStressSim, dummySlots: nat)
    requires sim.Valid() && sim.maxReadCounter == 0 && dummySlots > 0
    ensures AtMost(sim.readCounters[..], dummySlots - 1)
  {
  }
}
