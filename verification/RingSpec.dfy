/** The Ring ORAM simulation on values (src/ring_stress.rs, stress_ring): every state of a step, and how
    often a bucket is read between two evictions of it. */
module RingSpec {
  import opened Common
  import opened Geometry
  import opened Schedule
  import opened SlotTable
  import opened SimSpec
  import opened SimTables
  import opened SimEviction

  function SaturatingAdd(a: nat, b: nat): nat {
    if a + b > U32_MAX then U32_MAX else a + b
  }

  function Max(a: nat, b: nat): nat {
    if a >= b then a else b
  }

  /** Every bucket has been read at most `bound` times since it was last written. */
  ghost predicate AtMost(counters: seq<nat>, bound: int) {
    forall n :: 0 <= n < |counters| ==> counters[n] <= bound
  }

  /** The recorded maximum is one that was recorded before or a present counter: no bound on both is
      exceeded. */
  ghost predicate MaxOf(before: nat, counters: seq<nat>, max: nat) {
    forall bound {:trigger AtMost(counters, bound)} :: before <= bound && AtMost(counters, bound) ==> max <= bound
  }

  /** One more read of every bucket of the path. */
  ghost predicate Counted(before: seq<nat>, after: seq<nat>, path: seq<nat>) {
    && |after| == |before|
    && forall n :: 0 <= n < |before| ==> after[n] == if n in path then SaturatingAdd(before[n], 1) else before[n]
  }

  /** Reads of the first `d` listed buckets were reset. */
  ghost predicate Cleared(before: seq<nat>, after: seq<nat>, path: seq<nat>, d: nat) {
    && |after| == |before| && d <= |path|
    && forall n :: 0 <= n < |before| ==> after[n] == if n in path[..d] then 0 else before[n]
  }

  /** Table, labels, stash, reads of each bucket since it was written, and the most reads ever seen. */
  datatype RingState = RingState(slots: seq<nat>, pos: seq<nat>, stash: seq<SimBlock>, counters: seq<nat>,
                                 maxReads: nat)

  /** Where a simulation starts: every id placed under its drawn label, nothing read. */
  ghost predicate StartsAs(p: OramParams, draws: nat -> nat, s: RingState)
    requires p.Valid()
  {
    && (s.slots, s.stash) == InitialTable(p, draws, p.logicalBlocks)
    && |s.pos| == p.logicalBlocks && (forall i :: 0 <= i < |s.pos| ==> Residue(draws(i), s.pos[i], p.leaves))
    && |s.counters| == p.BucketCount() && (forall n :: 0 <= n < |s.counters| ==> s.counters[n] == 0) && s.maxReads == 0
  }

  /** The id was taken from its place, relabelled by the draw and put at the end of the stash; every bucket
      of its old path was read once more. */
  ghost predicate Accessed(p: OramParams, a: RingState, id: nat, draw: nat, b: RingState) {
    && p.leaves > 0 && id < |a.pos| && id < |b.pos|
    && b.pos == a.pos[id := b.pos[id]] && Residue(draw, b.pos[id], p.leaves)
    && b.stash != [] && b.stash[|b.stash| - 1] == SimBlock(id, b.pos[id])
    && TakenOut(a.slots, a.stash, id, b.slots, b.stash[..|b.stash| - 1])
    && Counted(a.counters, b.counters, p.PathNodes(a.pos[id]))
    && a.maxReads <= b.maxReads && AtMost(b.counters, b.maxReads) && MaxOf(a.maxReads, b.counters, b.maxReads)
  }

  /** When an eviction is due: its path was emptied and refilled, and its counters restarted. */
  ghost predicate PathEvicted(p: OramParams, a: RingState, evict: Option<nat>, b: RingState)
    requires p.Valid()
  {
    if evict.None? then b == a
    else
      && evict.value < p.leaves && b.pos == a.pos && b.maxReads == a.maxReads
      && Evicted(p, a.pos, evict.value, a.slots, a.stash, b.slots, b.stash)
      && Cleared(a.counters, b.counters, p.PathNodes(evict.value), p.Height())
  }

  function EmptiedBucket(p: OramParams, slots: seq<nat>, node: nat): (r: seq<nat>)
    requires p.bucketSize > 0
    ensures |r| == |slots|
    ensures forall o :: 0 <= o < |r| ==> r[o] == if NodeOf(p, o) == node then EMPTY_SLOT else slots[o]
  {
    seq<nat>(|slots|, (o: int) requires 0 <= o < |slots| => if NodeOf(p, o) == node then EMPTY_SLOT else slots[o])
  }

  /** A bucket read `dummySlots` times was read into the stash and refilled, and its counter restarted. */
  ghost predicate BucketReshuffled(p: OramParams, depth: nat, leaf: nat, dummySlots: nat, a: RingState, b: RingState)
    requires p.Valid() && leaf < p.leaves && depth < p.Height()
  {
    var node := p.NodeIndex(depth, leaf);
    && node < |a.counters| && node < p.BucketCount() && |a.slots| == TableSize(p)
    && if a.counters[node] < dummySlots then b == a
       else
         && Labelled(BucketSlots(p, a.slots, node), a.pos)
         && b == a.(slots := b.slots, stash := b.stash, counters := a.counters[node := 0])
         && (b.slots, b.stash) == BucketRefill(p, depth, node, EmptiedBucket(p, a.slots, node),
                                               a.stash + BlocksOf(BucketSlots(p, a.slots, node), a.pos))
  }

  /** The states of one step: before it, after the access, after the eviction if one was due, and after each
      bucket of the read path, leaf first, was looked at. */
  ghost predicate StepTrail(p: OramParams, id: nat, draw: nat, evict: Option<nat>, dummySlots: nat,
                            trail: seq<RingState>) {
    && p.Valid() && |trail| == p.Height() + 3 && id < |trail[0].pos| && trail[0].pos[id] < p.leaves
    && Accessed(p, trail[0], id, draw, trail[1]) && PathEvicted(p, trail[1], evict, trail[2])
    && forall i :: 2 <= i < |trail| - 1 ==>
         BucketReshuffled(p, p.Height() + 1 - i, trail[0].pos[id], dummySlots, trail[i], trail[i + 1])
  }

  /** How many of the first `k` buckets looked at were reshuffled. */
  function Reshuffles(p: OramParams, leaf: nat, dummySlots: nat, trail: seq<RingState>, k: nat): nat
    requires k <= p.Height() && |trail| >= k + 3
  {
    if k == 0 then 0
    else
      var node := p.NodeIndex(p.Height() - k, leaf);
      var counters := trail[k + 1].counters;
      Reshuffles(p, leaf, dummySlots, trail, k - 1) +
        (if node < |counters| && counters[node] >= dummySlots then 1 else 0)
  }

  /** Counters only fall while buckets are reshuffled, and a bucket not on the read path keeps its own. */
  lemma {:induction false} ReshufflesLower(p: OramParams, id: nat, draw: nat, evict: Option<nat>, dummySlots: nat,
                                           trail: seq<RingState>, k: nat)
    requires StepTrail(p, id, draw, evict, dummySlots, trail) && k <= p.Height()
    ensures |trail[k + 2].counters| == |trail[2].counters| && trail[k + 2].maxReads == trail[2].maxReads
    ensures forall n :: 0 <= n < |trail[2].counters| ==>
              trail[k + 2].counters[n] == 0 || trail[k + 2].counters[n] == trail[2].counters[n]
  {
    hide OramParams.NodeIndex, Accessed, PathEvicted, TableSize;
    if k > 0 {
      ReshufflesLower(p, id, draw, evict, dummySlots, trail, k - 1);
      var i := k + 1;
      assert BucketReshuffled(p, p.Height() + 1 - i, trail[0].pos[id], dummySlots, trail[i], trail[i + 1]);
    }
  }

  /** No bucket reaches the bound: nothing is reshuffled. */
  lemma {:induction false} NoneReshuffled(p: OramParams, id: nat, draw: nat, evict: Option<nat>, dummySlots: nat,
                                          trail: seq<RingState>, k: nat)
    requires StepTrail(p, id, draw, evict, dummySlots, trail) && k <= p.Height()
    requires AtMost(trail[2].counters, dummySlots - 1) && dummySlots > 0
    ensures Reshuffles(p, trail[0].pos[id], dummySlots, trail, k) == 0
  {
    hide OramParams.NodeIndex, Accessed, PathEvicted, TableSize, BucketReshuffled;
    if k > 0 {
      NoneReshuffled(p, id, draw, evict, dummySlots, trail, k - 1);
      ReshufflesLower(p, id, draw, evict, dummySlots, trail, k - 1);
      var counters, node := trail[k - 1 + 2].counters, p.NodeIndex(p.Height() - k, trail[0].pos[id]);
      assert trail[k + 1].counters == counters;
      assert node < |counters| ==> trail[2].counters[node] <= dummySlots - 1;
    }
  }

  /** Step number after which eviction `u` took place. */
  function EvictedAt(u: nat, period: nat): nat {
    (u + 1) * period
  }

  /** After `step` steps no bucket has been read more often than there were steps since the last eviction of
      it, or since the start. */
  ghost predicate ReadsSince(p: OramParams, period: nat, step: nat, counters: seq<nat>)
    requires p.Valid() && period > 0 && 0 < p.LeafBits() <= 32
  {
    && |counters| == p.BucketCount()
    && (forall n :: 0 <= n < |counters| ==> counters[n] <= step)
    && forall n, u: nat ::
         0 <= n < |counters| && EvictedAt(u, period) <= step && n in p.PathNodes(EvictionLeafAt(p, u)) ==>
           counters[n] + EvictedAt(u, period) <= step
  }

  /** Evictions due: one after every `period` steps, of the path the schedule names. */
  ghost predicate Due(p: OramParams, period: nat, step: nat, evict: Option<nat>)
    requires p.Valid() && period > 0 && 0 < p.LeafBits() <= 32
  {
    evict == if (step + 1) % period == 0 then Some(EvictionLeafAt(p, step / period)) else None
  }

  /** One step keeps the bound. */
  lemma ReadsAfterStep(p: OramParams, period: nat, step: nat, id: nat, draw: nat, evict: Option<nat>, dummySlots: nat,
                       trail: seq<RingState>)
    requires p.Valid() && period > 0 && 0 < p.LeafBits() <= 32
    requires StepTrail(p, id, draw, evict, dummySlots, trail) && Due(p, period, step, evict)
    requires ReadsSince(p, period, step, trail[0].counters)
    ensures ReadsSince(p, period, step + 1, trail[p.Height() + 2].counters)
  {
    StepCounters(p, id, draw, evict, dummySlots, trail);
    ReadsGrow(p, period, step, evict, trail[0].counters, trail[p.Height() + 2].counters);
  }

  /** What a step does to the counters: one more read at most, and none left on an evicted path. */
  lemma StepCounters(p: OramParams, id: nat, draw: nat, evict: Option<nat>, dummySlots: nat, trail: seq<RingState>)
    requires StepTrail(p, id, draw, evict, dummySlots, trail)
    ensures var c0, c1, c := trail[0].counters, trail[1].counters, trail[p.Height() + 2].counters;
            && |c| == |c1| == |c0|
            && (forall n :: 0 <= n < |c0| ==> c1[n] <= c0[n] + 1 && c[n] <= c0[n] + 1)
            && (evict.Some? ==> forall n :: 0 <= n < |c0| && n in p.PathNodes(evict.value) ==> c[n] == 0)
  {
    hide OramParams.NodeIndex, OramParams.PathNodes, TakenOut, Evicted, TableSize, Residue, BucketReshuffled;
    var c0, c1, c2, c := trail[0].counters, trail[1].counters, trail[2].counters, trail[p.Height() + 2].counters;
    ReshufflesLower(p, id, draw, evict, dummySlots, trail, p.Height());
    if evict.Some? {
      forall n | 0 <= n < |c0| && n in p.PathNodes(evict.value)
        ensures c[n] == 0
      {
        ClearedOnPath(p, trail[1], evict.value, trail[2], n);
      }
    }
  }

  lemma ReadsGrow(p: OramParams, period: nat, step: nat, evict: Option<nat>, c0: seq<nat>, c: seq<nat>)
    requires p.Valid() && period > 0 && 0 < p.LeafBits() <= 32 && Due(p, period, step, evict)
    requires ReadsSince(p, period, step, c0) && |c| == |c0| && forall n :: 0 <= n < |c| ==> c[n] <= c0[n] + 1
    requires evict.Some? ==> forall n :: 0 <= n < |c| && n in p.PathNodes(evict.value) ==> c[n] == 0
    ensures ReadsSince(p, period, step + 1, c)
  {
    hide OramParams.NodeIndex, OramParams.PathNodes, EvictionLeafAt, EvictedAt;
    forall n, u: nat | 0 <= n < |c| && EvictedAt(u, period) <= step + 1 && n in p.PathNodes(EvictionLeafAt(p, u))
      ensures c[n] + EvictedAt(u, period) <= step + 1
    {
      if EvictedAt(u, period) == step + 1 {
        LastEviction(u, step, period);
      } else {
        assert c0[n] + EvictedAt(u, period) <= step;
      }
    }
  }

  lemma LastEviction(u: nat, step: nat, period: nat)
    requires period > 0 && EvictedAt(u, period) == step + 1
    ensures (step + 1) % period == 0 && step / period == u
  {
    DivUnique(step + 1, period, u + 1, 0);
    assert step == u * period + (period - 1);
    DivUnique(step, period, u, period - 1);
  }

  lemma ClearedOnPath(p: OramParams, a: RingState, leaf: nat, b: RingState, n: nat)
    requires p.Valid() && PathEvicted(p, a, Some(leaf), b) && n < |b.counters| && n in p.PathNodes(leaf)
    ensures b.counters[n] == 0
  {
    assert p.PathNodes(leaf)[..p.Height()] == p.PathNodes(leaf);
  }

  /** A bucket of depth `d` has been read fewer than `period * 2^d` times: one of the last `2^d` evictions was
      of it. */
  lemma ReadsBounded(p: OramParams, period: nat, step: nat, counters: seq<nat>, d: nat, node: nat)
    requires p.Valid() && period > 0 && 0 < p.LeafBits() <= 32 && d < p.Height()
    requires ReadsSince(p, period, step, counters) && Pow2(d) - 1 <= node < Pow2(d + 1) - 1 && node < |counters|
    ensures counters[node] < period * Pow2(d)
  {
    hide OramParams.NodeIndex, EvictionLeafAt, EvictedAt;
    var e, window := step / period, Pow2(d);
    if e < window {
      EarlySteps(e, window, period, step);
      hide ReadsSince;
      assert counters[node] <= step by { NoMoreThanSteps(p, period, step, counters, node); }
    } else {
      var u := WindowVisitsEachBucketOnce(p, d, e - window, node);
      assert node == p.PathNodes(EvictionLeafAt(p, u))[d];
      EvictedTimes(e, window, u, period, step);
    }
  }

  lemma NoMoreThanSteps(p: OramParams, period: nat, step: nat, counters: seq<nat>, node: nat)
    requires p.Valid() && period > 0 && 0 < p.LeafBits() <= 32
    requires ReadsSince(p, period, step, counters) && node < |counters|
    ensures counters[node] <= step
  {
  }

  lemma EarlySteps(e: nat, window: nat, period: nat, step: nat)
    requires period > 0 && e == step / period && e < window
    ensures step < period * window
  {
    assert step == e * period + step % period;
    MulMonotone(e + 1, window, period);
    assert (e + 1) * period == e * period + period;
  }

  lemma EvictedTimes(e: nat, window: nat, u: nat, period: nat, step: nat)
    requires 0 < window <= e && e - window <= u < e && period > 0 && e == step / period
    ensures EvictedAt(u, period) <= step && step < EvictedAt(u, period) + period * window
  {
    assert step == e * period + step % period;
    MulMonotone(u + 1, e, period);
    MulMonotone(e, u + window, period);
    assert (u + 1) * period + period * window == (u + window) * period + period;
  }

  lemma {:induction false} DepthOfNode(n: nat, h: nat) returns (d: nat)
    requires n < Pow2(h) - 1
    ensures d < h && Pow2(d) - 1 <= n < Pow2(d + 1) - 1
  {
    if n < Pow2(h - 1) - 1 {
      d := DepthOfNode(n, h - 1);
    } else {
      d := h - 1;
    }
  }

  /** No bucket has been read `period * leaves` times. */
  lemma AllReadsBounded(p: OramParams, period: nat, step: nat, counters: seq<nat>)
    requires p.Valid() && period > 0 && 0 < p.LeafBits() <= 32 && ReadsSince(p, period, step, counters)
    ensures AtMost(counters, period * p.leaves - 1)
  {
    hide ReadsSince;
    LeavesArePow2(p);
    forall n | 0 <= n < |counters|
      ensures counters[n] <= period * p.leaves - 1
    {
      CountersPerBucket(p, period, step, counters);
      var d := DepthOfNode(n, p.Height());
      ReadsBounded(p, period, step, counters, d, n);
      Pow2Monotone(d, p.Height() - 1);
      MulMonotone(Pow2(d), p.leaves, period);
      assert period * Pow2(d) == Pow2(d) * period && period * p.leaves == p.leaves * period;
    }
  }

  lemma CountersPerBucket(p: OramParams, period: nat, step: nat, counters: seq<nat>)
    requires p.Valid() && period > 0 && 0 < p.LeafBits() <= 32 && ReadsSince(p, period, step, counters)
    ensures |counters| == p.BucketCount()
  {
  }

  /** Right after the access of a step, a bucket of depth `d` has been read at most `period * 2^d` times since
      it was last written. */
  ghost predicate ReadsFit(p: OramParams, period: nat, trail: seq<RingState>) {
    && |trail| > 1
    && forall d: nat, node {:trigger trail[1].counters[node], Pow2(d)} ::
         d < p.Height() && 0 <= node < |trail[1].counters| && Pow2(d) - 1 <= node < Pow2(d + 1) - 1 ==>
           trail[1].counters[node] <= period * Pow2(d)
  }

  /** One step under the eviction schedule: reads stay bounded, the recorded maximum with them, and with more
      dummy slots than the bound nothing is reshuffled early. */
  lemma StepReads(p: OramParams, period: nat, step: nat, id: nat, draw: nat, evict: Option<nat>, dummySlots: nat,
                  trail: seq<RingState>)
    requires p.Valid() && period > 0 && 0 < p.LeafBits() <= 32
    requires StepTrail(p, id, draw, evict, dummySlots, trail) && Due(p, period, step, evict)
    requires ReadsSince(p, period, step, trail[0].counters) && trail[0].maxReads <= period * p.leaves
    ensures ReadsFit(p, period, trail) && trail[p.Height() + 2].maxReads <= period * p.leaves
    ensures ReadsSince(p, period, step + 1, trail[p.Height() + 2].counters)
    ensures dummySlots > period * p.leaves ==>
              Reshuffles(p, trail[0].pos[id], dummySlots, trail, p.Height()) == 0
  {
    ReadsAfterStep(p, period, step, id, draw, evict, dummySlots, trail);
    FitAfterAccess(p, period, step, id, draw, evict, dummySlots, trail);
    hide ReadsSince, OramParams.NodeIndex, OramParams.PathNodes, TakenOut, Evicted, TableSize, Residue,
         BucketReshuffled;
    AllReadsBounded(p, period, step, trail[0].counters);
    StepCounters(p, id, draw, evict, dummySlots, trail);
    ReshufflesLower(p, id, draw, evict, dummySlots, trail, p.Height());
    assert AtMost(trail[1].counters, period * p.leaves);
    if dummySlots > period * p.leaves {
      assert AtMost(trail[2].counters, dummySlots - 1);
      NoneReshuffled(p, id, draw, evict, dummySlots, trail, p.Height());
    }
  }

  lemma FitAfterAccess(p: OramParams, period: nat, step: nat, id: nat, draw: nat, evict: Option<nat>, dummySlots: nat,
                       trail: seq<RingState>)
    requires p.Valid() && period > 0 && 0 < p.LeafBits() <= 32
    requires StepTrail(p, id, draw, evict, dummySlots, trail) && ReadsSince(p, period, step, trail[0].counters)
    ensures ReadsFit(p, period, trail)
  {
    StepCounters(p, id, draw, evict, dummySlots, trail);
    hide ReadsSince, StepTrail;
    forall d: nat, node | d < p.Height() && 0 <= node < |trail[1].counters| && Pow2(d) - 1 <= node < Pow2(d + 1) - 1
      ensures trail[1].counters[node] <= period * Pow2(d)
    {
      ReadsBounded(p, period, step, trail[0].counters, d, node);
    }
  }
}
