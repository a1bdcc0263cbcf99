/** The paths whose pages each request of the controller asks the stores for, in order (src/circuit.rs,
    dummy_access, access, access_batch and drain_evictions). */
module RequestedPaths {
  import opened Common
  import opened Geometry
  import opened Schedule
  import opened OramSpec
  import Spec = OramSpec
  import opened OramScans
  import opened BatchSteps
  import opened OramRuns

  function PathsTo(p: OramParams, leaves: seq<nat>): (paths: seq<seq<nat>>)
    ensures |paths| == |leaves| && forall i :: 0 <= i < |leaves| ==> paths[i] == p.PathNodes(leaves[i])
  {
    seq(|leaves|, (i: int) requires 0 <= i < |leaves| => p.PathNodes(leaves[i]))
  }

  /** What a request asks of the stores: the paths it reads, then the paths it writes. */
  datatype Traffic = Traffic(read: seq<seq<nat>>, written: seq<seq<nat>>)

  const SILENCE: Traffic := Traffic([], [])

  /** Every path read is written back. */
  function ThereAndBack(p: OramParams, leaves: seq<nat>): Traffic {
    Traffic(PathsTo(p, leaves), PathsTo(p, leaves))
  }

  /** Every access of a batch shows the label its id has after the accesses before it. */
  ghost function BatchShown<V>(c: Config<V>, s: State<V>, ids: seq<nat>, g: (nat, nat, V) -> V, k: nat)
    : (leaves: seq<nat>)
    requires WellFormed(c, s) && k <= |ids| && AccessAll(c, s, ids, g, k).Ok?
    ensures |leaves| == k
  {
    if k == 0 then []
    else BatchShown(c, s, ids, g, k - 1) + [AccessAll(c, s, ids, g, k - 1).value.1.pos[ids[k - 1]]]
  }

  /** Dummies show one draw each. */
  function DummyShown<V>(c: Config<V>, rng: nat, count: nat): (leaves: seq<nat>)
    requires c.params.leaves > 0
    ensures |leaves| == count
  {
    seq<nat>(count, (i: int) requires 0 <= i < count => RandomLeaf(c, rng + i))
  }

  /** Drains show the scheduled leaves. */
  function DrainShown(p: OramParams, completed: nat, n: nat): (leaves: seq<nat>)
    requires 0 < p.LeafBits() <= 32
    ensures |leaves| == n
  {
    seq<nat>(n, (i: int) requires 0 <= i < n => EvictionLeafAt(p, completed + i))
  }

  /** The leaves of the paths that a request which completes has touched. */
  ghost function Shown<V>(c: Config<V>, s: State<V>, op: Op<V>): seq<nat>
    requires WellFormed(c, s) && Step(c, s, op).Ok?
  {
    match op
    case Single(id, _) => [s.pos[id]]
    case Batch(ids, g) => BatchShown(c, s, ids, g, |ids|)
    case Dummy => [RandomLeaf(c, s.rng)]
    case DummyBatch(count) => DummyShown(c, s.rng, count)
    case DrainBudget(budget) =>
      LeafBitsFit(c.params);
      DrainShown(c.params, s.sched.completed, Spec.DrainEvictions(c, s, budget).value.0)
  }

  ghost function RunShown<V>(c: Config<V>, s: State<V>, ops: seq<Op<V>>): seq<nat>
    requires WellFormed(c, s) && Run(c, s, ops).Ok?
    decreases |ops|
  {
    if ops == [] then [] else Shown(c, s, ops[0]) + RunShown(c, Step(c, s, ops[0]).value.1, ops[1..])
  }

  /** What the stores are asked for, request by request. */
  ghost function RunTraffic<V>(c: Config<V>, s: State<V>, ops: seq<Op<V>>): (traffic: seq<Traffic>)
    requires WellFormed(c, s) && Run(c, s, ops).Ok?
    ensures |traffic| == |ops|
    decreases |ops|
  {
    if ops == [] then []
    else [ThereAndBack(c.params, Shown(c, s, ops[0]))] + RunTraffic(c, Step(c, s, ops[0]).value.1, ops[1..])
  }

  /** The leaves the controller computes for a batch before it starts are those. */
  lemma {:induction false} BatchLeavesShown<V>(c: Config<V>, s: State<V>, ids: seq<nat>, g: (nat, nat, V) -> V,
                                               newLeaves: seq<nat>, leaves: seq<nat>, k: nat)
    requires WellFormed(c, s) && k <= |ids| && AccessAll(c, s, ids, g, k).Ok?
    requires Drawn(c, s.rng, newLeaves) && BatchLeaves(s.pos, ids, newLeaves, leaves)
    requires forall i :: 0 <= i < |ids| ==> ids[i] < c.params.logicalBlocks
    ensures BatchShown(c, s, ids, g, k) == leaves[..k]
    decreases k
  {
    hide Spec.Access, Relabel, LastLabel;
    if k > 0 {
      BatchLeavesShown(c, s, ids, g, newLeaves, leaves, k - 1);
      var (outs, mid) := AccessAll(c, s, ids, g, k - 1).value;
      assert mid.pos[ids[k - 1]] == leaves[k - 1] by {
        BatchLabels(c, s, mid, ids, g, newLeaves, outs, k - 1);
      }
      assert leaves[..k] == leaves[..k - 1] + [leaves[k - 1]];
    }
  }

  lemma SilenceShown(p: OramParams, completed: nat)
    requires 0 < p.LeafBits() <= 32
    ensures SILENCE == ThereAndBack(p, []) == ThereAndBack(p, DrainShown(p, completed, 0))
  {
  }

  lemma NoDummiesShown<V>(c: Config<V>, rng: nat)
    requires c.params.leaves > 0
    ensures SILENCE == ThereAndBack(c.params, DummyShown(c, rng, 0))
  {
  }

  lemma ScheduledPathsShown(p: OramParams, sched: Counters, paths: seq<seq<nat>>)
    requires 0 < p.LeafBits() <= 32 && ScheduledPaths(p, sched, paths)
    ensures Traffic(paths, paths) == ThereAndBack(p, DrainShown(p, sched.completed, |paths|))
  {
    hide OramParams.PathNodes, ReverseBitsMod;
    var leaves := DrainShown(p, sched.completed, |paths|);
    forall i | 0 <= i < |paths|
      ensures paths[i] == PathsTo(p, leaves)[i]
    {
      assert leaves[i] == EvictionLeafAt(p, sched.completed + i);
    }
    assert PathsTo(p, leaves) == paths;
  }

  lemma DrawnPathsShown<V>(c: Config<V>, rng: nat, leaves: seq<nat>, paths: seq<seq<nat>>)
    requires c.params.leaves > 0 && Drawn(c, rng, leaves) && |paths| == |leaves|
    requires forall i :: 0 <= i < |paths| ==> paths[i] == c.params.PathNodes(leaves[i])
    ensures Traffic(paths, paths) == ThereAndBack(c.params, DummyShown(c, rng, |paths|))
  {
    hide OramParams.PathNodes;
    assert DummyShown(c, rng, |paths|) == leaves;
  }

  lemma BatchPathsShown<V>(c: Config<V>, s: State<V>, ids: seq<nat>, g: (nat, nat, V) -> V, newLeaves: seq<nat>,
                           leaves: seq<nat>, paths: seq<seq<nat>>)
    requires WellFormed(c, s) && AccessAll(c, s, ids, g, |ids|).Ok?
    requires Drawn(c, s.rng, newLeaves) && BatchLeaves(s.pos, ids, newLeaves, leaves) && |paths| == |leaves|
    requires forall i :: 0 <= i < |ids| ==> ids[i] < c.params.logicalBlocks
    requires forall i :: 0 <= i < |paths| ==> paths[i] == c.params.PathNodes(leaves[i])
    ensures Traffic(paths, paths) == ThereAndBack(c.params, BatchShown(c, s, ids, g, |ids|))
  {
    hide AccessAll, OramParams.PathNodes, LastLabel, RandomLeaf, BatchShown, TreeShape;
    assert BatchShown(c, s, ids, g, |ids|) == leaves by {
      BatchLeavesShown(c, s, ids, g, newLeaves, leaves, |ids|);
      assert leaves[..|ids|] == leaves;
    }
    assert PathsTo(c.params, leaves) == paths;
  }

  /** Nothing asked for, nothing touched. */
  lemma EmptyBatch<V>(c: Config<V>, s: State<V>, ids: seq<nat>, g: (nat, nat, V) -> V)
    requires WellFormed(c, s)
    ensures ids == [] ==>
              && AccessAll(c, s, ids, g, |ids|) == Ok(([], s))
              && LabelsDrawn(c.draws, c.params.leaves, s.rng, ids, 0, s.pos, s.pos, s.rng)
              && SILENCE == ThereAndBack(c.params, BatchShown(c, s, ids, g, |ids|))
  {
  }
}
