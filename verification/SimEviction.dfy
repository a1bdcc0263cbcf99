/** Path evictions of the simulators: read every bucket of the path into the stash, then refill from
    the leaf up. The counts that result are those of the controller's planner. */
module SimEviction {
  import opened Geometry
  import opened SlotTable
  import opened EvictionPlan
  import opened SimSpec
  import opened SimTables

  /** Blocks of the first `i` buckets of the path, root first. */
  function PathBlocks(p: OramParams, pos: seq<nat>, leaf: nat, slots: seq<nat>, i: nat): seq<SimBlock>
    requires p.Valid() && leaf < p.leaves && i <= p.Height()
    requires |slots| == TableSize(p) && Labelled(slots, pos)
  {
    if i == 0 then []
    else
      NodeIndexRange(p, i - 1, leaf);
      LabelledBucket(p, slots, pos, p.NodeIndex(i - 1, leaf));
      PathBlocks(p, pos, leaf, slots, i - 1) + BlocksOf(BucketSlots(p, slots, p.NodeIndex(i - 1, leaf)), pos)
  }

  lemma LabelledBucket(p: OramParams, slots: seq<nat>, pos: seq<nat>, node: nat)
    requires p.bucketSize > 0 && |slots| == TableSize(p) && node < p.BucketCount() && Labelled(slots, pos)
    ensures Labelled(BucketSlots(p, slots, node), pos)
  {
    hide BucketBase, TableSize, NodeOf, BucketSlots;
    forall j | 0 <= j < p.bucketSize
      ensures BucketSlots(p, slots, node)[j] in slots
    {
      BucketSlotAt(p, slots, node, j);
    }
  }

  /** The path has been read down to depth `i`. */
  ghost predicate PathRead(p: OramParams, pos: seq<nat>, leaf: nat, slots0: seq<nat>, stash0: seq<SimBlock>, i: nat,
                           slots: seq<nat>, stash: seq<SimBlock>)
    requires p.Valid() && leaf < p.leaves && i <= p.Height()
  {
    && |slots| == |slots0| == TableSize(p) && Labelled(slots0, pos)
    && (forall o :: 0 <= o < |slots| ==>
          slots[o] == if NodeOf(p, o) in p.PathNodes(leaf)[..i] then EMPTY_SLOT else slots0[o])
    && stash == stash0 + PathBlocks(p, pos, leaf, slots0, i)
  }

  lemma ReadStart(p: OramParams, pos: seq<nat>, leaf: nat, slots: seq<nat>, stash: seq<SimBlock>)
    requires p.Valid() && leaf < p.leaves && |slots| == TableSize(p) && Labelled(slots, pos)
    ensures PathRead(p, pos, leaf, slots, stash, 0, slots, stash)
  {
    hide OramParams.PathNodes, NodeOf;
  }

  /** Buckets with the same slots show the same content. */
  lemma SameBucket(p: OramParams, a: seq<nat>, b: seq<nat>, node: nat)
    requires p.bucketSize > 0 && |a| == |b| == TableSize(p) && node < p.BucketCount()
    requires forall o :: 0 <= o < |a| && NodeOf(p, o) == node ==> a[o] == b[o]
    ensures BucketSlots(p, a, node) == BucketSlots(p, b, node)
  {
    hide NodeOf, TableSize, BucketSlots;
    forall j | 0 <= j < p.bucketSize
      ensures BucketSlots(p, a, node)[j] == BucketSlots(p, b, node)[j]
    {
      BucketSlotAt(p, a, node, j);
      BucketSlotAt(p, b, node, j);
    }
  }

  lemma BucketSlotAt(p: OramParams, slots: seq<nat>, node: nat, j: nat)
    requires p.bucketSize > 0 && |slots| == TableSize(p) && node < p.BucketCount() && j < p.bucketSize
    ensures var o := BucketBase(p, node) + j;
            o < |slots| && NodeOf(p, o) == node && BucketSlots(p, slots, node)[j] == slots[o]
  {
    SlotsOfNode(p, node, BucketBase(p, node) + j);
  }

  lemma PrefixNodes(p: OramParams, leaf: nat, i: nat, node: nat)
    requires p.Valid() && leaf < p.leaves && i < p.Height()
    ensures p.NodeIndex(i, leaf) !in p.PathNodes(leaf)[..i]
    ensures node in p.PathNodes(leaf)[..i + 1] <==> node in p.PathNodes(leaf)[..i] || node == p.NodeIndex(i, leaf)
    ensures p.NodeIndex(i, leaf) !in p.PathNodes(leaf)[i + 1..]
    ensures node in p.PathNodes(leaf)[i..] <==> node in p.PathNodes(leaf)[i + 1..] || node == p.NodeIndex(i, leaf)
  {
    PathNodesDistinct(p, leaf);
    hide OramParams.NodeIndex;
    var path := p.PathNodes(leaf);
    assert path[..i + 1] == path[..i] + [path[i]];
    assert path[i..] == [path[i]] + path[i + 1..];
  }

  lemma ReadStep(p: OramParams, pos: seq<nat>, leaf: nat, slots0: seq<nat>, stash0: seq<SimBlock>, i: nat,
                 slots: seq<nat>, stash: seq<SimBlock>, slots': seq<nat>, stash': seq<SimBlock>)
    requires p.Valid() && leaf < p.leaves && i < p.Height() && p.NodeIndex(i, leaf) < p.BucketCount()
    requires PathRead(p, pos, leaf, slots0, stash0, i, slots, stash)
    requires SameOutside(p, slots, slots', p.NodeIndex(i, leaf))
    requires forall o :: 0 <= o < |slots'| && NodeOf(p, o) == p.NodeIndex(i, leaf) ==> slots'[o] == EMPTY_SLOT
    requires Labelled(BucketSlots(p, slots, p.NodeIndex(i, leaf)), pos)
    requires stash' == stash + BlocksOf(BucketSlots(p, slots, p.NodeIndex(i, leaf)), pos)
    ensures PathRead(p, pos, leaf, slots0, stash0, i + 1, slots', stash')
  {
    hide OramParams.PathNodes, OramParams.NodeIndex, NodeOf, TableSize, BucketSlots, BlocksOf;
    var node := p.NodeIndex(i, leaf);
    PrefixNodes(p, leaf, i, node);
    SameBucket(p, slots, slots0, node);
    forall o | 0 <= o < |slots'|
      ensures slots'[o] == if NodeOf(p, o) in p.PathNodes(leaf)[..i + 1] then EMPTY_SLOT else slots0[o]
    {
      PrefixNodes(p, leaf, i, NodeOf(p, o));
    }
    assert stash' == stash0 + (PathBlocks(p, pos, leaf, slots0, i) + BlocksOf(BucketSlots(p, slots0, node), pos));
  }

  /** The buckets of the path refilled from the leaf up to depth `i`. */
  function RefillPath(p: OramParams, leaf: nat, slots: seq<nat>, stash: seq<SimBlock>, i: nat)
    : (r: (seq<nat>, seq<SimBlock>))
    requires p.Valid() && leaf < p.leaves && i <= p.Height() && |slots| == TableSize(p)
    ensures |r.0| == |slots|
    decreases p.Height() - i
  {
    if i == p.Height() then (slots, stash)
    else
      var (s, q) := RefillPath(p, leaf, slots, stash, i + 1);
      NodeIndexRange(p, i, leaf);
      BucketRefill(p, i, p.NodeIndex(i, leaf), s, q)
  }

  /** The table with every bucket of the path empty. */
  function EmptiedPath(p: OramParams, leaf: nat, slots: seq<nat>): (r: seq<nat>)
    requires p.Valid()
    ensures |r| == |slots|
    ensures forall o :: 0 <= o < |r| ==> r[o] == if NodeOf(p, o) in p.PathNodes(leaf) then EMPTY_SLOT else slots[o]
  {
    seq<nat>(|slots|, (o: int) requires 0 <= o < |slots| =>
      if NodeOf(p, o) in p.PathNodes(leaf) then EMPTY_SLOT else slots[o])
  }

  /** The buckets of the path are refilled from depth `i` down; `pool` is the stash before. */
  ghost predicate PathRefilled(p: OramParams, leaf: nat, slots1: seq<nat>, pool: seq<SimBlock>, i: nat,
                               slots: seq<nat>, stash: seq<SimBlock>)
    requires p.Valid() && leaf < p.leaves && i <= p.Height()
  {
    var reach, h, z := SimReaches(p, leaf, pool), p.Height(), p.bucketSize;
    && |slots| == |slots1| == TableSize(p)
    && (slots, stash) == RefillPath(p, leaf, slots1, pool, i)
    && |stash| + Capacity(reach, i, h, z) == |pool|
    && (forall e :: 0 <= e <= i ==>
          Eligible(SimReaches(p, leaf, stash), e) + Capacity(reach, i, h, z) == Eligible(reach, e))
    && (forall d :: i <= d < h ==>
          DepthLoad(p, leaf, slots, d) + Capacity(reach, d + 1, h, z) == Capacity(reach, d, h, z))
    && (forall o :: 0 <= o < |slots| && NodeOf(p, o) !in p.PathNodes(leaf)[i..] ==> slots[o] == slots1[o])
  }

  /** Blocks at depth `d` of the path. */
  function DepthLoad(p: OramParams, leaf: nat, slots: seq<nat>, d: nat): nat
    requires p.Valid() && leaf < p.leaves && d < p.Height() && |slots| == TableSize(p)
  {
    NodeIndexRange(p, d, leaf);
    Load(BucketSlots(p, slots, p.NodeIndex(d, leaf)))
  }

  lemma RefillStart(p: OramParams, leaf: nat, slots: seq<nat>, pool: seq<SimBlock>)
    requires p.Valid() && leaf < p.leaves && |slots| == TableSize(p)
    ensures PathRefilled(p, leaf, slots, pool, p.Height(), slots, pool)
  {
    hide OramParams.PathNodes, NodeOf;
  }

  lemma {:induction false} AllFree(bucket: seq<nat>)
    requires forall j :: 0 <= j < |bucket| ==> bucket[j] == EMPTY_SLOT
    ensures FreeSlots(bucket) == |bucket|
    decreases |bucket|
  {
    if bucket != [] { AllFree(bucket[..|bucket| - 1]); }
  }

  lemma EmptyBucket(p: OramParams, slots: seq<nat>, node: nat)
    requires p.bucketSize > 0 && |slots| == TableSize(p) && node < p.BucketCount()
    requires forall o :: 0 <= o < |slots| && NodeOf(p, o) == node ==> slots[o] == EMPTY_SLOT
    ensures FreeSlots(BucketSlots(p, slots, node)) == p.bucketSize
  {
    hide NodeOf, BucketBase, TableSize, FreeSlots, BucketSlots;
    forall j | 0 <= j < p.bucketSize
      ensures BucketSlots(p, slots, node)[j] == EMPTY_SLOT
    {
      BucketSlotAt(p, slots, node, j);
    }
    AllFree(BucketSlots(p, slots, node));
  }

  /** Refilling the bucket at depth `i` from what deeper buckets left over. */
  lemma RefillStep(p: OramParams, leaf: nat, slots1: seq<nat>, pool: seq<SimBlock>, i: nat,
                   slots: seq<nat>, stash: seq<SimBlock>, slots': seq<nat>, stash': seq<SimBlock>)
    requires p.Valid() && leaf < p.leaves && i < p.Height() && p.NodeIndex(i, leaf) < p.BucketCount()
    requires PathRefilled(p, leaf, slots1, pool, i + 1, slots, stash)
    requires forall o :: 0 <= o < |slots1| && NodeOf(p, o) in p.PathNodes(leaf) ==> slots1[o] == EMPTY_SLOT
    requires RefilledBucket(p, leaf, i, slots, stash, slots', stash', p.NodeIndex(i, leaf))
    ensures PathRefilled(p, leaf, slots1, pool, i, slots', stash')
  {
    hide OramParams.PathNodes, OramParams.NodeIndex, NodeOf, TableSize, BucketSlots, SimReach, Eligible, FreeSlots;
    var node := p.NodeIndex(i, leaf);
    PrefixNodes(p, leaf, i, node);
    NodeOnPath(p, leaf, i);
    EmptyBucket(p, slots, node);
    forall d | i < d < p.Height()
      ensures DepthLoad(p, leaf, slots', d) == DepthLoad(p, leaf, slots, d)
    {
      DepthUnchanged(p, leaf, slots, slots', i, d);
    }
    forall o | 0 <= o < |slots'| && NodeOf(p, o) !in p.PathNodes(leaf)[i..]
      ensures slots'[o] == slots1[o]
    {
      PrefixNodes(p, leaf, i, NodeOf(p, o));
    }
  }

  lemma DepthUnchanged(p: OramParams, leaf: nat, slots: seq<nat>, slots': seq<nat>, i: nat, d: nat)
    requires p.Valid() && leaf < p.leaves && i < p.Height() && d < p.Height() && d != i
    requires |slots| == TableSize(p) && SameOutside(p, slots, slots', p.NodeIndex(i, leaf))
    ensures DepthLoad(p, leaf, slots', d) == DepthLoad(p, leaf, slots, d)
  {
    hide NodeOf, TableSize, BucketSlots;
    NodeIndexRange(p, d, leaf);
    if p.NodeIndex(d, leaf) == p.NodeIndex(i, leaf) {
      NodeDepthUnique(p, d, i, leaf, leaf);
    }
    SameBucket(p, slots', slots, p.NodeIndex(d, leaf));
  }

  lemma {:induction false} BlockIsStored(bucket: seq<nat>, pos: seq<nat>, k: nat)
    requires Labelled(bucket, pos) && k < |BlocksOf(bucket, pos)|
    ensures var b := BlocksOf(bucket, pos)[k];
            b.id != EMPTY_SLOT && b.id < |pos| && b.leaf == pos[b.id] && b.id in bucket
    decreases |bucket|
  {
    if bucket != [] {
      var n := |bucket| - 1;
      if k < |BlocksOf(bucket[..n], pos)| {
        BlockIsStored(bucket[..n], pos, k);
        assert BlocksOf(bucket, pos)[k] == BlocksOf(bucket[..n], pos)[k];
      }
    }
  }

  /** A block stored at depth `d` of the path reaches below `d`. */
  lemma StoredReach(p: OramParams, pos: seq<nat>, leaf: nat, slots: seq<nat>, d: nat, k: nat)
    requires TableShape(p, slots, pos) && SlotsPlaced(p, slots, pos) && leaf < p.leaves && d < p.Height()
    requires p.NodeIndex(d, leaf) < p.BucketCount() && Labelled(BucketSlots(p, slots, p.NodeIndex(d, leaf)), pos)
    requires k < |BlocksOf(BucketSlots(p, slots, p.NodeIndex(d, leaf)), pos)|
    ensures d < SimReach(p, leaf, BlocksOf(BucketSlots(p, slots, p.NodeIndex(d, leaf)), pos)[k])
  {
    hide TableSize, BlocksOf, SimReach, OramParams.NodeIndex;
    var node := p.NodeIndex(d, leaf);
    var bucket := BucketSlots(p, slots, node);
    BlockIsStored(bucket, pos, k);
    var b := BlocksOf(bucket, pos)[k];
    var j :| 0 <= j < |bucket| && bucket[j] == b.id;
    SlotsOfNode(p, node, BucketBase(p, node));
    SlotsOfNode(p, node, BucketBase(p, node) + j);
    assert slots[BucketBase(p, node) + j] == b.id;
    assert node in p.PathNodes(b.leaf);
    var e :| 0 <= e < p.Height() && p.NodeIndex(e, b.leaf) == node;
    NodeDepthUnique(p, d, e, leaf, b.leaf);
    ReachFits(p, leaf, b, d);
  }

  /** Path blocks from depth `k` on reach below `k`. */
  lemma {:induction false} SuffixReach(p: OramParams, pos: seq<nat>, leaf: nat, slots: seq<nat>, k: nat, i: nat)
    requires TableShape(p, slots, pos) && SlotsPlaced(p, slots, pos) && Labelled(slots, pos)
    requires leaf < p.leaves && k <= i <= p.Height()
    ensures var all, some := PathBlocks(p, pos, leaf, slots, i), PathBlocks(p, pos, leaf, slots, k);
            && |some| <= |all| && all[..|some|] == some
            && forall j :: |some| <= j < |all| ==> k < SimReach(p, leaf, all[j])
    decreases i
  {
    hide TableSize, BlocksOf, SimReach, OramParams.NodeIndex, SlotsPlaced, BucketSlots;
    if k < i {
      SuffixReach(p, pos, leaf, slots, k, i - 1);
      NodeIndexRange(p, i - 1, leaf);
      var node := p.NodeIndex(i - 1, leaf);
      LabelledBucket(p, slots, pos, node);
      var last := BlocksOf(BucketSlots(p, slots, node), pos);
      forall j | 0 <= j < |last|
        ensures k < SimReach(p, leaf, last[j])
      {
        StoredReach(p, pos, leaf, slots, i - 1, j);
      }
    }
  }

  /** What an eviction of the path to `leaf` leaves behind: the path read into the stash, root first, and its
      buckets refilled, leaf first. */
  ghost predicate Evicted(p: OramParams, pos: seq<nat>, leaf: nat, slots0: seq<nat>, stash0: seq<SimBlock>,
                          slots: seq<nat>, stash: seq<SimBlock>)
    requires p.Valid() && leaf < p.leaves
  {
    && |slots| == |slots0| == TableSize(p) && Labelled(slots0, pos)
    && (slots, stash) == RefillPath(p, leaf, EmptiedPath(p, leaf, slots0),
                                    stash0 + PathBlocks(p, pos, leaf, slots0, p.Height()), 0)
    && var reach := SimReaches(p, leaf, stash0 + PathBlocks(p, pos, leaf, slots0, p.Height()));
       var h, z := p.Height(), p.bucketSize;
       && |stash| + Capacity(reach, 0, h, z) == |reach|
       && (forall d :: 0 <= d < h ==>
             DepthLoad(p, leaf, slots, d) + Capacity(reach, d + 1, h, z) == Capacity(reach, d, h, z))
       && (forall o :: 0 <= o < |slots| && NodeOf(p, o) !in p.PathNodes(leaf) ==> slots[o] == slots0[o])
  }

  lemma EvictionEnds(p: OramParams, pos: seq<nat>, leaf: nat, slots0: seq<nat>, stash0: seq<SimBlock>,
                     slots1: seq<nat>, pool: seq<SimBlock>, slots: seq<nat>, stash: seq<SimBlock>)
    requires p.Valid() && leaf < p.leaves
    requires PathRead(p, pos, leaf, slots0, stash0, p.Height(), slots1, pool)
    requires PathRefilled(p, leaf, slots1, pool, 0, slots, stash)
    ensures Evicted(p, pos, leaf, slots0, stash0, slots, stash)
  {
    hide NodeOf, TableSize, OramParams.NodeIndex, Capacity, DepthLoad, PathBlocks;
    var path := p.PathNodes(leaf);
    assert path[..p.Height()] == path && path[0..] == path;
    assert slots1 == EmptiedPath(p, leaf, slots0);
  }

  lemma ReadEmptiesPath(p: OramParams, pos: seq<nat>, leaf: nat, slots0: seq<nat>, stash0: seq<SimBlock>,
                        slots1: seq<nat>, pool: seq<SimBlock>)
    requires p.Valid() && leaf < p.leaves
    requires PathRead(p, pos, leaf, slots0, stash0, p.Height(), slots1, pool)
    ensures forall o :: 0 <= o < |slots1| && NodeOf(p, o) in p.PathNodes(leaf) ==> slots1[o] == EMPTY_SLOT
  {
    var path := p.PathNodes(leaf);
    assert path[..p.Height()] == path;
  }

  /** Path blocks from depth `k` on never exceed what refilling puts there. */
  lemma {:induction false} OwnBlocksFit(p: OramParams, pos: seq<nat>, leaf: nat, slots: seq<nat>, stash: seq<SimBlock>,
                                        k: nat)
    requires TableShape(p, slots, pos) && SlotsPlaced(p, slots, pos) && Labelled(slots, pos)
    requires leaf < p.leaves && k <= p.Height()
    ensures var all := PathBlocks(p, pos, leaf, slots, p.Height());
            |all| - |PathBlocks(p, pos, leaf, slots, k)| <=
            Capacity(SimReaches(p, leaf, stash + all), k, p.Height(), p.bucketSize)
    decreases p.Height() - k
  {
    hide TableSize, BlocksOf, SimReach, OramParams.NodeIndex, SlotsPlaced, BucketSlots, Eligible, Labelled;
    if k < p.Height() {
      OwnBlocksFit(p, pos, leaf, slots, stash, k + 1);
      var all, some := PathBlocks(p, pos, leaf, slots, p.Height()), PathBlocks(p, pos, leaf, slots, k);
      SuffixReach(p, pos, leaf, slots, k, p.Height());
      NodeIndexRange(p, k, leaf);
      LabelledBucket(p, slots, pos, p.NodeIndex(k, leaf));
      assert |PathBlocks(p, pos, leaf, slots, k + 1)| <= |some| + p.bucketSize;
      var rest := all[|some|..];
      assert SimReaches(p, leaf, stash + all) == SimReaches(p, leaf, stash + some) + SimReaches(p, leaf, rest);
      EligibleAppend(SimReaches(p, leaf, stash + some), SimReaches(p, leaf, rest), k);
      EligibleAll(SimReaches(p, leaf, rest), k);
    }
  }

  /** A simulated eviction never grows the stash. */
  lemma EvictionNeverGrows(p: OramParams, pos: seq<nat>, leaf: nat, slots0: seq<nat>, stash0: seq<SimBlock>,
                           slots: seq<nat>, stash: seq<SimBlock>)
    requires TableShape(p, slots0, pos) && SlotsPlaced(p, slots0, pos) && leaf < p.leaves
    requires Evicted(p, pos, leaf, slots0, stash0, slots, stash)
    ensures |stash| <= |stash0|
  {
    hide TableSize, SlotsPlaced, Capacity, DepthLoad, NodeOf, OramParams.PathNodes;
    OwnBlocksFit(p, pos, leaf, slots0, stash0, 0);
  }

  /** Reads the bucket at depth `d` of the path. */
  method ReadPathBucket(table: SimTable, leaf: nat, d: nat, ghost slots0: seq<nat>, ghost stash0: seq<SimBlock>,
                        ghost ids: multiset<nat>)
    requires table.Valid(ids) && table.params.Valid() && leaf < table.params.leaves && d < table.params.Height()
    requires PathRead(table.params, table.positionMap[..], leaf, slots0, stash0, d, table.slots[..], table.stash)
    modifies table`stash, table.slots
    ensures table.Valid(ids)
    ensures PathRead(table.params, table.positionMap[..], leaf, slots0, stash0, d + 1, table.slots[..], table.stash)
  {
    hide PathRead, Holds, SameOutside, OramParams.NodeIndex, NodeOf;
    NodeIndexRange(table.params, d, leaf);
    var node := table.params.NodeIndex(d, leaf);
    table.ReadBucketIntoStash(node, ids);
    assert |old(table.slots[..])| == TableSize(table.params) by { table.Sizes(ids); }
    ReadStep(table.params, table.positionMap[..], leaf, slots0, stash0, d, old(table.slots[..]), old(table.stash),
             table.slots[..], table.stash);
  }

  /** Refills the bucket at depth `d` of a path that was read. */
  method WritePathBucket(table: SimTable, leaf: nat, d: nat, ghost slots1: seq<nat>, ghost pool: seq<SimBlock>,
                         ghost ids: multiset<nat>)
    requires table.Valid(ids) && table.params.Valid() && leaf < table.params.leaves && d < table.params.Height()
    requires PathRefilled(table.params, leaf, slots1, pool, d + 1, table.slots[..], table.stash)
    requires forall o :: 0 <= o < |slots1| && NodeOf(table.params, o) in table.params.PathNodes(leaf) ==>
               slots1[o] == EMPTY_SLOT
    modifies table`stash, table.slots
    ensures table.Valid(ids)
    ensures PathRefilled(table.params, leaf, slots1, pool, d, table.slots[..], table.stash)
  {
    hide PathRefilled, Holds, RefilledBucket, OramParams.NodeIndex, NodeOf;
    NodeIndexRange(table.params, d, leaf);
    var node := table.params.NodeIndex(d, leaf);
    table.WriteBucketFromStash(d, node, leaf, ids);
    RefillStep(table.params, leaf, slots1, pool, d, old(table.slots[..]), old(table.stash), table.slots[..],
               table.stash);
  }

  /** Refills the buckets of a path that was read, leaf first. */
  method WritePathFromStash(table: SimTable, leaf: nat, ghost slots0: seq<nat>, ghost stash0: seq<SimBlock>,
                            ghost ids: multiset<nat>)
    requires table.Valid(ids) && table.params.Valid() && leaf < table.params.leaves
    requires PathRead(table.params, table.positionMap[..], leaf, slots0, stash0, table.params.Height(),
                      table.slots[..], table.stash)
    modifies table`stash, table.slots
    ensures table.Valid(ids)
    ensures Evicted(table.params, table.positionMap[..], leaf, slots0, stash0, table.slots[..], table.stash)
  {
    hide OramParams.NodeIndex, Holds, PathRead, PathRefilled, Evicted, NodeOf, TableSize, OramParams.PathNodes,
         OramParams.BucketCount;
    ghost var p, slots1, pool := table.params, table.slots[..], table.stash;
    assert |slots1| == TableSize(p) by { table.Sizes(ids); }
    ReadEmptiesPath(p, table.positionMap[..], leaf, slots0, stash0, slots1, pool);
    RefillStart(p, leaf, slots1, pool);
    hide OramParams.Valid;
    for d := table.params.Height() downto 0
      invariant table.Valid(ids) && PathRefilled(p, leaf, slots1, pool, d, table.slots[..], table.stash)
    {
      WritePathBucket(table, leaf, d, slots1, pool, ids);
    }
    EvictionEnds(p, table.positionMap[..], leaf, slots0, stash0, slots1, pool, table.slots[..], table.stash);
  }

  /** Table, labels and stash of a simulation. */
  datatype TableState = TableState(slots: seq<nat>, pos: seq<nat>, stash: seq<SimBlock>)

  /** The id was taken from its place, relabelled by the draw and put at the end of the stash. */
  ghost predicate TableAccessed(p: OramParams, a: TableState, id: nat, draw: nat, b: TableState) {
    && p.leaves > 0 && id < |a.pos| && id < |b.pos|
    && b.pos == a.pos[id := b.pos[id]] && Residue(draw, b.pos[id], p.leaves)
    && b.stash != [] && b.stash[|b.stash| - 1] == SimBlock(id, b.pos[id])
    && TakenOut(a.slots, a.stash, id, b.slots, b.stash[..|b.stash| - 1])
  }

  /** The path was emptied and refilled. */
  ghost predicate TableEvicted(p: OramParams, a: TableState, leaf: nat, b: TableState) {
    && p.Valid() && leaf < p.leaves && b.pos == a.pos && Evicted(p, a.pos, leaf, a.slots, a.stash, b.slots, b.stash)
  }
}
