/** The metadata-only tree of the stress simulators (src/ring_stress.rs and src/stress.rs), on values:
    one flat table of slots, a growing stash, and a position map. Counting here uses the same measure
    as the controller's planner. */
module SimSpec {
  import opened Geometry
  import opened SlotTable
  import opened EvictionPlan
  import OramSpec
  import EvictionRefinement

  datatype SimBlock = SimBlock(id: nat, leaf: nat)

  function Ids(stash: seq<SimBlock>): (r: seq<nat>)
    ensures |r| == |stash| && forall i :: 0 <= i < |r| ==> r[i] == stash[i].id
  {
    seq<nat>(|stash|, (i: int) requires 0 <= i < |stash| => stash[i].id)
  }

  /** Bucket of a slot. */
  function NodeOf(p: OramParams, o: nat): nat
    requires p.bucketSize > 0
  {
    o / p.bucketSize
  }

  /** First slot of a bucket, and size of the table. */
  function BucketBase(p: OramParams, node: nat): nat {
    node * p.bucketSize
  }

  function TableSize(p: OramParams): int {
    p.BucketCount() * p.bucketSize
  }

  lemma SlotsOfNode(p: OramParams, node: nat, o: nat)
    requires p.bucketSize > 0
    ensures NodeOf(p, o) == node <==> BucketBase(p, node) <= o < BucketBase(p, node) + p.bucketSize
    ensures node < p.BucketCount() ==> BucketBase(p, node) + p.bucketSize <= TableSize(p)
  {
    var z := p.bucketSize;
    assert o == (o / z) * z + o % z;
    if node * z <= o < node * z + z {
      DivUnique(o, z, node, o - node * z);
    }
    if node < p.BucketCount() {
      MulMonotone(node + 1, p.BucketCount(), z);
      assert (node + 1) * z == node * z + z;
    }
  }

  ghost predicate TableShape(p: OramParams, slots: seq<nat>, pos: seq<nat>) {
    && p.Valid()
    && |slots| == TableSize(p)
    && |pos| == p.logicalBlocks <= EMPTY_SLOT
    && forall i :: 0 <= i < |pos| ==> pos[i] < p.leaves
  }

  /** Every stored id sits in a bucket on the path of its label. */
  ghost predicate SlotsPlaced(p: OramParams, slots: seq<nat>, pos: seq<nat>)
    requires p.bucketSize > 0
  {
    forall o :: 0 <= o < |slots| && slots[o] != EMPTY_SLOT ==>
      slots[o] < |pos| && NodeOf(p, o) in p.PathNodes(pos[slots[o]])
  }

  /** Every stash entry carries the label of its id. */
  ghost predicate StashLabelled(stash: seq<SimBlock>, pos: seq<nat>) {
    forall i :: 0 <= i < |stash| ==> stash[i].id < |pos| && stash[i].leaf == pos[stash[i].id]
  }

  /** The table and the stash together hold exactly `ids`, in place and labelled. */
  ghost predicate Holds(p: OramParams, slots: seq<nat>, pos: seq<nat>, stash: seq<SimBlock>, ids: multiset<nat>) {
    && TableShape(p, slots, pos)
    && SlotsPlaced(p, slots, pos)
    && StashLabelled(stash, pos)
    && Stored(slots) + multiset(Ids(stash)) == ids
  }

  /** A vector with element `i` replaced by the last one. */
  function SwapRemove<T>(s: seq<T>, i: nat): (r: seq<T>)
    requires i < |s|
    ensures |r| == |s| - 1
    ensures forall k :: 0 <= k < |r| ==> r[k] == if k == i then s[|s| - 1] else s[k]
  {
    if i == |s| - 1 then s[..i] else s[..|s| - 1][i := s[|s| - 1]]
  }

  lemma SwapRemoveBag<T>(s: seq<T>, i: nat)
    requires i < |s|
    ensures multiset(SwapRemove(s, i)) + multiset{s[i]} == multiset(s)
  {
    var n := |s| - 1;
    assert s == s[..n] + [s[n]];
    if i < n {
      assert s[..n] == s[..i] + [s[i]] + s[i + 1..n];
      assert SwapRemove(s, i) == s[..i] + [s[n]] + s[i + 1..n];
    }
  }

  lemma SwapRemoveIds(stash: seq<SimBlock>, i: nat)
    requires i < |stash|
    ensures multiset(Ids(SwapRemove(stash, i))) + multiset{stash[i].id} == multiset(Ids(stash))
  {
    assert Ids(SwapRemove(stash, i)) == SwapRemove(Ids(stash), i);
    SwapRemoveBag(Ids(stash), i);
  }

  lemma AppendIds(stash: seq<SimBlock>, b: SimBlock)
    ensures multiset(Ids(stash + [b])) == multiset(Ids(stash)) + multiset{b.id}
  {
    assert Ids(stash + [b]) == Ids(stash) + [b.id];
  }

  /** A stored id moves to the stash, under its label. */
  lemma MoveToStash(p: OramParams, slots: seq<nat>, pos: seq<nat>, stash: seq<SimBlock>, ids: multiset<nat>, o: nat)
    requires Holds(p, slots, pos, stash, ids) && o < |slots| && slots[o] != EMPTY_SLOT
    ensures slots[o] < |pos|
    ensures Holds(p, slots[o := EMPTY_SLOT], pos, stash + [SimBlock(slots[o], pos[slots[o]])], ids)
  {
    hide OramParams.PathNodes, NodeOf;
    StoredUpdate(slots, o, EMPTY_SLOT);
    AppendIds(stash, SimBlock(slots[o], pos[slots[o]]));
    hide Stored, Ids;
  }

  /** A stash entry moves to an empty slot on its path. */
  lemma MoveToSlot(p: OramParams, slots: seq<nat>, pos: seq<nat>, stash: seq<SimBlock>, ids: multiset<nat>, o: nat,
                   i: nat)
    requires Holds(p, slots, pos, stash, ids) && o < |slots| && slots[o] == EMPTY_SLOT && i < |stash|
    requires NodeOf(p, o) in p.PathNodes(stash[i].leaf)
    ensures Holds(p, slots[o := stash[i].id], pos, SwapRemove(stash, i), ids)
  {
    hide OramParams.PathNodes, NodeOf;
    StoredUpdate(slots, o, stash[i].id);
    SwapRemoveIds(stash, i);
    hide Stored, Ids;
  }

  /** A stored id leaves the table. */
  lemma TakeFromSlot(p: OramParams, slots: seq<nat>, pos: seq<nat>, stash: seq<SimBlock>, ids: multiset<nat>, o: nat)
    requires Holds(p, slots, pos, stash, ids) && o < |slots| && slots[o] != EMPTY_SLOT
    ensures Holds(p, slots[o := EMPTY_SLOT], pos, stash, ids - multiset{slots[o]})
    ensures slots[o] in ids
  {
    hide OramParams.PathNodes, NodeOf;
    StoredUpdate(slots, o, EMPTY_SLOT);
    hide Stored;
  }

  lemma TakeFromStash(p: OramParams, slots: seq<nat>, pos: seq<nat>, stash: seq<SimBlock>, ids: multiset<nat>, i: nat)
    requires Holds(p, slots, pos, stash, ids) && i < |stash|
    ensures Holds(p, slots, pos, SwapRemove(stash, i), ids - multiset{stash[i].id})
  {
    hide OramParams.PathNodes, NodeOf, Stored;
    SwapRemoveIds(stash, i);
  }

  /** A new id enters an empty slot on the path of its label. */
  lemma PutInSlot(p: OramParams, slots: seq<nat>, pos: seq<nat>, stash: seq<SimBlock>, ids: multiset<nat>, o: nat,
                  id: nat)
    requires Holds(p, slots, pos, stash, ids) && o < |slots| && slots[o] == EMPTY_SLOT && id < |pos|
    requires NodeOf(p, o) in p.PathNodes(pos[id])
    ensures Holds(p, slots[o := id], pos, stash, ids + multiset{id})
  {
    hide OramParams.PathNodes, NodeOf;
    StoredUpdate(slots, o, id);
    hide Stored;
  }

  lemma PutInStash(p: OramParams, slots: seq<nat>, pos: seq<nat>, stash: seq<SimBlock>, ids: multiset<nat>, id: nat)
    requires Holds(p, slots, pos, stash, ids) && id < |pos|
    ensures Holds(p, slots, pos, stash + [SimBlock(id, pos[id])], ids + multiset{id})
  {
    hide OramParams.PathNodes, NodeOf, Stored;
    AppendIds(stash, SimBlock(id, pos[id]));
  }

  /** The label of an id that is nowhere may change. */
  lemma RelabelAbsent(p: OramParams, slots: seq<nat>, pos: seq<nat>, stash: seq<SimBlock>, ids: multiset<nat>, id: nat,
                      leaf: nat)
    requires Holds(p, slots, pos, stash, ids) && id < |pos| && id !in ids && leaf < p.leaves
    ensures Holds(p, slots, pos[id := leaf], stash, ids)
  {
    hide OramParams.PathNodes, NodeOf;
    forall o | 0 <= o < |slots| && slots[o] != EMPTY_SLOT
      ensures slots[o] != id
    {
      assert slots[o] in multiset(slots);
      assert slots[o] in Stored(slots);
    }
    forall i | 0 <= i < |stash|
      ensures stash[i].id != id
    {
      assert Ids(stash)[i] in multiset(Ids(stash));
    }
  }

  /** Every id is in exactly one place: one slot or one stash entry. */
  lemma HeldOnce(p: OramParams, slots: seq<nat>, pos: seq<nat>, stash: seq<SimBlock>, id: nat)
    requires Holds(p, slots, pos, stash, FirstIds(|pos|)) && id < |pos|
    ensures multiset(slots)[id] + multiset(Ids(stash))[id] == 1
    ensures id in slots <==> id !in Ids(stash)
  {
    hide SlotsPlaced, StashLabelled, FirstIds, Ids;
    assert (Stored(slots) + multiset(Ids(stash)))[id] == FirstIds(|pos|)[id];
    assert id in slots <==> id in multiset(slots);
    assert id in Ids(stash) <==> id in multiset(Ids(stash));
  }

  /** Depths of the path to `leaf` that may hold the block. */
  function SimReach(p: OramParams, leaf: nat, b: SimBlock): (r: nat)
    ensures r <= p.Height()
  {
    OramSpec.ReachFrom(p, leaf, b.leaf, 0)
  }

  function SimReaches(p: OramParams, leaf: nat, stash: seq<SimBlock>): (r: seq<nat>)
    ensures |r| == |stash|
    ensures forall i :: 0 <= i < |r| ==> r[i] == SimReach(p, leaf, stash[i])
  {
    seq<nat>(|stash|, (i: int) requires 0 <= i < |stash| => SimReach(p, leaf, stash[i]))
  }

  lemma {:induction false} EligibleUpdate(reach: seq<nat>, i: nat, v: nat, d: nat)
    requires i < |reach|
    ensures Eligible(reach[i := v], d) + (if d < reach[i] then 1 else 0) ==
            Eligible(reach, d) + (if d < v then 1 else 0)
  {
    var n := |reach| - 1;
    if i < n {
      EligibleUpdate(reach[..n], i, v, d);
      assert reach[i := v][..n] == reach[..n][i := v];
    } else {
      assert reach[i := v][..n] == reach[..n];
    }
  }

  lemma EligibleSwapRemove(reach: seq<nat>, i: nat, d: nat)
    requires i < |reach|
    ensures Eligible(SwapRemove(reach, i), d) + (if d < reach[i] then 1 else 0) == Eligible(reach, d)
  {
    var n := |reach| - 1;
    if i < n {
      EligibleUpdate(reach[..n], i, reach[n], d);
    }
  }

  lemma {:induction false} EligibleNone(reach: seq<nat>, d: nat)
    ensures Eligible(reach, d) <= |reach|
    ensures Eligible(reach, d) == 0 <==> forall i :: 0 <= i < |reach| ==> reach[i] <= d
    decreases |reach|
  {
    if reach != [] {
      EligibleNone(reach[..|reach| - 1], d);
      assert forall i :: 0 <= i < |reach| - 1 ==> reach[i] == reach[..|reach| - 1][i];
    }
  }

  lemma {:induction false} EligibleAppend(a: seq<nat>, b: seq<nat>, d: nat)
    ensures Eligible(a + b, d) == Eligible(a, d) + Eligible(b, d)
    decreases |b|
  {
    if b == [] {
      assert a + b == a;
    } else {
      EligibleAppend(a, b[..|b| - 1], d);
      assert (a + b)[..|a + b| - 1] == a + b[..|b| - 1];
    }
  }

  lemma {:induction false} EligibleAll(reach: seq<nat>, d: nat)
    requires forall i :: 0 <= i < |reach| ==> d < reach[i]
    ensures Eligible(reach, d) == |reach|
    decreases |reach|
  {
    if reach != [] { EligibleAll(reach[..|reach| - 1], d); }
  }

  /** Empty slots of a bucket. */
  function FreeSlots(bucket: seq<nat>): (r: nat)
    ensures r <= |bucket|
  {
    if bucket == [] then 0
    else FreeSlots(bucket[..|bucket| - 1]) + (if bucket[|bucket| - 1] == EMPTY_SLOT then 1 else 0)
  }

  /** Blocks in a bucket. */
  function Load(bucket: seq<nat>): nat {
    |bucket| - FreeSlots(bucket)
  }

  /** Slots of a bucket of the table. */
  function BucketSlots(p: OramParams, slots: seq<nat>, node: nat): (r: seq<nat>)
    requires p.bucketSize > 0 && |slots| == TableSize(p) && node < p.BucketCount()
    ensures |r| == p.bucketSize
  {
    SlotsOfNode(p, node, BucketBase(p, node));
    slots[BucketBase(p, node)..BucketBase(p, node) + p.bucketSize]
  }

  /** Every occupied slot of the bucket names a labelled id. */
  predicate Labelled(bucket: seq<nat>, pos: seq<nat>) {
    forall j :: 0 <= j < |bucket| && bucket[j] != EMPTY_SLOT ==> bucket[j] < |pos|
  }

  /** Blocks of a bucket in slot order, under their labels. */
  function BlocksOf(bucket: seq<nat>, pos: seq<nat>): (r: seq<SimBlock>)
    requires Labelled(bucket, pos)
    ensures |r| == Load(bucket)
  {
    if bucket == [] then []
    else
      var last := bucket[|bucket| - 1];
      var before := BlocksOf(bucket[..|bucket| - 1], pos);
      if last == EMPTY_SLOT then before else before + [SimBlock(last, pos[last])]
  }

  /** For labels in range, a bucket on the path to `leaf` fits a block exactly within its reach. */
  lemma ReachFits(p: OramParams, leaf: nat, b: SimBlock, d: nat)
    requires p.Valid() && leaf < p.leaves && b.leaf < p.leaves && d < p.Height()
    ensures d < SimReach(p, leaf, b) <==> p.NodeIndex(d, b.leaf) == p.NodeIndex(d, leaf)
  {
    EvictionRefinement.ReachFromMeaning(p, leaf, b.leaf, 0, d);
    if p.NodeIndex(d, b.leaf) == p.NodeIndex(d, leaf) {
      forall e | 0 <= e <= d
        ensures p.NodeIndex(e, b.leaf) == p.NodeIndex(e, leaf)
      {
        PathNesting(p, e, d, b.leaf, leaf);
      }
    }
  }
}
