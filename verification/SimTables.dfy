/** The table shared by the stress simulators: initial placement, removal, and moving buckets to and
    from the stash (src/ring_stress.rs RingStressSim and src/stress.rs CircuitStressSim have the same
    code for these). */
module SimTables {
  import opened Common
  import opened Geometry
  import opened SlotTable
  import opened EvictionPlan
  import opened SimSpec

  /** How the simulated client picks ids: at random, or in turn. */
  datatype Pattern = Random | RoundRobin

  /** The id of a step: drawn, or taken in turn. */
  function IdAt(pattern: Pattern, blocks: nat, draws: nat -> nat, step: nat): (id: nat)
    requires blocks > 0
    ensures Residue(if pattern == Random then draws(2 * step) else step, id, blocks)
  {
    if pattern == Random then Reduce(draws(2 * step), blocks) else Reduce(step, blocks)
  }

  /** Position of the draw that labels the id of a step. */
  function DrawAt(pattern: Pattern, step: nat): nat {
    if pattern == Random then 2 * step + 1 else step
  }

  function Min(a: nat, b: nat): nat {
    if a <= b then a else b
  }

  /** Slots other than those of `node` are as before. */
  ghost predicate SameOutside(p: OramParams, before: seq<nat>, after: seq<nat>, node: nat)
    requires p.bucketSize > 0
  {
    |after| == |before| && forall o :: 0 <= o < |before| && NodeOf(p, o) != node ==> after[o] == before[o]
  }

  /** Blocks left the pool one by one, each fit for depth `depth` or deeper. */
  ghost predicate PoolLeft(p: OramParams, leaf: nat, before: seq<SimBlock>, after: seq<SimBlock>, depth: nat) {
    && |after| <= |before|
    && forall e :: 0 <= e <= depth ==>
         Eligible(SimReaches(p, leaf, after), e) + (|before| - |after|) == Eligible(SimReaches(p, leaf, before), e)
  }

  lemma PoolStep(p: OramParams, leaf: nat, before: seq<SimBlock>, pool: seq<SimBlock>, depth: nat, i: nat)
    requires PoolLeft(p, leaf, before, pool, depth) && i < |pool| && depth < SimReach(p, leaf, pool[i])
    ensures PoolLeft(p, leaf, before, SwapRemove(pool, i), depth)
  {
    hide SimReach;
    assert SimReaches(p, leaf, SwapRemove(pool, i)) == SwapRemove(SimReaches(p, leaf, pool), i);
    forall e | 0 <= e <= depth
      ensures Eligible(SimReaches(p, leaf, SwapRemove(pool, i)), e) + (|before| - (|pool| - 1)) ==
              Eligible(SimReaches(p, leaf, before), e)
    {
      EligibleSwapRemove(SimReaches(p, leaf, pool), i, e);
    }
  }

  lemma FreeSnoc(bucket: seq<nat>, last: nat)
    ensures FreeSlots(bucket + [last]) == FreeSlots(bucket) + (if last == EMPTY_SLOT then 1 else 0)
  {
    assert (bucket + [last])[..|bucket|] == bucket;
  }

  lemma SliceSnoc(s: seq<nat>, lo: nat, hi: nat)
    requires lo <= hi < |s|
    ensures s[lo..hi + 1] == s[lo..hi] + [s[hi]]
  {
  }

  /** First entry, from `from` on, that the bucket may hold at that depth. */
  function FirstInto(p: OramParams, stash: seq<SimBlock>, depth: nat, node: nat, from: nat): (i: nat)
    requires depth < p.Height() && from <= |stash|
    ensures from <= i <= |stash|
    ensures i < |stash| ==> p.NodeIndex(depth, stash[i].leaf) == node
    ensures forall k :: from <= k < i ==> p.NodeIndex(depth, stash[k].leaf) != node
    decreases |stash| - from
  {
    if from == |stash| || p.NodeIndex(depth, stash[from].leaf) == node then from
    else FirstInto(p, stash, depth, node, from + 1)
  }

  /** Slots `lo` to `hi - 1` in turn: an empty one takes the first stash entry the bucket may hold. */
  function Refill(p: OramParams, depth: nat, node: nat, slots: seq<nat>, stash: seq<SimBlock>, lo: nat, hi: nat)
    : (r: (seq<nat>, seq<SimBlock>))
    requires depth < p.Height() && lo <= hi <= |slots|
    ensures |r.0| == |slots|
    decreases hi
  {
    if lo == hi then (slots, stash)
    else
      var (s, q) := Refill(p, depth, node, slots, stash, lo, hi - 1);
      var i := FirstInto(p, q, depth, node, 0);
      if s[hi - 1] == EMPTY_SLOT && i < |q| then (s[hi - 1 := q[i].id], SwapRemove(q, i)) else (s, q)
  }

  /** The bucket and the stash after the bucket was refilled. */
  function BucketRefill(p: OramParams, depth: nat, node: nat, slots: seq<nat>, stash: seq<SimBlock>)
    : (r: (seq<nat>, seq<SimBlock>))
    requires p.bucketSize > 0 && depth < p.Height() && |slots| == TableSize(p) && node < p.BucketCount()
    ensures |r.0| == |slots|
  {
    SlotsOfNode(p, node, BucketBase(p, node));
    Refill(p, depth, node, slots, stash, BucketBase(p, node), BucketBase(p, node) + p.bucketSize)
  }

  /** The slots `base..slot` of a bucket were refilled from the pool. */
  ghost predicate Refilled(p: OramParams, leaf: nat, depth: nat, before: seq<nat>, pool: seq<SimBlock>,
                           after: seq<nat>, left: seq<SimBlock>, base: nat, slot: nat)
    requires base <= slot <= |before| == |after|
  {
    && PoolLeft(p, leaf, pool, left, depth)
    && |pool| - |left| == Min(FreeSlots(before[base..slot]), Eligible(SimReaches(p, leaf, pool), depth))
    && FreeSlots(after[base..slot]) + (|pool| - |left|) == FreeSlots(before[base..slot])
  }

  lemma NothingRefilled(p: OramParams, leaf: nat, depth: nat, before: seq<nat>, pool: seq<SimBlock>, base: nat)
    requires base <= |before|
    ensures Refilled(p, leaf, depth, before, pool, before, pool, base, base)
  {
  }

  /** One slot: occupied, or filled with a fitting block, or no block fits. */
  lemma RefillSlot(p: OramParams, leaf: nat, depth: nat, before: seq<nat>, pool: seq<SimBlock>, after: seq<nat>,
                   left: seq<SimBlock>, base: nat, slot: nat, i: nat)
    requires base <= slot < |before| == |after| && after[slot] == before[slot]
    requires Refilled(p, leaf, depth, before, pool, after, left, base, slot)
    requires i <= |left| && (i < |left| ==> depth < SimReach(p, leaf, left[i]) && left[i].id != EMPTY_SLOT)
    requires i == |left| ==> before[slot] != EMPTY_SLOT || forall k :: 0 <= k < |left| ==>
               SimReach(p, leaf, left[k]) <= depth
    requires i < |left| ==> before[slot] == EMPTY_SLOT
    ensures i == |left| ==> Refilled(p, leaf, depth, before, pool, after, left, base, slot + 1)
    ensures i < |left| ==>
              Refilled(p, leaf, depth, before, pool, after[slot := left[i].id], SwapRemove(left, i), base, slot + 1)
  {
    hide SimReach;
    SliceSnoc(before, base, slot);
    FreeSnoc(before[base..slot], before[slot]);
    EligibleNone(SimReaches(p, leaf, left), depth);
    if i < |left| {
      var next := after[slot := left[i].id];
      SliceSnoc(next, base, slot);
      assert next[base..slot] == after[base..slot];
      FreeSnoc(next[base..slot], left[i].id);
      PoolStep(p, leaf, pool, left, depth, i);
      assert SimReaches(p, leaf, left)[i] > depth;
    } else {
      SliceSnoc(after, base, slot);
      FreeSnoc(after[base..slot], after[slot]);
    }
  }

  /** The new id took the first empty slot of a bucket of its path with only full buckets below. */
  ghost predicate PlacedDeepest(p: OramParams, before: seq<nat>, after: seq<nat>, id: nat, leaf: nat, depth: nat,
                                o: nat)
    requires p.bucketSize > 0
  {
    && depth < p.Height() && o < |before| && before[o] == EMPTY_SLOT && NodeOf(p, o) == p.NodeIndex(depth, leaf)
    && after == before[o := id]
    && NoRoomBelow(p, before, leaf, depth + 1)
  }

  function FirstEmpty(slots: seq<nat>, lo: nat, hi: nat): (o: nat)
    requires lo <= hi <= |slots|
    ensures lo <= o <= hi && (o < hi ==> slots[o] == EMPTY_SLOT)
    ensures forall q :: lo <= q < o ==> slots[q] != EMPTY_SLOT
    decreases hi - lo
  {
    if lo == hi || slots[lo] == EMPTY_SLOT then lo else FirstEmpty(slots, lo + 1, hi)
  }

  /** First empty slot of the deepest bucket of the path, above depth `d`, that has one. */
  function DeepestEmpty(p: OramParams, slots: seq<nat>, leaf: nat, d: nat): (o: Option<nat>)
    requires p.Valid() && leaf < p.leaves && d <= p.Height() && |slots| == TableSize(p)
    ensures o.Some? ==> o.value < |slots| && slots[o.value] == EMPTY_SLOT
    decreases d
  {
    if d == 0 then None
    else
      NodeIndexRange(p, d - 1, leaf);
      var node := p.NodeIndex(d - 1, leaf);
      SlotsOfNode(p, node, BucketBase(p, node));
      var o := FirstEmpty(slots, BucketBase(p, node), BucketBase(p, node) + p.bucketSize);
      if o < BucketBase(p, node) + p.bucketSize then Some(o) else DeepestEmpty(p, slots, leaf, d - 1)
  }

  /** An id goes to the deepest bucket of its path with room, or, the path being full, to the end of the
      stash. */
  function PlaceId(p: OramParams, slots: seq<nat>, stash: seq<SimBlock>, id: nat, leaf: nat)
    : (r: (seq<nat>, seq<SimBlock>))
    requires p.Valid() && leaf < p.leaves && |slots| == TableSize(p)
    ensures |r.0| == |slots|
  {
    var o := DeepestEmpty(p, slots, leaf, p.Height());
    if o.Some? then (slots[o.value := id], stash) else (slots, stash + [SimBlock(id, leaf)])
  }

  /** The table after ids `0` to `k - 1` were labelled with the draws of their number and placed in turn. */
  function InitialTable(p: OramParams, draws: nat -> nat, k: nat): (r: (seq<nat>, seq<SimBlock>))
    requires p.Valid()
    ensures |r.0| == TableSize(p)
    decreases k
  {
    if k == 0 then (seq(TableSize(p), _ => EMPTY_SLOT), [])
    else
      var (slots, stash) := InitialTable(p, draws, k - 1);
      PlaceId(p, slots, stash, k - 1, Reduce(draws(k - 1), p.leaves))
  }

  /** The id was taken out of its slot, or out of the stash, the last entry filling the gap. */
  ghost predicate TakenOut(slots0: seq<nat>, stash0: seq<SimBlock>, id: nat, slots: seq<nat>, rest: seq<SimBlock>) {
    || (rest == stash0 && exists o :: 0 <= o < |slots0| && slots0[o] == id && slots == slots0[o := EMPTY_SLOT])
    || (&& slots == slots0 && id !in slots0
        && exists i ::
             0 <= i < |stash0| && stash0[i].id == id && id !in Ids(stash0[..i]) && rest == SwapRemove(stash0, i))
  }

  lemma TakenFromSlot(slots: seq<nat>, stash: seq<SimBlock>, o: nat)
    requires o < |slots|
    ensures TakenOut(slots, stash, slots[o], slots[o := EMPTY_SLOT], stash)
  {
  }

  lemma TakenFromStash(slots: seq<nat>, stash: seq<SimBlock>, id: nat, i: nat)
    requires id !in slots && i < |stash| && stash[i].id == id && id !in Ids(stash[..i])
    ensures TakenOut(slots, stash, id, slots, SwapRemove(stash, i))
  {
  }

  ghost predicate NoRoomBelow(p: OramParams, slots: seq<nat>, leaf: nat, depth: nat)
    requires p.bucketSize > 0
  {
    forall o, d :: 0 <= o < |slots| && depth <= d < p.Height() && NodeOf(p, o) == p.NodeIndex(d, leaf) ==>
      slots[o] != EMPTY_SLOT
  }

  lemma NoneBelow(p: OramParams, slots: seq<nat>, leaf: nat)
    requires p.bucketSize > 0
    ensures NoRoomBelow(p, slots, leaf, p.Height())
  {
  }

  lemma NoneAbove(p: OramParams, slots: seq<nat>, leaf: nat)
    requires p.Valid() && leaf < p.leaves && |slots| == TableSize(p)
    ensures DeepestEmpty(p, slots, leaf, 0).None?
  {
  }

  /** One bucket of the search: its first empty slot is the one searched for, or it has none. */
  lemma DeepestStep(p: OramParams, slots: seq<nat>, leaf: nat, depth: nat, id: nat)
    requires p.Valid() && leaf < p.leaves && depth < p.Height() && |slots| == TableSize(p)
    requires NoRoomBelow(p, slots, leaf, depth + 1)
    ensures var base := BucketBase(p, p.NodeIndex(depth, leaf));
            && base + p.bucketSize <= |slots|
            && var o := FirstEmpty(slots, base, base + p.bucketSize);
               && (o < base + p.bucketSize ==>
                     && DeepestEmpty(p, slots, leaf, depth + 1) == Some(o)
                     && slots[o] == EMPTY_SLOT && NodeOf(p, o) in p.PathNodes(leaf)
                     && PlacedDeepest(p, slots, slots[o := id], id, leaf, depth, o))
               && (o == base + p.bucketSize ==>
                     && DeepestEmpty(p, slots, leaf, depth + 1) == DeepestEmpty(p, slots, leaf, depth)
                     && NoRoomBelow(p, slots, leaf, depth))
  {
    hide OramParams.NodeIndex, NodeOf, BucketBase, TableSize;
    NodeIndexRange(p, depth, leaf);
    var node := p.NodeIndex(depth, leaf);
    var base := BucketBase(p, node);
    SlotsOfNode(p, node, base);
    var o := FirstEmpty(slots, base, base + p.bucketSize);
    NodeOnPath(p, leaf, depth);
    if o < base + p.bucketSize {
      SlotsOfNode(p, node, o);
    } else {
      forall q | 0 <= q < |slots| && NodeOf(p, q) == node
        ensures slots[q] != EMPTY_SLOT
      {
        SlotsOfNode(p, node, q);
      }
    }
  }

  class SimTable {
    const params: OramParams
    const draws: nat -> nat
    const slots: array<nat>
    const positionMap: array<nat>
    var stash: seq<SimBlock>

    /** The table and the stash hold exactly `ids`, each in place under its label. */
    ghost predicate Valid(ids: multiset<nat>)
      reads this, slots, positionMap
    {
      slots != positionMap && Holds(params, slots[..], positionMap[..], stash, ids)
    }

    lemma Sizes(ids: multiset<nat>)
      requires Valid(ids)
      ensures params.Valid() && positionMap.Length == params.logicalBlocks <= EMPTY_SLOT
      ensures slots.Length == TableSize(params)
      ensures forall i :: 0 <= i < positionMap.Length ==> positionMap[i] < params.leaves
    {
    }

    function RandomLeaf(rng: nat): (leaf: nat)
      requires params.leaves > 0
      ensures Residue(draws(rng), leaf, params.leaves)
    {
      Reduce(draws(rng), params.leaves)
    }

    /** Gives every id a random label and the deepest free slot on its path, or a place in the stash. */
    constructor (params: OramParams, draws: nat -> nat)
      requires params.Valid() && params.logicalBlocks <= EMPTY_SLOT
      ensures this.params == params && this.draws == draws && fresh(slots) && fresh(positionMap)
      ensures Valid(FirstIds(params.logicalBlocks))
      ensures positionMap.Length == params.logicalBlocks
      ensures (slots[..], stash) == InitialTable(params, draws, params.logicalBlocks)
      ensures forall id :: 0 <= id < positionMap.Length ==> Residue(draws(id), positionMap[id], params.leaves)
    {
      this.params, this.draws := params, draws;
      this.slots := new nat[TableSize(params)](_ => EMPTY_SLOT);
      this.positionMap := new nat[params.logicalBlocks](_ => 0);
      this.stash := [];
      new;
      EmptyTable(params, slots[..], positionMap[..]);
      PlaceAllIds();
    }

    method PlaceAllIds()
      requires Valid(FirstIds(0))
      requires stash == [] && forall o :: 0 <= o < slots.Length ==> slots[o] == EMPTY_SLOT
      modifies this`stash, slots, positionMap
      ensures Valid(FirstIds(params.logicalBlocks))
      ensures positionMap.Length == params.logicalBlocks
      ensures (slots[..], stash) == InitialTable(params, draws, params.logicalBlocks)
      ensures forall id :: 0 <= id < positionMap.Length ==> Residue(draws(id), positionMap[id], params.leaves)
    {
      hide Holds, FirstIds;
      Sizes(FirstIds(0));
      assert slots[..] == seq(TableSize(params), _ => EMPTY_SLOT);
      hide Residue, PlaceId, TableSize;
      for id := 0 to positionMap.Length
        invariant Valid(FirstIds(id)) && positionMap.Length == params.logicalBlocks
        invariant (slots[..], stash) == InitialTable(params, draws, id)
        invariant forall k :: 0 <= k < id ==> Residue(draws(k), positionMap[k], params.leaves)
      {
        var leaf := RandomLeaf(id);
        RelabelAbsent(params, slots[..], positionMap[..], stash, FirstIds(id), id, leaf);
        ghost var before := positionMap[..];
        positionMap[id] := leaf;
        assert positionMap[..] == before[id := leaf];
        PlaceOrStash(id, leaf, FirstIds(id));
        assert FirstIds(id + 1) == FirstIds(id) + multiset{id} by { NextId(id); }
      }
    }

    method PlaceOrStash(id: nat, leaf: nat, ghost ids: multiset<nat>)
      requires Valid(ids) && id < positionMap.Length && positionMap[id] == leaf
      modifies this`stash, slots
      ensures Valid(ids + multiset{id}) && params.Valid() && leaf < params.leaves && slots.Length == TableSize(params)
      ensures (slots[..], stash) == PlaceId(params, old(slots[..]), old(stash), id, leaf)
    {
      Sizes(ids);
      var placed := PlaceDeepest(id, leaf, ids);
      if !placed {
        PutInStash(params, slots[..], positionMap[..], stash, ids, id);
        stash := stash + [SimBlock(id, leaf)];
      }
    }

    method FirstEmptyIn(base: nat) returns (slot: nat)
      requires base + params.bucketSize <= slots.Length
      ensures slot == FirstEmpty(slots[..], base, base + params.bucketSize)
    {
      slot := base;
      while slot < base + params.bucketSize && slots[slot] != EMPTY_SLOT
        invariant base <= slot <= base + params.bucketSize
        invariant FirstEmpty(slots[..], slot, base + params.bucketSize) ==
                  FirstEmpty(slots[..], base, base + params.bucketSize)
      {
        slot := slot + 1;
      }
    }

    /** Scans the path from the leaf up for an empty slot. */
    method PlaceDeepest(id: nat, leaf: nat, ghost ids: multiset<nat>) returns (placed: bool)
      requires Valid(ids) && id < positionMap.Length && positionMap[id] == leaf
      modifies slots
      ensures params.Valid() && leaf < params.leaves && slots.Length == TableSize(params)
      ensures var o := DeepestEmpty(params, old(slots[..]), leaf, params.Height());
              placed == o.Some? && (placed ==> slots[..] == old(slots[..])[o.value := id])
      ensures placed ==>
                && Valid(ids + multiset{id})
                && exists depth, o ::
                     0 <= depth && 0 <= o && PlacedDeepest(params, old(slots[..]), slots[..], id, leaf, depth, o)
      ensures !placed ==> slots[..] == old(slots[..]) && NoRoomBelow(params, slots[..], leaf, 0)
    {
      hide Holds, FirstEmpty, DeepestEmpty, NoRoomBelow, PlacedDeepest, OramParams.NodeIndex, NodeOf, BucketBase,
           TableSize, OramParams.PathNodes;
      assert params.Valid() && leaf < params.leaves && slots.Length == TableSize(params) by { Sizes(ids); }
      hide OramParams.Valid, OramParams.BucketCount;
      ghost var before := slots[..];
      NoneBelow(params, before, leaf);
      for depth := params.Height() downto 0
        invariant slots[..] == before
        invariant DeepestEmpty(params, before, leaf, params.Height()) == DeepestEmpty(params, before, leaf, depth)
        invariant NoRoomBelow(params, before, leaf, depth)
      {
        placed := PlaceAtDepth(id, leaf, depth, ids);
        if placed {
          return;
        }
      }
      NoneAbove(params, before, leaf);
      return false;
    }

    /** One bucket of the scan. */
    method PlaceAtDepth(id: nat, leaf: nat, depth: nat, ghost ids: multiset<nat>) returns (placed: bool)
      requires Valid(ids) && id < positionMap.Length && positionMap[id] == leaf && depth < params.Height()
      requires params.Valid() && leaf < params.leaves && slots.Length == TableSize(params)
      requires NoRoomBelow(params, slots[..], leaf, depth + 1)
      modifies slots
      ensures placed ==>
                && Valid(ids + multiset{id})
                && exists o: nat ::
                     && DeepestEmpty(params, old(slots[..]), leaf, depth + 1) == Some(o) && o < slots.Length
                     && slots[..] == old(slots[..])[o := id]
                     && PlacedDeepest(params, old(slots[..]), slots[..], id, leaf, depth, o)
      ensures !placed ==>
                && slots[..] == old(slots[..]) && NoRoomBelow(params, slots[..], leaf, depth)
                && DeepestEmpty(params, slots[..], leaf, depth + 1) == DeepestEmpty(params, slots[..], leaf, depth)
    {
      hide Holds, FirstEmpty, DeepestEmpty, NoRoomBelow, PlacedDeepest, OramParams.NodeIndex, NodeOf, BucketBase,
           TableSize, OramParams.PathNodes, OramParams.Valid, OramParams.BucketCount;
      ghost var before := slots[..];
      var base := BucketBase(params, params.NodeIndex(depth, leaf));
      DeepestStep(params, before, leaf, depth, id);
      var slot := FirstEmptyIn(base);
      placed := slot < base + params.bucketSize;
      if placed {
        FillSlot(slot, id, ids);
      }
    }

    method FillSlot(slot: nat, id: nat, ghost ids: multiset<nat>)
      requires Valid(ids) && id < positionMap.Length && slot < slots.Length && slots[slot] == EMPTY_SLOT
      requires params.bucketSize > 0 && NodeOf(params, slot) in params.PathNodes(positionMap[id])
      modifies slots
      ensures Valid(ids + multiset{id}) && slots[..] == old(slots[..])[slot := id]
    {
      hide Holds, NodeOf, OramParams.PathNodes;
      PutInSlot(params, slots[..], positionMap[..], stash, ids, slot, id);
      ghost var before := slots[..];
      slots[slot] := id;
      assert slots[..] == before[slot := id];
    }

    /** Looks for the id along the path of its label. */
    method RemoveFromPath(id: nat, leaf: nat, ghost ids: multiset<nat>) returns (found: bool)
      requires Valid(ids) && id < positionMap.Length && positionMap[id] == leaf
      modifies slots
      ensures found ==> id in ids && Valid(ids - multiset{id}) && TakenOut(old(slots[..]), stash, id, slots[..], stash)
      ensures !found ==> slots[..] == old(slots[..]) && id !in slots[..]
    {
      hide StashLabelled, Stored, OramParams.NodeIndex, NodeOf, BucketBase, TableSize, TakenOut;
      for depth := 0 to params.Height()
        invariant slots[..] == old(slots[..])
        invariant forall o, d ::
                    0 <= o < slots.Length && 0 <= d < depth && NodeOf(params, o) == params.NodeIndex(d, leaf) ==>
                      slots[o] != id
      {
        var node := params.NodeIndex(depth, leaf);
        NodeIndexRange(params, depth, leaf);
        var base := BucketBase(params, node);
        SlotsOfNode(params, node, base);
        for slot := base to base + params.bucketSize
          invariant slots[..] == old(slots[..])
          invariant forall o :: base <= o < slot ==> slots[o] != id
        {
          if slots[slot] == id {
            TakeFromSlot(params, slots[..], positionMap[..], stash, ids, slot);
            TakenFromSlot(slots[..], stash, slot);
            slots[slot] := EMPTY_SLOT;
            return true;
          }
        }
        forall o | 0 <= o < slots.Length && NodeOf(params, o) == node
          ensures slots[o] != id
        {
          SlotsOfNode(params, node, o);
        }
      }
      return false;
    }

    method RemoveFromStash(id: nat, ghost ids: multiset<nat>) returns (found: bool)
      requires Valid(ids) && id !in slots[..]
      modifies this`stash
      ensures found <==> id in Ids(old(stash))
      ensures found ==> Valid(ids - multiset{id}) && TakenOut(slots[..], old(stash), id, slots[..], stash)
      ensures !found ==> stash == old(stash)
    {
      hide Holds, TakenOut;
      for i := 0 to |stash|
        invariant stash == old(stash)
        invariant forall k :: 0 <= k < i ==> stash[k].id != id
      {
        if stash[i].id == id {
          assert Ids(stash)[i] == id && id !in Ids(stash[..i]);
          TakeFromStash(params, slots[..], positionMap[..], stash, ids, i);
          TakenFromStash(slots[..], stash, id, i);
          stash := SwapRemove(stash, i);
          return true;
        }
      }
      return false;
    }

    /** Takes the id from its path or the stash, relabels it, and puts it into the stash. Every id is
        somewhere, so a known id is always found. */
    method Access(id: nat, rng: nat) returns (r: Result<nat>)
      requires Valid(FirstIds(params.logicalBlocks)) && id < params.logicalBlocks
      modifies this`stash, slots, positionMap
      ensures r == Ok(old(positionMap[id]))
      ensures Valid(FirstIds(params.logicalBlocks))
      ensures positionMap[..] == old(positionMap[..])[id := RandomLeaf(rng)]
      ensures |stash| <= |old(stash)| + 1
      ensures stash != [] && stash[|stash| - 1] == SimBlock(id, RandomLeaf(rng))
      ensures TakenOut(old(slots[..]), old(stash), id, slots[..], stash[..|stash| - 1])
    {
      ghost var all := FirstIds(params.logicalBlocks);
      Sizes(all);
      hide Holds, FirstIds, TakenOut, Reduce;
      var oldLeaf := positionMap[id];
      HeldOnce(params, slots[..], positionMap[..], stash, id);
      var found := RemoveFromPath(id, oldLeaf, all);
      if !found {
        found := RemoveFromStash(id, all);
      }
      if !found {
        assert false;
      }
      var leaf := RandomLeaf(rng);
      ghost var rest := all - multiset{id};
      RestOf(params.logicalBlocks, id);
      RelabelAbsent(params, slots[..], positionMap[..], stash, rest, id, leaf);
      ghost var before := positionMap[..];
      positionMap[id] := leaf;
      assert positionMap[..] == before[id := leaf];
      PutInStash(params, slots[..], positionMap[..], stash, rest, id);
      ghost var others := stash;
      stash := stash + [SimBlock(id, leaf)];
      assert stash[..|stash| - 1] == others;
      return Ok(oldLeaf);
    }

    /** All blocks of the bucket move to the end of the stash. */
    method ReadBucketIntoStash(node: nat, ghost ids: multiset<nat>)
      requires Valid(ids) && node < params.BucketCount()
      modifies this`stash, slots
      ensures Valid(ids)
      ensures SameOutside(params, old(slots[..]), slots[..], node)
      ensures forall o :: 0 <= o < slots.Length && NodeOf(params, o) == node ==> slots[o] == EMPTY_SLOT
      ensures Labelled(BucketSlots(params, old(slots[..]), node), old(positionMap[..]))
      ensures stash == old(stash) + BlocksOf(BucketSlots(params, old(slots[..]), node), old(positionMap[..]))
    {
      Sizes(ids);
      hide Holds, NodeOf, BucketBase, TableSize, BlocksOf, OnlyRead;
      var base := BucketBase(params, node);
      SlotsOfNode(params, node, base);
      NothingRead(slots[..], positionMap[..], stash, base);
      for slot := base to base + params.bucketSize
        invariant Valid(ids)
        invariant OnlyRead(old(slots[..]), positionMap[..], old(stash), slots[..], stash, base, slot)
      {
        ReadSlot(slot, base, old(slots[..]), old(stash), ids);
      }
      BucketRead(params, old(slots[..]), positionMap[..], old(stash), slots[..], stash, node);
    }

    method ReadSlot(slot: nat, ghost base: nat, ghost before: seq<nat>, ghost stash0: seq<SimBlock>,
                    ghost ids: multiset<nat>)
      requires Valid(ids) && base <= slot < slots.Length
      requires OnlyRead(before, positionMap[..], stash0, slots[..], stash, base, slot)
      modifies this`stash, slots
      ensures Valid(ids) && OnlyRead(before, positionMap[..], stash0, slots[..], stash, base, slot + 1)
    {
      hide Holds, BlocksOf;
      if slots[slot] != EMPTY_SLOT {
        var id := slots[slot];
        MoveToStash(params, slots[..], positionMap[..], stash, ids, slot);
        BlocksSnoc(before, base, slot, positionMap[..]);
        slots[slot] := EMPTY_SLOT;
        stash := stash + [SimBlock(id, positionMap[id])];
      } else {
        BlocksSnoc(before, base, slot, positionMap[..]);
      }
    }

    /** Index of the first stash entry that the bucket may hold. */
    method FirstFitting(depth: nat, node: nat) returns (i: nat)
      requires depth < params.Height()
      ensures i <= |stash|
      ensures i == FirstInto(params, stash, depth, node, 0)
    {
      i := 0;
      while i < |stash| && params.NodeIndex(depth, stash[i].leaf) != node
        invariant i <= |stash| && FirstInto(params, stash, depth, node, i) == FirstInto(params, stash, depth, node, 0)
      {
        i := i + 1;
      }
    }

    /** Each empty slot of the bucket takes the first stash entry it may hold. As many blocks enter as
        there are free slots or fitting entries, whichever is fewer. */
    method WriteBucketFromStash(depth: nat, node: nat, ghost leaf: nat, ghost ids: multiset<nat>)
      requires Valid(ids) && depth < params.Height() && leaf < params.leaves && node == params.NodeIndex(depth, leaf)
      modifies this`stash, slots
      ensures Valid(ids) && node < params.BucketCount()
      ensures RefilledBucket(params, leaf, depth, old(slots[..]), old(stash), slots[..], stash, node)
    {
      hide Holds, NodeOf, TableSize, BucketBase, Refilled, RefilledBucket, OramParams.NodeIndex, SameExcept, Refill;
      assert node < params.BucketCount() && params.bucketSize > 0 && slots.Length == TableSize(params) by {
        Sizes(ids);
        NodeIndexRange(params, depth, leaf);
      }
      hide OramParams.BucketCount, OramParams.Valid, OramParams.PathNodes;
      var base := BucketBase(params, node);
      assert base + params.bucketSize <= slots.Length by { SlotsOfNode(params, node, base); }
      ghost var before, pool := slots[..], stash;
      WriteSlots(depth, node, base, leaf, ids);
      RefilledWhole(params, leaf, depth, before, pool, slots[..], stash, node);
    }

    method WriteSlots(depth: nat, node: nat, base: nat, ghost leaf: nat, ghost ids: multiset<nat>)
      requires Valid(ids) && depth < params.Height() && leaf < params.leaves && node == params.NodeIndex(depth, leaf)
      requires params.bucketSize > 0 && base == BucketBase(params, node) && base + params.bucketSize <= slots.Length
      modifies this`stash, slots
      ensures Valid(ids) && SameExcept(old(slots[..]), slots[..], base, base + params.bucketSize)
      ensures (slots[..], stash) ==
              Refill(params, depth, node, old(slots[..]), old(stash), base, base + params.bucketSize)
      ensures Refilled(params, leaf, depth, old(slots[..]), old(stash), slots[..], stash, base,
                       base + params.bucketSize)
    {
      hide Holds, NodeOf, BucketBase, Refilled, OramParams.NodeIndex, SameExcept;
      NothingRefilled(params, leaf, depth, slots[..], stash, base);
      NothingWritten(slots[..], base);
      for slot := base to base + params.bucketSize
        invariant Valid(ids) && SameExcept(old(slots[..]), slots[..], base, slot)
        invariant (slots[..], stash) == Refill(params, depth, node, old(slots[..]), old(stash), base, slot)
        invariant Refilled(params, leaf, depth, old(slots[..]), old(stash), slots[..], stash, base, slot)
      {
        SlotsOfNode(params, node, slot);
        WriteSlot(depth, node, slot, leaf, base, old(slots[..]), old(stash), ids);
      }
    }

    method WriteSlot(depth: nat, node: nat, slot: nat, ghost leaf: nat, ghost base: nat, ghost before: seq<nat>,
                     ghost pool: seq<SimBlock>, ghost ids: multiset<nat>)
      requires Valid(ids) && depth < params.Height() && leaf < params.leaves && node == params.NodeIndex(depth, leaf)
      requires base <= slot < slots.Length && params.bucketSize > 0 && NodeOf(params, slot) == node
      requires SameExcept(before, slots[..], base, slot)
      requires (slots[..], stash) == Refill(params, depth, node, before, pool, base, slot)
      requires Refilled(params, leaf, depth, before, pool, slots[..], stash, base, slot)
      modifies this`stash, slots
      ensures Valid(ids) && SameExcept(before, slots[..], base, slot + 1)
      ensures (slots[..], stash) == Refill(params, depth, node, before, pool, base, slot + 1)
      ensures Refilled(params, leaf, depth, before, pool, slots[..], stash, base, slot + 1)
    {
      hide Holds, NodeOf, BucketBase, TableSize, FreeSlots, Refilled, SimReach, OramParams.NodeIndex;
      var i := |stash|;
      if slots[slot] == EMPTY_SLOT {
        i := FirstFitting(depth, node);
        FittingReach(leaf, depth, i, ids);
      }
      RefillSlot(params, leaf, depth, before, pool, slots[..], stash, base, slot, i);
      if i < |stash| {
        NodeOnPath(params, stash[i].leaf, depth);
        MoveToSlot(params, slots[..], positionMap[..], stash, ids, slot, i);
        slots[slot] := stash[i].id;
        stash := SwapRemove(stash, i);
      }
    }

    /** Entries before `i` do not reach the depth; entry `i` does. */
    lemma FittingReach(leaf: nat, depth: nat, i: nat, ids: multiset<nat>)
      requires Valid(ids) && depth < params.Height() && leaf < params.leaves && i <= |stash|
      requires i < |stash| ==> params.NodeIndex(depth, stash[i].leaf) == params.NodeIndex(depth, leaf)
      requires forall k :: 0 <= k < i ==> params.NodeIndex(depth, stash[k].leaf) != params.NodeIndex(depth, leaf)
      ensures i < |stash| ==> depth < SimReach(params, leaf, stash[i]) && stash[i].id != EMPTY_SLOT
      ensures forall k :: 0 <= k < i ==> SimReach(params, leaf, stash[k]) <= depth
    {
      hide SimReach, OramParams.NodeIndex, SlotsPlaced;
      forall k | 0 <= k < |stash|
        ensures depth < SimReach(params, leaf, stash[k]) <==>
                  params.NodeIndex(depth, stash[k].leaf) == params.NodeIndex(depth, leaf)
      {
        ReachFits(params, leaf, stash[k], depth);
      }
    }
  }

  ghost predicate SameExcept(before: seq<nat>, after: seq<nat>, lo: nat, hi: nat) {
    |after| == |before| && forall o :: 0 <= o < |before| && !(lo <= o < hi) ==> after[o] == before[o]
  }

  lemma NothingWritten(slots: seq<nat>, base: nat)
    ensures SameExcept(slots, slots, base, base)
  {
  }

  lemma ExceptBucket(p: OramParams, before: seq<nat>, after: seq<nat>, node: nat)
    requires p.bucketSize > 0
    requires SameExcept(before, after, BucketBase(p, node), BucketBase(p, node) + p.bucketSize)
    ensures SameOutside(p, before, after, node)
  {
    hide NodeOf;
    forall o | 0 <= o < |before|
      ensures NodeOf(p, o) == node <==> BucketBase(p, node) <= o < BucketBase(p, node) + p.bucketSize
    {
      SlotsOfNode(p, node, o);
    }
  }

  /** The slots `base..slot` were emptied into the stash, in order. */
  ghost predicate OnlyRead(before: seq<nat>, pos: seq<nat>, stash0: seq<SimBlock>, after: seq<nat>,
                           stash: seq<SimBlock>, base: nat, slot: nat)
  {
    && base <= slot <= |before| && SameExcept(before, after, base, slot)
    && (forall o :: base <= o < slot ==> after[o] == EMPTY_SLOT)
    && Labelled(before[base..slot], pos)
    && stash == stash0 + BlocksOf(before[base..slot], pos)
  }

  lemma NothingRead(slots: seq<nat>, pos: seq<nat>, stash: seq<SimBlock>, base: nat)
    requires base <= |slots|
    ensures OnlyRead(slots, pos, stash, slots, stash, base, base)
  {
    NoBlocks(pos);
    assert slots[base..base] == [];
  }

  lemma BucketRead(p: OramParams, before: seq<nat>, pos: seq<nat>, stash0: seq<SimBlock>, after: seq<nat>,
                   stash: seq<SimBlock>, node: nat)
    requires p.bucketSize > 0 && |before| == TableSize(p) && node < p.BucketCount()
    requires OnlyRead(before, pos, stash0, after, stash, BucketBase(p, node), BucketBase(p, node) + p.bucketSize)
    ensures SameOutside(p, before, after, node)
    ensures forall o :: 0 <= o < |after| && NodeOf(p, o) == node ==> after[o] == EMPTY_SLOT
    ensures Labelled(BucketSlots(p, before, node), pos)
    ensures stash == stash0 + BlocksOf(BucketSlots(p, before, node), pos)
  {
    hide NodeOf, BlocksOf;
    ExceptBucket(p, before, after, node);
    forall o | 0 <= o < |before|
      ensures NodeOf(p, o) == node <==> BucketBase(p, node) <= o < BucketBase(p, node) + p.bucketSize
    {
      SlotsOfNode(p, node, o);
    }
  }

  lemma NoBlocks(pos: seq<nat>)
    ensures BlocksOf([], pos) == []
  {
  }

  lemma BlocksSnoc(slots: seq<nat>, base: nat, slot: nat, pos: seq<nat>)
    requires base <= slot < |slots| && Labelled(slots[base..slot], pos) &&
             (slots[slot] != EMPTY_SLOT ==> slots[slot] < |pos|)
    ensures Labelled(slots[base..slot + 1], pos)
    ensures BlocksOf(slots[base..slot + 1], pos) ==
            BlocksOf(slots[base..slot], pos) +
              (if slots[slot] == EMPTY_SLOT then [] else [SimBlock(slots[slot], pos[slots[slot]])])
  {
    SliceSnoc(slots, base, slot);
    var bucket := slots[base..slot + 1];
    assert bucket[..|bucket| - 1] == slots[base..slot] && bucket[|bucket| - 1] == slots[slot];
  }

  /** The bucket was refilled from the pool, each empty slot in turn taking the first fitting entry: as many
      blocks entered as it had free slots or the pool fitting entries, whichever is fewer; other buckets are
      as before. */
  ghost predicate RefilledBucket(p: OramParams, leaf: nat, depth: nat, before: seq<nat>, pool: seq<SimBlock>,
                                 after: seq<nat>, left: seq<SimBlock>, node: nat)
    requires p.bucketSize > 0 && |before| == TableSize(p) && node < p.BucketCount()
  {
    && SameOutside(p, before, after, node)
    && depth < p.Height() && (after, left) == BucketRefill(p, depth, node, before, pool)
    && PoolLeft(p, leaf, pool, left, depth)
    && var placed := |pool| - |left|;
       && placed == Min(FreeSlots(BucketSlots(p, before, node)), Eligible(SimReaches(p, leaf, pool), depth))
       && FreeSlots(BucketSlots(p, after, node)) + placed == FreeSlots(BucketSlots(p, before, node))
  }

  lemma RefilledWhole(p: OramParams, leaf: nat, depth: nat, before: seq<nat>, pool: seq<SimBlock>, after: seq<nat>,
                      left: seq<SimBlock>, node: nat)
    requires p.bucketSize > 0 && |before| == |after| == TableSize(p) && node < p.BucketCount()
    requires BucketBase(p, node) + p.bucketSize <= |before|
    requires SameExcept(before, after, BucketBase(p, node), BucketBase(p, node) + p.bucketSize)
    requires Refilled(p, leaf, depth, before, pool, after, left, BucketBase(p, node),
                      BucketBase(p, node) + p.bucketSize)
    requires depth < p.Height() && (after, left) ==
             Refill(p, depth, node, before, pool, BucketBase(p, node), BucketBase(p, node) + p.bucketSize)
    ensures RefilledBucket(p, leaf, depth, before, pool, after, left, node)
  {
    hide BucketBase, TableSize, NodeOf, FreeSlots, SimReaches, Eligible, Min, Refill, PoolLeft;
    ExceptBucket(p, before, after, node);
  }

  lemma RestOf(n: nat, id: nat)
    requires id < n
    ensures id !in FirstIds(n) - multiset{id} && (FirstIds(n) - multiset{id}) + multiset{id} == FirstIds(n)
  {
  }

  lemma NextId(id: nat)
    ensures FirstIds(id + 1) == FirstIds(id) + multiset{id}
  {
  }

  lemma NodeOnPath(p: OramParams, leaf: nat, depth: nat)
    requires depth < p.Height()
    ensures p.NodeIndex(depth, leaf) in p.PathNodes(leaf)
  {
    assert p.PathNodes(leaf)[depth] == p.NodeIndex(depth, leaf);
  }

  lemma EmptyTable(p: OramParams, slots: seq<nat>, pos: seq<nat>)
    requires TableShape(p, slots, pos) && forall o :: 0 <= o < |slots| ==> slots[o] == EMPTY_SLOT
    ensures Holds(p, slots, pos, [], FirstIds(0))
  {
    AllEmpty(slots);
  }
}
