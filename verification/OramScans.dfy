/** The full-scan loops of the controller: every loop visits every entry and assigns conditionally
    (src/circuit.rs, scan_pos_map_*, batch_access_leaves, select_and_remove_target_slots,
    plan_eviction_placements). */
module OramScans {
  import opened Common
  import opened Geometry
  import opened Blocks
  import opened EvictionPlan
  import opened OramSpec
  import opened EvictionRefinement

  method ScanPosMapLookup(posMap: array<nat>, id: nat) returns (leaf: nat)
    ensures leaf == if id < posMap.Length then posMap[id] else 0
  {
    leaf := 0;
    for idx := 0 to posMap.Length
      invariant leaf == if id < idx then posMap[id] else 0
    {
      leaf := if idx == id then posMap[idx] else leaf;
    }
  }

  method ScanPosMapUpdate(posMap: array<nat>, id: nat, newLeaf: nat)
    modifies posMap
    ensures posMap[..] == if id < posMap.Length then old(posMap[..])[id := newLeaf] else old(posMap[..])
  {
    for idx := 0 to posMap.Length
      invariant forall i :: 0 <= i < posMap.Length ==>
                  posMap[i] == if i < idx && i == id then newLeaf else old(posMap[i])
    {
      posMap[idx] := if idx == id then newLeaf else posMap[idx];
    }
  }

  /** One pass over the map answers every query of the batch. */
  method ScanPosMapLookupBatch(posMap: array<nat>, ids: seq<nat>) returns (leaves: seq<nat>)
    ensures |leaves| == |ids|
    ensures forall k :: 0 <= k < |ids| && ids[k] < posMap.Length ==> leaves[k] == posMap[ids[k]]
  {
    leaves := seq(|ids|, _ => 0);
    for idx := 0 to posMap.Length
      invariant |leaves| == |ids|
      invariant forall k :: 0 <= k < |ids| && ids[k] < idx ==> leaves[k] == posMap[ids[k]]
    {
      for k := 0 to |ids|
        invariant |leaves| == |ids|
        invariant forall i :: 0 <= i < |ids| && (ids[i] < idx || (i < k && ids[i] == idx)) ==>
                    leaves[i] == posMap[ids[i]]
      {
        leaves := leaves[k := if ids[k] == idx then posMap[idx] else leaves[k]];
      }
    }
  }

  /** The position map after the first `k` relabellings of a batch, in order. */
  function Relabel(pos: seq<nat>, ids: seq<nat>, leaves: seq<nat>, k: nat): (r: seq<nat>)
    requires k <= |ids| == |leaves|
    ensures |r| == |pos|
  {
    if k == 0 then pos
    else
      var prev := Relabel(pos, ids, leaves, k - 1);
      if ids[k - 1] < |prev| then prev[ids[k - 1] := leaves[k - 1]] else prev
  }

  /** Relabelling touches one entry at a time, so it can be read entry by entry. */
  lemma {:induction false} RelabelEntry(pos: seq<nat>, ids: seq<nat>, leaves: seq<nat>, k: nat, idx: nat)
    requires k <= |ids| == |leaves| && idx < |pos|
    ensures Relabel(pos, ids, leaves, k)[idx] == LastLabel(pos[idx], ids, leaves, k, idx)
  {
    if k > 0 {
      RelabelEntry(pos, ids, leaves, k - 1, idx);
    }
  }

  /** The label id `idx` has after the first `k` relabellings. */
  function LastLabel(leaf: nat, ids: seq<nat>, leaves: seq<nat>, k: nat, idx: nat): nat
    requires k <= |ids| == |leaves|
  {
    if k == 0 then leaf
    else if ids[k - 1] == idx then leaves[k - 1]
    else LastLabel(leaf, ids, leaves, k - 1, idx)
  }

  method ScanPosMapUpdateBatch(posMap: array<nat>, ids: seq<nat>, newLeaves: seq<nat>)
    requires |ids| == |newLeaves|
    modifies posMap
    ensures posMap[..] == Relabel(old(posMap[..]), ids, newLeaves, |ids|)
  {
    for idx := 0 to posMap.Length
      invariant forall i :: 0 <= i < posMap.Length ==>
                  posMap[i] == if i < idx then LastLabel(old(posMap[i]), ids, newLeaves, |ids|, i) else old(posMap[i])
    {
      for k := 0 to |ids|
        invariant posMap[idx] == LastLabel(old(posMap[idx]), ids, newLeaves, k, idx)
        invariant forall i :: 0 <= i < posMap.Length && i != idx ==>
                    posMap[i] == if i < idx then LastLabel(old(posMap[i]), ids, newLeaves, |ids|, i) else old(posMap[i])
      {
        posMap[idx] := if idx == ids[k] then newLeaves[k] else posMap[idx];
      }
    }
    forall i | 0 <= i < posMap.Length
      ensures posMap[i] == Relabel(old(posMap[..]), ids, newLeaves, |ids|)[i]
    {
      RelabelEntry(old(posMap[..]), ids, newLeaves, |ids|, i);
    }
  }

  /** The leaf each access of a batch reads: an id's label after the earlier accesses of the batch. */
  method BatchAccessLeaves(ids: seq<nat>, oldLeaves: seq<nat>, newLeaves: seq<nat>) returns (leaves: seq<nat>)
    requires |ids| == |oldLeaves| == |newLeaves|
    ensures |leaves| == |ids|
    ensures forall i :: 0 <= i < |ids| ==> leaves[i] == LastLabel(oldLeaves[i], ids, newLeaves, i, ids[i])
  {
    leaves := oldLeaves;
    for i := 0 to |ids|
      invariant |leaves| == |ids|
      invariant forall k :: 0 <= k < |ids| ==>
                  leaves[k] == if k < i then LastLabel(oldLeaves[k], ids, newLeaves, k, ids[k]) else oldLeaves[k]
    {
      for j := 0 to i
        invariant |leaves| == |ids|
        invariant leaves[i] == LastLabel(oldLeaves[i], ids, newLeaves, j, ids[i])
        invariant forall k :: 0 <= k < |ids| && k != i ==>
                    leaves[k] == if k < i then LastLabel(oldLeaves[k], ids, newLeaves, k, ids[k]) else oldLeaves[k]
      {
        leaves := leaves[i := if ids[i] == ids[j] then newLeaves[j] else leaves[i]];
      }
    }
  }

  /** A bucket page seen whole: metadata slot and payload slot side by side. */
  function Join<V>(slots: seq<Slot>, payloads: seq<V>): (page: seq<Block<V>>)
    requires |slots| == |payloads|
    ensures |page| == |slots|
    ensures forall j :: 0 <= j < |page| ==>
              page[j] == Block(slots[j].occupied, slots[j].id, slots[j].leaf, payloads[j])
  {
    seq(|slots|, j requires 0 <= j < |slots| => Block(slots[j].occupied, slots[j].id, slots[j].leaf, payloads[j]))
  }

  /** Scans one bucket for the target. With `removed` already set nothing changes any more. */
  method SelectAndRemove<V>(slots: seq<Slot>, payloads: seq<V>, id: nat, zero: V,
                            selected: Block<V>, removed: bool)
    returns (slots': seq<Slot>, payloads': seq<V>, selected': Block<V>, removed': bool)
    requires |slots| == |payloads|
    ensures |slots'| == |payloads'| == |slots|
    ensures removed ==> slots' == slots && payloads' == payloads && selected' == selected && removed'
    ensures !removed ==>
              var (page, taken) := TakeFromBucket(Join(slots, payloads), id, zero);
              && Join(slots', payloads') == page
              && removed' == taken.Some?
              && selected' == if taken.Some? then taken.value else selected
  {
    slots', payloads', selected', removed' := slots, payloads, selected, removed;
    ghost var page := Join(slots, payloads);
    for j := 0 to |slots|
      invariant |slots'| == |payloads'| == |slots|
      invariant removed ==> slots' == slots && payloads' == payloads && selected' == selected && removed'
      invariant !removed && removed' ==>
                  && FirstHolding(page, id, 0) < j
                  && Join(slots', payloads') == page[FirstHolding(page, id, 0) := Dummy(zero)]
                  && selected' == page[FirstHolding(page, id, 0)]
      invariant !removed && !removed' ==>
                  && slots' == slots && payloads' == payloads && selected' == selected
                  && forall i :: 0 <= i < j ==> !Holds(page[i], id)
    {
      var matched := slots'[j].occupied && slots'[j].id == id && !removed';
      if matched {
        assert page[j] == Block(slots[j].occupied, slots[j].id, slots[j].leaf, payloads[j]);
        assert Holds(page[j], id) && FirstHolding(page, id, 0) == j;
        selected' := Block(slots'[j].occupied, slots'[j].id, slots'[j].leaf, payloads'[j]);
        slots' := slots'[j := DUMMY_SLOT];
        payloads' := payloads'[j := zero];
        removed' := true;
        assert Join(slots', payloads') == page[j := Dummy(zero)];
      } else {
        assert !removed && !removed' ==> !Holds(page[j], id);
      }
    }
  }

  /** Reaches of candidates given by metadata alone. */
  ghost function SlotReaches(p: OramParams, evict: nat, cands: seq<Slot>): (r: seq<nat>)
    requires p.leaves > 0
    ensures |r| == |cands|
    ensures forall i :: 0 <= i < |r| ==> r[i] == SlotReach(p, evict, cands[i].occupied, cands[i].leaf)
  {
    seq<nat>(|cands|, (i: int) requires 0 <= i < |cands| => SlotReach(p, evict, cands[i].occupied, cands[i].leaf))
  }

  lemma SlotReachMeaning(p: OramParams, evict: nat, s: Slot, d: nat)
    requires p.Valid() && evict < p.leaves && d < p.Height()
    ensures d < SlotReach(p, evict, s.occupied, s.leaf) <==>
            s.occupied && p.NodeIndex(d, s.leaf % p.leaves) == p.NodeIndex(d, evict)
  {
    ReachMeaning(p, evict, Block(s.occupied, s.id, s.leaf, 0), d);
  }

  /** One placement slot: the first active, unselected candidate that fits, found by a full scan. */
  method PlaceSlot(p: OramParams, ghost evict: nat, node: nat, cands: seq<Slot>, selected: seq<bool>, depth: nat)
    returns (selected': seq<bool>, placement: Option<nat>)
    requires p.Valid() && evict < p.leaves && depth < p.Height() && node == p.NodeIndex(depth, evict)
    requires |selected| == |cands|
    ensures var i := FirstFit(SlotReaches(p, evict, cands), selected, depth, 0);
            && |selected'| == |cands|
            && selected' == (if i < |cands| then selected[i := true] else selected)
            && placement == (if i < |cands| then Some(i) else None)
  {
    hide SlotReach, OramParams.NodeIndex;
    ghost var reach := SlotReaches(p, evict, cands);
    selected' := selected;
    placement := None;
    for i := 0 to |cands|
      invariant |selected'| == |cands|
      invariant placement.None? ==>
                  selected' == selected && forall k :: 0 <= k < i ==> selected[k] || reach[k] <= depth
      invariant placement.Some? ==>
                  && placement.value < i && selected' == selected[placement.value := true]
                  && !selected[placement.value] && depth < reach[placement.value]
                  && forall k :: 0 <= k < placement.value ==> selected[k] || reach[k] <= depth
    {
      var safeLeaf := cands[i].leaf % p.leaves;
      SlotReachMeaning(p, evict, cands[i], depth);
      var canPlace := cands[i].occupied && !selected'[i] && placement.None? && p.NodeIndex(depth, safeLeaf) == node;
      if canPlace {
        placement := Some(i);
        selected' := selected'[i := true];
      }
    }
  }

  /** The whole plan, from the leaf up. */
  method PlanEvictionPlacements(p: OramParams, ghost evict: nat, path: seq<nat>, cands: seq<Slot>)
    returns (selected: seq<bool>, placements: seq<Slots>)
    requires p.Valid() && evict < p.leaves && path == p.PathNodes(evict)
    ensures (selected, placements) == Greedy(SlotReaches(p, evict, cands), p.Height(), p.bucketSize)
  {
    hide OramParams.NodeIndex, SlotReaches, FillBucket;
    ghost var reach := SlotReaches(p, evict, cands);
    selected := Unselected(|cands|);
    placements := [];
    var depth := p.Height();
    while depth > 0
      invariant 0 <= depth <= p.Height()
      invariant (selected, placements) == FillFrom(reach, depth, p.Height(), p.bucketSize)
    {
      depth := depth - 1;
      var slots;
      selected, slots := PlaceBucket(p, evict, path[depth], cands, selected, depth);
      placements := [slots] + placements;
    }
  }

  /** The slots of one bucket, in order. */
  method PlaceBucket(p: OramParams, ghost evict: nat, node: nat, cands: seq<Slot>, before: seq<bool>, depth: nat)
    returns (selected: seq<bool>, slots: Slots)
    requires p.Valid() && evict < p.leaves && depth < p.Height() && node == p.NodeIndex(depth, evict)
    requires |before| == |cands|
    ensures (selected, slots) == FillBucket(SlotReaches(p, evict, cands), before, depth, p.bucketSize)
  {
    hide OramParams.NodeIndex, SlotReaches;
    selected := before;
    slots := [];
    for j := 0 to p.bucketSize
      invariant |selected| == |cands|
      invariant (selected, slots) == FillBucket(SlotReaches(p, evict, cands), before, depth, j)
    {
      var placement;
      selected, placement := PlaceSlot(p, evict, node, cands, selected, depth);
      slots := slots + [placement];
    }
  }
}
