/** The loops of one path eviction: gather candidates and payloads, check capacity, rebuild pages
    (src/circuit.rs, plan_eviction_placements, load_eviction_payloads_from_overlay,
    ensure_eviction_stash_capacity, apply_eviction_plan_to_overlays). */
module EvictionOps {
  import opened Common
  import opened Blocks
  import opened EvictionPlan
  import opened PageStores
  import opened OramSpec
  import opened OramScans
  import opened StashOps

  function SlotOf<V>(b: Block<V>): Slot {
    Slot(b.occupied, b.id, b.leaf)
  }

  function SlotsOf<V>(bs: seq<Block<V>>): (r: seq<Slot>)
    ensures |r| == |bs| && forall i :: 0 <= i < |r| ==> r[i] == SlotOf(bs[i])
  {
    seq(|bs|, i requires 0 <= i < |bs| => SlotOf(bs[i]))
  }

  function PayloadsOf<V>(bs: seq<Block<V>>): (r: seq<V>)
    ensures |r| == |bs| && forall i :: 0 <= i < |r| ==> r[i] == bs[i].payload
  {
    seq(|bs|, i requires 0 <= i < |bs| => bs[i].payload)
  }

  /** Index of the first candidate that comes from depth `d` of the path. */
  function Offset<T>(base: nat, lists: seq<seq<T>>, d: nat): nat
    requires d <= |lists|
  {
    base + |Concat(lists[..d])|
  }

  lemma OffsetStep<T>(base: nat, lists: seq<seq<T>>, d: nat)
    requires d < |lists|
    ensures Concat(lists[..d + 1]) == Concat(lists[..d]) + lists[d]
    ensures Offset(base, lists, d + 1) == Offset(base, lists, d) + |lists[d]|
    ensures Offset(base, lists, d + 1) <= base + |Concat(lists)|
  {
    assert lists[..d + 1] == lists[..d] + [lists[d]];
    ConcatSnoc(lists[..d], lists[d]);
    ConcatSplit(lists, d + 1);
  }

  /** `indices[d][j]` is the candidate number of slot `j` at depth `d`. */
  ghost predicate Numbering<T>(indices: seq<seq<nat>>, base: nat, lists: seq<seq<T>>) {
    && |indices| == |lists|
    && forall d {:trigger indices[d]} :: 0 <= d < |lists| ==>
         && |indices[d]| == |lists[d]|
         && forall j :: 0 <= j < |lists[d]| ==> indices[d][j] == Offset(base, lists, d) + j
  }

  /** Stash slots first, then the path slots from the root down. */
  method CollectCandidates<V>(stash: array<Block<V>>, pathMeta: seq<seq<Slot>>)
    returns (cands: seq<Slot>, indices: seq<seq<nat>>)
    ensures cands == SlotsOf(stash[..]) + Concat(pathMeta)
    ensures Numbering(indices, stash.Length, pathMeta)
  {
    cands := [];
    for i := 0 to stash.Length
      invariant cands == SlotsOf(stash[..][..i])
    {
      cands := cands + [SlotOf(stash[i])];
    }
    assert stash[..][..stash.Length] == stash[..];
    ghost var head := cands;
    indices := [];
    for d := 0 to |pathMeta|
      invariant cands == head + Concat(pathMeta[..d])
      invariant |indices| == d
      invariant forall e {:trigger indices[e]} :: 0 <= e < d ==>
                  && |indices[e]| == |pathMeta[e]|
                  && forall j :: 0 <= j < |pathMeta[e]| ==> indices[e][j] == Offset(stash.Length, pathMeta, e) + j
    {
      var row: seq<nat> := [];
      OffsetStep(stash.Length, pathMeta, d);
      for j := 0 to |pathMeta[d]|
        invariant cands == head + Concat(pathMeta[..d]) + pathMeta[d][..j]
        invariant |row| == j
        invariant forall i :: 0 <= i < j ==> row[i] == Offset(stash.Length, pathMeta, d) + i
      {
        row := row + [|cands|];
        cands := cands + [pathMeta[d][j]];
      }
      assert pathMeta[d][..|pathMeta[d]|] == pathMeta[d];
      indices := indices + [row];
    }
    assert pathMeta[..|pathMeta|] == pathMeta;
  }

  /** Payload of every candidate, in candidate order. */
  method LoadPayloads<V>(stash: array<Block<V>>, indices: seq<seq<nat>>, pathPayloads: seq<seq<V>>, zero: V)
    returns (payloads: seq<V>)
    requires Numbering(indices, stash.Length, pathPayloads)
    ensures payloads == PayloadsOf(stash[..]) + Concat(pathPayloads)
  {
    ghost var all := PayloadsOf(stash[..]) + Concat(pathPayloads);
    var count := stash.Length;
    for d := 0 to |pathPayloads|
      invariant count == Offset(stash.Length, pathPayloads, d)
    {
      OffsetStep(stash.Length, pathPayloads, d);
      count := count + |pathPayloads[d]|;
    }
    assert pathPayloads[..|pathPayloads|] == pathPayloads;
    payloads := seq(count, _ => zero);
    for i := 0 to stash.Length
      invariant |payloads| == |all| && payloads[..i] == all[..i]
    {
      payloads := payloads[i := stash[i].payload];
    }
    for d := 0 to |pathPayloads|
      invariant |payloads| == |all|
      invariant Offset(stash.Length, pathPayloads, d) <= |all|
      invariant payloads[..Offset(stash.Length, pathPayloads, d)] == all[..Offset(stash.Length, pathPayloads, d)]
    {
      OffsetStep(stash.Length, pathPayloads, d);
      ghost var off := Offset(stash.Length, pathPayloads, d);
      ConcatSplit(pathPayloads, d + 1);
      for j := 0 to |pathPayloads[d]|
        invariant |payloads| == |all| && off + j <= |all|
        invariant payloads[..off + j] == all[..off + j]
      {
        assert all[off + j] == pathPayloads[d][j];
        payloads := payloads[indices[d][j] := pathPayloads[d][j]];
      }
    }
  }

  lemma {:induction false} JoinConcat<V>(metas: seq<seq<Slot>>, payloads: seq<seq<V>>, pages: Pages<V>)
    requires |metas| == |payloads| == |pages|
    requires forall d :: 0 <= d < |pages| ==> |metas[d]| == |payloads[d]| && pages[d] == Join(metas[d], payloads[d])
    ensures |Concat(metas)| == |Concat(payloads)|
    ensures Concat(pages) == Join(Concat(metas), Concat(payloads))
  {
    if pages != [] {
      JoinConcat(metas[1..], payloads[1..], pages[1..]);
    }
  }

  lemma {:induction false} KeepStep<V>(bs: seq<Block<V>>, selected: seq<bool>, zero: V, i: nat)
    requires |selected| == |bs| && i < |bs|
    ensures Occupied(Keep(bs[..i + 1], selected[..i + 1], zero)) ==
            Occupied(Keep(bs[..i], selected[..i], zero)) + (if bs[i].occupied && !selected[i] then 1 else 0)
  {
    var k := Keep(bs[..i + 1], selected[..i + 1], zero);
    assert k == Keep(bs[..i], selected[..i], zero) + [k[i]];
    OccupiedSnoc(Keep(bs[..i], selected[..i], zero), k[i]);
  }

  /** Counts selected stash blocks and unselected path blocks; reports an overflow exactly when the
      latter would not fit. */
  method EnsureEvictionStashCapacity<V>(stash: array<Block<V>>, ghost path: seq<Block<V>>, cands: seq<Slot>,
                                        selected: seq<bool>, ghost zero: V)
    returns (r: Result<()>)
    requires cands == SlotsOf(stash[..] + path) && |selected| == |cands|
    ensures r.Ok? <==> InsertAll(Keep(stash[..], selected[..stash.Length], zero),
                                 Keep(path, selected[stash.Length..], zero)).Some?
    ensures r.Err? ==> r.error == StashOverflow
  {
    hide Real, InsertAll, Keep;
    ghost var front, back := selected[..stash.Length], selected[stash.Length..];
    var selectedStash := 0;
    for i := 0 to stash.Length
      invariant selectedStash + Occupied(Keep(stash[..][..i], front[..i], zero)) == Occupied(stash[..][..i])
    {
      KeepStep(stash[..], front, zero, i);
      OccupiedStep(stash[..], i);
      selectedStash := selectedStash + (if cands[i].occupied && selected[i] then 1 else 0);
    }
    var unselectedPath := 0;
    for i := stash.Length to |cands|
      invariant unselectedPath == Occupied(Keep(path[..i - stash.Length], back[..i - stash.Length], zero))
    {
      KeepStep(path, back, zero, i - stash.Length);
      unselectedPath := unselectedPath + (if cands[i].occupied && !selected[i] then 1 else 0);
    }
    var occupied := OccupiedStashLen(stash);
    assert stash[..][..stash.Length] == stash[..] && front[..stash.Length] == front;
    assert path[..|path|] == path && back[..|path|] == back;
    OccupancyBound(stash[..]);
    var free := stash.Length - occupied + selectedStash;
    FitsByCount(Keep(stash[..], front, zero), Keep(path, back, zero));
    if unselectedPath > free {
      return Err(StashOverflow);
    }
    return Ok(());
  }

  lemma FitsByCount<V>(bs: seq<Block<V>>, more: seq<Block<V>>)
    ensures InsertAll(bs, more).Some? <==> Occupied(bs) + Occupied(more) <= |bs|
  {
    InsertAllAdds(bs, more);
    OccupiedIsCard(bs);
    OccupiedIsCard(more);
  }

  /** Rebuilds one page: every slot scans all candidates for the one the plan placed there. */
  method RebuildPage<V>(slots: Slots, cands: seq<Slot>, payloads: seq<V>, zero: V)
    returns (meta: seq<Slot>, pay: seq<V>)
    requires |cands| == |payloads|
    requires forall j :: 0 <= j < |slots| && slots[j].Some? ==> slots[j].value < |cands|
    ensures |meta| == |pay| == |slots|
    ensures Join(meta, pay) == BuildPage(Join(cands, payloads), slots, zero)
  {
    meta, pay := [], [];
    for j := 0 to |slots|
      invariant |meta| == |pay| == j
      invariant forall i :: 0 <= i < j ==>
                  && meta[i] == (if slots[i].Some? then cands[slots[i].value] else DUMMY_SLOT)
                  && pay[i] == (if slots[i].Some? then payloads[slots[i].value] else zero)
    {
      var metaSlot, payloadSlot := DUMMY_SLOT, zero;
      for i := 0 to |cands|
        invariant metaSlot == if slots[j].Some? && slots[j].value < i then cands[slots[j].value] else DUMMY_SLOT
        invariant payloadSlot == if slots[j].Some? && slots[j].value < i then payloads[slots[j].value] else zero
      {
        var select := slots[j].Some? && slots[j].value == i;
        metaSlot := if select then cands[i] else metaSlot;
        payloadSlot := if select then payloads[i] else payloadSlot;
      }
      meta := meta + [metaSlot];
      pay := pay + [payloadSlot];
    }
  }
}
