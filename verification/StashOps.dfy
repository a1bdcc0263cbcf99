/** In-place stash operations: fixed-capacity array of slots, scanned in full every time
    (src/circuit.rs, insert_into_stash, insert_candidate_into_stash, occupied_stash_len, the stash
    loops of access, and the clear and reinsert loops of apply_eviction_plan_to_overlays). */
module StashOps {
  import opened Common
  import opened Blocks
  import opened OramSpec

  /** Stores a real block in the first free slot; a dummy is accepted without effect. */
  method InsertIntoStash<V>(stash: array<Block<V>>, block: Block<V>) returns (r: Result<()>)
    modifies stash
    ensures !block.occupied ==> r.Ok? && stash[..] == old(stash[..])
    ensures block.occupied ==>
              && (r.Ok? <==> InsertFree(old(stash[..]), block).Some?)
              && (r.Ok? ==> stash[..] == InsertFree(old(stash[..]), block).value)
    ensures r.Err? ==> r.error == StashOverflow && stash[..] == old(stash[..])
  {
    var inserted := !block.occupied;
    for i := 0 to stash.Length
      invariant inserted && !block.occupied ==> stash[..] == old(stash[..])
      invariant block.occupied && inserted ==>
                  && FirstFree(old(stash[..]), 0) < i
                  && stash[..] == old(stash[..])[FirstFree(old(stash[..]), 0) := block]
      invariant !inserted ==>
                  && block.occupied && stash[..] == old(stash[..])
                  && forall k :: 0 <= k < i ==> stash[k].occupied
    {
      var canInsert := block.occupied && !inserted && !stash[i].occupied;
      if canInsert {
        assert FirstFree(old(stash[..]), 0) == i;
        stash[i] := block;
      }
      inserted := inserted || canInsert;
    }
    if !inserted {
      return Err(StashOverflow);
    }
    return Ok(());
  }

  lemma OccupiedStep<V>(bs: seq<Block<V>>, i: nat)
    requires i < |bs|
    ensures Occupied(bs[..i + 1]) == Occupied(bs[..i]) + (if bs[i].occupied then 1 else 0)
  {
    assert bs[..i + 1] == bs[..i] + [bs[i]];
    OccupiedSnoc(bs[..i], bs[i]);
  }

  method OccupiedStashLen<V>(stash: array<Block<V>>) returns (n: nat)
    ensures n == Occupied(stash[..]) == |Real(stash[..])|
  {
    n := 0;
    for i := 0 to stash.Length
      invariant n == Occupied(stash[..][..i])
    {
      OccupiedStep(stash[..], i);
      n := n + (if stash[i].occupied then 1 else 0);
    }
    assert stash[..][..stash.Length] == stash[..];
    OccupiedIsCard(stash[..]);
  }

  /** Reads the payload of block `id`; the zero payload when no slot matches. */
  method ScanStash<V>(stash: array<Block<V>>, id: nat, zero: V) returns (found: bool, output: V)
    ensures ScanPayload(stash[..], id) == if found then Some(output) else None
  {
    found, output := false, zero;
    for i := 0 to stash.Length
      invariant ScanPayload(stash[..][..i], id) == if found then Some(output) else None
    {
      assert stash[..][..i + 1][..i] == stash[..][..i];
      var matched := Holds(stash[i], id);
      output := if matched then stash[i].payload else output;
      found := found || matched;
    }
    assert stash[..][..stash.Length] == stash[..];
  }

  method RestampStash<V>(stash: array<Block<V>>, id: nat, leaf: nat, payload: V)
    modifies stash
    ensures stash[..] == Restamp(old(stash[..]), id, leaf, payload)
  {
    for i := 0 to stash.Length
      invariant forall k :: 0 <= k < stash.Length ==>
                  stash[k] == if k < i then Restamp(old(stash[..]), id, leaf, payload)[k] else old(stash[k])
    {
      var matched := Holds(stash[i], id);
      stash[i] := if matched then stash[i].(leaf := leaf, payload := payload) else stash[i];
    }
  }

  /** Clears every stash slot the plan selected. */
  method ClearSelected<V>(stash: array<Block<V>>, selected: seq<bool>, zero: V)
    requires |selected| == stash.Length
    modifies stash
    ensures stash[..] == Keep(old(stash[..]), selected, zero)
  {
    for i := 0 to stash.Length
      invariant forall k :: 0 <= k < stash.Length ==>
                  stash[k] == if k < i then Keep(old(stash[..]), selected, zero)[k] else old(stash[k])
    {
      var clear := stash[i].occupied && selected[i];
      stash[i] := if clear then Dummy(zero) else stash[i];
    }
  }

  lemma InsertAllStep<V>(bs: seq<Block<V>>, more: seq<Block<V>>, k: nat)
    requires k < |more|
    ensures InsertAll(bs, more[..k + 1]) ==
            if InsertAll(bs, more[..k]).None? then None
            else if more[k].occupied then InsertFree(InsertAll(bs, more[..k]).value, more[k])
            else InsertAll(bs, more[..k])
  {
    assert more[..k + 1][..k] == more[..k];
  }

  lemma {:induction false} InsertAllPrefix<V>(bs: seq<Block<V>>, more: seq<Block<V>>, k: nat)
    requires k <= |more| && InsertAll(bs, more).Some?
    ensures InsertAll(bs, more[..k]).Some?
    decreases |more| - k
  {
    if k == |more| {
      assert more[..k] == more;
    } else {
      InsertAllPrefix(bs, more, k + 1);
      InsertAllStep(bs, more, k);
    }
  }

  /** Puts the unselected path blocks back, in candidate order; never fails once capacity was checked. */
  method ReinsertLeftovers<V>(stash: array<Block<V>>, leftover: seq<Block<V>>) returns (r: Result<()>)
    requires InsertAll(stash[..], leftover).Some?
    modifies stash
    ensures r.Ok? && stash[..] == InsertAll(old(stash[..]), leftover).value
  {
    for k := 0 to |leftover|
      invariant InsertAll(old(stash[..]), leftover[..k]) == Some(stash[..])
    {
      InsertAllPrefix(old(stash[..]), leftover, k + 1);
      InsertAllStep(old(stash[..]), leftover, k);
      r := InsertIntoStash(stash, leftover[k]);
      if r.Err? {
        return;
      }
    }
    assert leftover[..|leftover|] == leftover;
    return Ok(());
  }
}
