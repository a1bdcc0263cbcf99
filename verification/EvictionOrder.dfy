/** Which block goes where in an eviction, beyond how many (src/circuit.rs, plan_eviction_placements and
    apply_eviction_plan_to_overlays): candidates are taken in order, and leftovers enter the stash in order. */
module EvictionOrder {
  import opened Common
  import opened Blocks
  import opened EvictionPlan
  import opened PageStores
  import opened OramSpec

  /** One of the first `k` slots names candidate `i`. */
  ghost predicate Named(slots: Slots, k: nat, i: nat) {
    exists l :: 0 <= l < k && l < |slots| && slots[l] == Some(i)
  }

  /** Every slot in turn takes the first candidate that may go this deep and is not taken yet, and stays
      empty only when there is none. */
  ghost predicate TakenInOrder(reach: seq<nat>, selected: seq<bool>, d: nat, slots: Slots)
    requires |selected| == |reach|
  {
    forall k :: 0 <= k < |slots| ==>
      match slots[k]
      case Some(j) =>
        && j < |reach| && d < reach[j] && !selected[j] && !Named(slots, k, j)
        && forall i :: 0 <= i < j && d < reach[i] ==> selected[i] || Named(slots, k, i)
      case None => forall i :: 0 <= i < |reach| && d < reach[i] ==> selected[i] || Named(slots, k, i)
  }

  lemma {:induction false} FillBucketOrder(reach: seq<nat>, selected: seq<bool>, d: nat, z: nat)
    requires |selected| == |reach|
    ensures var (s, slots) := FillBucket(reach, selected, d, z);
            && TakenInOrder(reach, selected, d, slots)
            && forall i :: 0 <= i < |reach| ==> (s[i] <==> selected[i] || Named(slots, |slots|, i))
  {
    if z > 0 {
      FillBucketOrder(reach, selected, d, z - 1);
      var (s, slots) := FillBucket(reach, selected, d, z - 1);
      var i := FirstFit(reach, s, d, 0);
      OneMoreSlot(reach, selected, d, slots, s, if i < |reach| then Some(i) else None);
    }
  }

  lemma OneMoreSlot(reach: seq<nat>, selected: seq<bool>, d: nat, slots: Slots, s: seq<bool>, next: Option<nat>)
    requires |selected| == |reach| == |s| && TakenInOrder(reach, selected, d, slots)
    requires forall i :: 0 <= i < |reach| ==> (s[i] <==> selected[i] || Named(slots, |slots|, i))
    requires match next
             case Some(j) => j < |reach| && d < reach[j] && !s[j] && forall i :: 0 <= i < j && d < reach[i] ==> s[i]
             case None => forall i :: 0 <= i < |reach| && d < reach[i] ==> s[i]
    ensures TakenInOrder(reach, selected, d, slots + [next])
    ensures forall i :: 0 <= i < |reach| ==>
              (Named(slots + [next], |slots| + 1, i) <==> Named(slots, |slots|, i) || next == Some(i))
  {
    var more := slots + [next];
    forall k, i | 0 <= k <= |slots| && 0 <= i < |reach|
      ensures Named(more, k, i) <==> Named(slots, k, i)
    {
      if l :| 0 <= l < k && l < |slots| && slots[l] == Some(i) {
        assert more[l] == Some(i);
      }
    }
    forall i | 0 <= i < |reach|
      ensures Named(more, |slots| + 1, i) <==> Named(slots, |slots|, i) || next == Some(i)
    {
      if l :| 0 <= l < |slots| && slots[l] == Some(i) {
        assert more[l] == Some(i);
      }
      assert more[|slots|] == next;
    }
  }

  /** Candidate `i` is named by a bucket deeper than the one at position `e`, or by an earlier slot of it. */
  ghost predicate NamedBefore(q: seq<Slots>, e: nat, k: nat, i: nat)
    requires e < |q|
  {
    NamedDeeper(q, e + 1, i) || Named(q[e], k, i)
  }

  ghost predicate NamedDeeper(q: seq<Slots>, from: nat, i: nat) {
    exists e :: from <= e < |q| && Named(q[e], |q[e]|, i)
  }

  /** From the leaf up, every slot takes the first candidate that may go that deep and is not placed yet. */
  ghost predicate GreedyInOrder(reach: seq<nat>, d: nat, q: seq<Slots>) {
    forall e, k :: 0 <= e < |q| && 0 <= k < |q[e]| ==>
      match q[e][k]
      case Some(j) =>
        && j < |reach| && d + e < reach[j] && !NamedBefore(q, e, k, j)
        && forall i :: 0 <= i < j && d + e < reach[i] ==> NamedBefore(q, e, k, i)
      case None => forall i :: 0 <= i < |reach| && d + e < reach[i] ==> NamedBefore(q, e, k, i)
  }

  lemma {:induction false} FillOrder(reach: seq<nat>, d: nat, h: nat, z: nat)
    requires d <= h
    ensures var (s, q) := FillFrom(reach, d, h, z);
            && GreedyInOrder(reach, d, q)
            && forall i :: 0 <= i < |reach| ==> (s[i] <==> NamedDeeper(q, 0, i))
    decreases h - d
  {
    if d < h {
      FillOrder(reach, d + 1, h, z);
      var (s, deeper) := FillFrom(reach, d + 1, h, z);
      FillBucketOrder(reach, s, d, z);
      var (s', slots) := FillBucket(reach, s, d, z);
      OneMoreBucket(reach, d, s, deeper, slots, s');
    }
  }

  lemma OneMoreBucket(reach: seq<nat>, d: nat, s: seq<bool>, deeper: seq<Slots>, slots: Slots, s': seq<bool>)
    requires |s| == |reach| == |s'| && GreedyInOrder(reach, d + 1, deeper) && TakenInOrder(reach, s, d, slots)
    requires forall i :: 0 <= i < |reach| ==> (s[i] <==> NamedDeeper(deeper, 0, i))
    requires forall i :: 0 <= i < |reach| ==> (s'[i] <==> s[i] || Named(slots, |slots|, i))
    ensures GreedyInOrder(reach, d, [slots] + deeper)
    ensures forall i :: 0 <= i < |reach| ==> (s'[i] <==> NamedDeeper([slots] + deeper, 0, i))
  {
    hide Named;
    var q := [slots] + deeper;
    forall from: nat, i: nat
      ensures NamedDeeper(q, from + 1, i) <==> NamedDeeper(deeper, from, i)
    {
      ShiftDeeper(slots, deeper, from, i);
    }
    forall i: nat
      ensures NamedDeeper(q, 0, i) <==> Named(slots, |slots|, i) || NamedDeeper(q, 1, i)
    {
      if Named(slots, |slots|, i) { assert Named(q[0], |q[0]|, i); }
    }
    forall e, k | 0 <= e < |q| && 0 <= k < |q[e]|
      ensures match q[e][k]
              case Some(j) =>
                && j < |reach| && d + e < reach[j] && !NamedBefore(q, e, k, j)
                && forall i :: 0 <= i < j && d + e < reach[i] ==> NamedBefore(q, e, k, i)
              case None => forall i :: 0 <= i < |reach| && d + e < reach[i] ==> NamedBefore(q, e, k, i)
    {
      if e > 0 {
        var f := e - 1;
        assert q[e] == deeper[f] && d + 1 + f == d + e;
        assert forall i: nat :: NamedBefore(q, e, k, i) <==> NamedBefore(deeper, f, k, i);
      } else {
        assert forall i: nat :: i < |reach| ==> (NamedBefore(q, 0, k, i) <==> s[i] || Named(slots, k, i));
      }
    }
  }

  lemma ShiftDeeper(slots: Slots, deeper: seq<Slots>, from: nat, i: nat)
    ensures NamedDeeper([slots] + deeper, from + 1, i) <==> NamedDeeper(deeper, from, i)
  {
    hide Named;
    var q := [slots] + deeper;
    if e :| from <= e < |deeper| && Named(deeper[e], |deeper[e]|, i) {
      assert Named(q[e + 1], |q[e + 1]|, i);
    }
    if e :| from + 1 <= e < |q| && Named(q[e], |q[e]|, i) {
      assert Named(deeper[e - 1], |deeper[e - 1]|, i);
    }
  }

  /** The greedy plan, slot by slot. */
  lemma GreedyTakesFirst(reach: seq<nat>, h: nat, z: nat)
    ensures GreedyInOrder(reach, 0, Greedy(reach, h, z).1)
    ensures forall i :: 0 <= i < |reach| ==> (Greedy(reach, h, z).0[i] <==> NamedDeeper(Greedy(reach, h, z).1, 0, i))
  {
    FillOrder(reach, 0, h, z);
  }

  /** The real blocks of a list, in order. */
  function RealOf<V>(bs: seq<Block<V>>): (r: seq<Block<V>>)
    ensures forall i :: 0 <= i < |r| ==> r[i].occupied
  {
    if bs == [] then []
    else RealOf(bs[..|bs| - 1]) + (if bs[|bs| - 1].occupied then [bs[|bs| - 1]] else [])
  }

  /** The free slots of a stash, in ascending order. */
  function FreeSlotsOf<V>(bs: seq<Block<V>>): (r: seq<nat>)
    ensures forall k :: 0 <= k < |r| ==> r[k] < |bs| && !bs[r[k]].occupied
    ensures forall k, l :: 0 <= k < l < |r| ==> r[k] < r[l]
    ensures forall i :: 0 <= i < |bs| && !bs[i].occupied ==> i in r
  {
    if bs == [] then []
    else
      var n := |bs| - 1;
      FreeSlotsOf(bs[..n]) + (if bs[n].occupied then [] else [n])
  }

  /** The blocks were put into the first free slots, in order; every other slot is as before. */
  ghost predicate FillsInOrder<V>(before: seq<Block<V>>, blocks: seq<Block<V>>, after: seq<Block<V>>) {
    var free := FreeSlotsOf(before);
    && |after| == |before| && |blocks| <= |free|
    && (forall k :: 0 <= k < |blocks| ==> after[free[k]] == blocks[k])
    && (forall i :: 0 <= i < |before| && before[i].occupied ==> after[i] == before[i])
    && forall k :: |blocks| <= k < |free| ==> after[free[k]] == before[free[k]]
  }

  /** With `added` in place, the first free slot is the next of the slots that were free. */
  lemma NextFree<V>(bs: seq<Block<V>>, s: seq<Block<V>>, added: seq<Block<V>>)
    requires FillsInOrder(bs, added, s) && FirstFree(s, 0) < |s|
    requires forall i :: 0 <= i < |added| ==> added[i].occupied
    ensures |added| < |FreeSlotsOf(bs)| && FirstFree(s, 0) == FreeSlotsOf(bs)[|added|]
  {
    hide FreeSlotsOf, FirstFree;
    var free, i := FreeSlotsOf(bs), FirstFree(s, 0);
    assert !bs[i].occupied;
    var k :| 0 <= k < |free| && free[k] == i;
    assert k >= |added|;
    assert !s[free[|added|]].occupied;
    assert i <= free[|added|];
  }

  lemma FillNext<V>(bs: seq<Block<V>>, s: seq<Block<V>>, b: Block<V>, added: seq<Block<V>>)
    requires FillsInOrder(bs, added, s) && |added| < |FreeSlotsOf(bs)|
    ensures FillsInOrder(bs, added + [b], s[FreeSlotsOf(bs)[|added|] := b])
  {
    hide FreeSlotsOf;
  }

  /** Real blocks inserted into a stash fill its free slots from the first on, in their order. */
  lemma {:induction false} InsertAllOrder<V>(bs: seq<Block<V>>, more: seq<Block<V>>)
    requires InsertAll(bs, more).Some?
    ensures FillsInOrder(bs, RealOf(more), InsertAll(bs, more).value)
    decreases |more|
  {
    if more != [] {
      var n := |more| - 1;
      InsertAllOrder(bs, more[..n]);
      if more[n].occupied {
        NextFree(bs, InsertAll(bs, more[..n]).value, RealOf(more[..n]));
        FillNext(bs, InsertAll(bs, more[..n]).value, more[n], RealOf(more[..n]));
      }
    }
  }

  /** The stash after an eviction: a block of it that the plan leaves out keeps its slot, a block the plan
      takes frees its slot, and the path blocks left over fill the free slots from the first on, in path
      order. */
  lemma EvictedStash<V>(c: Config<V>, stash: seq<Block<V>>, pages: Pages<V>, evict: nat)
    requires c.params.leaves > 0 && EvictPath(c, stash, pages, evict).Ok?
    ensures var all := Concat(pages);
            var selected := Greedy(Reaches(c.params, evict, stash + all), c.params.Height(), c.params.bucketSize).0;
            FillsInOrder(Keep(stash, selected[..|stash|], c.zero), RealOf(Keep(all, selected[|stash|..], c.zero)),
                         EvictPath(c, stash, pages, evict).value.0)
  {
    hide Greedy, Reaches, Keep;
    var all := Concat(pages);
    var selected := Greedy(Reaches(c.params, evict, stash + all), c.params.Height(), c.params.bucketSize).0;
    InsertAllOrder(Keep(stash, selected[..|stash|], c.zero), Keep(all, selected[|stash|..], c.zero));
  }

  /** Every slot of the rebuilt path holds the first candidate, stash first and then the path from the root,
      that may go that deep and is in no deeper bucket or earlier slot. */
  lemma EvictedPath<V>(c: Config<V>, stash: seq<Block<V>>, pages: Pages<V>, evict: nat)
    requires c.params.leaves > 0 && EvictPath(c, stash, pages, evict).Ok?
    ensures var cands := stash + Concat(pages);
            var reach := Reaches(c.params, evict, cands);
            var q := Greedy(reach, c.params.Height(), c.params.bucketSize).1;
            && InRange(q, |cands|) && GreedyInOrder(reach, 0, q)
            && EvictPath(c, stash, pages, evict).value.1 == BuildPages(cands, q, c.zero)
  {
    hide Greedy, Reaches, GreedyInOrder;
    var cands := stash + Concat(pages);
    GreedyTakesFirst(Reaches(c.params, evict, cands), c.params.Height(), c.params.bucketSize);
    GreedyInRange(Reaches(c.params, evict, cands), c.params.Height(), c.params.bucketSize);
  }
}
