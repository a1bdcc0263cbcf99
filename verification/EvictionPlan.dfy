/** Greedy deepest-first placement along one eviction path (src/circuit.rs, plan_eviction_placements).

    A candidate is described by its reach: the number of path depths that may hold it, counted
    from the root. Depth `d` may hold candidate `i` exactly when `d < reach[i]`; inactive
    candidates have reach 0. */
module EvictionPlan {
  import opened Common

  type Slots = seq<Option<nat>>

  /** First unselected candidate at or after `from` that depth `d` may hold. */
  function FirstFit(reach: seq<nat>, selected: seq<bool>, d: nat, from: nat): (i: nat)
    requires |selected| == |reach| && from <= |reach|
    ensures from <= i <= |reach|
    ensures i < |reach| ==> !selected[i] && d < reach[i]
    ensures forall j :: from <= j < i ==> selected[j] || reach[j] <= d
    decreases |reach| - from
  {
    if from == |reach| || (!selected[from] && d < reach[from]) then from
    else FirstFit(reach, selected, d, from + 1)
  }

  /** Fills `z` slots of the bucket at depth `d`, in slot order. */
  function FillBucket(reach: seq<nat>, selected: seq<bool>, d: nat, z: nat): (r: (seq<bool>, Slots))
    requires |selected| == |reach|
    ensures |r.0| == |reach| && |r.1| == z
  {
    if z == 0 then (selected, [])
    else
      var (s, slots) := FillBucket(reach, selected, d, z - 1);
      var i := FirstFit(reach, s, d, 0);
      if i < |reach| then (s[i := true], slots + [Some(i)]) else (s, slots + [None])
  }

  function Unselected(n: nat): (s: seq<bool>)
    ensures |s| == n && forall i :: 0 <= i < n ==> !s[i]
  {
    seq(n, _ => false)
  }

  /** Fills the buckets of depths `d` to `h - 1`, deepest first. */
  function FillFrom(reach: seq<nat>, d: nat, h: nat, z: nat): (r: (seq<bool>, seq<Slots>))
    requires d <= h
    ensures |r.0| == |reach| && |r.1| == h - d
    decreases h - d
  {
    if d == h then (Unselected(|reach|), [])
    else
      var (s, deeper) := FillFrom(reach, d + 1, h, z);
      var (s', slots) := FillBucket(reach, s, d, z);
      (s', [slots] + deeper)
  }

  function Greedy(reach: seq<nat>, h: nat, z: nat): (r: (seq<bool>, seq<Slots>))
    ensures |r.0| == |reach| && |r.1| == h
  {
    FillFrom(reach, 0, h, z)
  }

  /** Number of candidates that depth `d` may hold. */
  function Eligible(reach: seq<nat>, d: nat): nat {
    if reach == [] then 0
    else Eligible(reach[..|reach| - 1], d) + (if d < reach[|reach| - 1] then 1 else 0)
  }

  /** The value the greedy attains: at each depth, one more full bucket or every eligible block. */
  function Capacity(reach: seq<nat>, k: nat, h: nat, z: nat): nat
    requires k <= h
    decreases h - k
  {
    if k == h then 0
    else
      var below := Capacity(reach, k + 1, h, z) + z;
      if below <= Eligible(reach, k) then below else Eligible(reach, k)
  }

  ghost function EligibleSet(reach: seq<nat>, d: nat): set<nat> {
    set i: nat | i < |reach| && d < reach[i]
  }

  ghost function SelectedSet(selected: seq<bool>): set<nat> {
    set i: nat | i < |selected| && selected[i]
  }

  lemma {:induction false} EligibleCounts(reach: seq<nat>, d: nat)
    ensures |EligibleSet(reach, d)| == Eligible(reach, d)
  {
    if reach != [] {
      var n := |reach| - 1;
      EligibleCounts(reach[..n], d);
      var rest := EligibleSet(reach[..n], d);
      assert EligibleSet(reach, d) == if d < reach[n] then rest + {n} else rest;
    }
  }

  lemma SelectOne(selected: seq<bool>, i: nat)
    requires i < |selected| && !selected[i]
    ensures SelectedSet(selected[i := true]) == SelectedSet(selected) + {i}
    ensures |SelectedSet(selected[i := true])| == |SelectedSet(selected)| + 1
  {
    assert SelectedSet(selected[i := true]) == SelectedSet(selected) + {i};
  }

  lemma SubsetCard<T>(a: set<T>, b: set<T>)
    requires a <= b
    ensures |a| <= |b|
    ensures |a| == |b| ==> a == b
  {
    assert b == a + (b - a);
  }

  /** One bucket takes `z` blocks, or all eligible ones if fewer are left. */
  lemma {:induction false} BucketCount(reach: seq<nat>, selected: seq<bool>, d: nat, z: nat)
    requires |selected| == |reach|
    requires SelectedSet(selected) <= EligibleSet(reach, d)
    ensures var s := FillBucket(reach, selected, d, z).0;
            && SelectedSet(selected) <= SelectedSet(s) <= EligibleSet(reach, d)
            && |SelectedSet(s)| == if |SelectedSet(selected)| + z <= Eligible(reach, d)
                                   then |SelectedSet(selected)| + z else Eligible(reach, d)
  {
    hide FirstFit, Eligible, SelectedSet, EligibleSet;
    EligibleCounts(reach, d);
    SubsetCard(SelectedSet(selected), EligibleSet(reach, d));
    if z > 0 {
      BucketCount(reach, selected, d, z - 1);
      SlotCount(reach, FillBucket(reach, selected, d, z - 1).0, d);
    }
  }

  /** One slot selects one more eligible candidate, unless all are selected. */
  lemma SlotCount(reach: seq<nat>, s: seq<bool>, d: nat)
    requires |s| == |reach| && SelectedSet(s) <= EligibleSet(reach, d)
    ensures var i := FirstFit(reach, s, d, 0);
            && (i < |reach| ==>
                  && SelectedSet(s) <= SelectedSet(s[i := true]) <= EligibleSet(reach, d)
                  && |SelectedSet(s[i := true])| == |SelectedSet(s)| + 1 <= Eligible(reach, d))
            && (i == |reach| ==> |SelectedSet(s)| == Eligible(reach, d))
  {
    var i := FirstFit(reach, s, d, 0);
    hide FirstFit, Eligible;
    EligibleCounts(reach, d);
    if i < |reach| {
      SelectOne(s, i);
      SubsetCard(SelectedSet(s[i := true]), EligibleSet(reach, d));
    } else {
      assert SelectedSet(s) == EligibleSet(reach, d);
    }
  }

  /** After the depths from `k` down are filled, exactly `Capacity(k)` candidates are selected. */
  lemma {:induction false} GreedyCount(reach: seq<nat>, k: nat, h: nat, z: nat)
    requires k <= h
    ensures var s := FillFrom(reach, k, h, z).0;
            && |SelectedSet(s)| == Capacity(reach, k, h, z)
            && (k < h ==> SelectedSet(s) <= EligibleSet(reach, k))
    decreases h - k
  {
    var s := FillFrom(reach, k, h, z).0;
    if k == h {
      assert SelectedSet(s) == {};
    } else {
      GreedyCount(reach, k + 1, h, z);
      var s' := FillFrom(reach, k + 1, h, z).0;
      if k + 1 == h {
        assert SelectedSet(s') == {};
      }
      assert EligibleSet(reach, k + 1) <= EligibleSet(reach, k);
      BucketCount(reach, s', k, z);
    }
  }

  /** Candidates named by the slots of one bucket, with multiplicity. */
  ghost function Indices(slots: Slots): multiset<nat> {
    if slots == [] then multiset{}
    else
      var last := slots[|slots| - 1];
      Indices(slots[..|slots| - 1]) + (if last.Some? then multiset{last.value} else multiset{})
  }

  /** Candidates named by a list of buckets, with multiplicity. */
  ghost function PlacedIn(q: seq<Slots>): multiset<nat> {
    if q == [] then multiset{} else Indices(q[0]) + PlacedIn(q[1..])
  }

  /** Number of filled slots of one bucket, and of a list of buckets. */
  function Filled(slots: Slots): nat {
    if slots == [] then 0
    else Filled(slots[..|slots| - 1]) + (if slots[|slots| - 1].Some? then 1 else 0)
  }

  function FilledIn(q: seq<Slots>): nat {
    if q == [] then 0 else Filled(q[0]) + FilledIn(q[1..])
  }

  lemma {:induction false} FilledIsCard(slots: Slots)
    ensures |Indices(slots)| == Filled(slots)
  {
    if slots != [] {
      FilledIsCard(slots[..|slots| - 1]);
    }
  }

  lemma {:induction false} FilledInIsCard(q: seq<Slots>)
    ensures |PlacedIn(q)| == FilledIn(q)
  {
    if q != [] {
      FilledIsCard(q[0]);
      FilledInIsCard(q[1..]);
    }
  }

  /** A legal arrangement: no bucket over `z`, every block within its reach, no block twice. */
  ghost predicate ValidPlacement(reach: seq<nat>, q: seq<Slots>, h: nat, z: nat) {
    && |q| == h
    && (forall d :: 0 <= d < h ==> |q[d]| <= z)
    && (forall d, j :: 0 <= d < h && 0 <= j < |q[d]| && q[d][j].Some? ==>
          q[d][j].value < |reach| && d < reach[q[d][j].value])
    && (forall i {:trigger PlacedIn(q)[i]} :: PlacedIn(q)[i] <= 1)
  }

  lemma {:induction false} IndicesBound(slots: Slots)
    ensures |Indices(slots)| <= |slots|
    ensures forall i :: i in Indices(slots) ==> Some(i) in slots
  {
    if slots != [] {
      IndicesBound(slots[..|slots| - 1]);
    }
  }

  lemma {:induction false} PlacedSuffix(q: seq<Slots>, k: nat)
    requires k <= |q|
    ensures PlacedIn(q[k..]) <= PlacedIn(q)
  {
    if k > 0 {
      PlacedSuffix(q[1..], k - 1);
      assert q[1..][k - 1..] == q[k..];
    } else {
      assert q[k..] == q;
    }
  }

  lemma {:induction false} PlacedWitness(q: seq<Slots>, i: nat)
    requires i in PlacedIn(q)
    ensures exists d :: 0 <= d < |q| && Some(i) in q[d]
  {
    IndicesBound(q[0]);
    if i !in Indices(q[0]) {
      PlacedWitness(q[1..], i);
      var d :| 0 <= d < |q[1..]| && Some(i) in q[1..][d];
      assert Some(i) in q[d + 1];
    }
  }

  ghost function Bag(s: set<nat>): multiset<nat> {
    multiset(s)
  }

  lemma BagOfOneMore(s: set<nat>, i: nat)
    requires i !in s
    ensures Bag(s + {i}) == Bag(s) + multiset{i}
  {
  }

  lemma {:induction false} BagCard(s: set<nat>)
    ensures |Bag(s)| == |s|
    decreases |s|
  {
    if s == {} {
      assert Bag(s) == multiset{};
    } else {
      var i :| i in s;
      var rest := s - {i};
      BagCard(rest);
      BagOfOneMore(rest, i);
      assert rest + {i} == s;
    }
  }

  lemma SmallMultiset(m: multiset<nat>, s: set<nat>)
    requires forall i :: m[i] <= 1
    requires forall i :: i in m ==> i in s
    ensures |m| <= |s|
  {
    BagCard(s);
    var all := Bag(s);
    assert m <= all;
    assert all == m + (all - m);
  }

  /** No legal arrangement puts more blocks at depth `k` or deeper than `Capacity(k)`. */
  lemma {:induction false} PlacementBound(reach: seq<nat>, q: seq<Slots>, k: nat, h: nat, z: nat)
    requires ValidPlacement(reach, q, h, z) && k <= h
    ensures |PlacedIn(q[k..])| <= Capacity(reach, k, h, z)
    decreases h - k
  {
    if k < h {
      PlacementBound(reach, q, k + 1, h, z);
      assert q[k..][1..] == q[k + 1..];
      IndicesBound(q[k]);
      PlacedSuffix(q, k);
      forall i | i in PlacedIn(q[k..])
        ensures i in EligibleSet(reach, k)
      {
        PlacedWitness(q[k..], i);
        var d :| 0 <= d < |q[k..]| && Some(i) in q[k..][d];
        var j :| 0 <= j < |q[k + d]| && q[k + d][j] == Some(i);
      }
      EligibleCounts(reach, k);
      forall i
        ensures PlacedIn(q[k..])[i] <= 1
      {
        assert PlacedIn(q)[i] <= 1;
      }
      SmallMultiset(PlacedIn(q[k..]), EligibleSet(reach, k));
    }
  }

  lemma IndicesSnoc(slots: Slots, slot: Option<nat>)
    ensures Indices(slots + [slot]) == Indices(slots) + (if slot.Some? then multiset{slot.value} else multiset{})
  {
    assert (slots + [slot])[..|slots|] == slots;
  }

  lemma {:induction false} BucketIndices(reach: seq<nat>, selected: seq<bool>, d: nat, z: nat)
    requires |selected| == |reach|
    ensures var (s, slots) := FillBucket(reach, selected, d, z);
            Bag(SelectedSet(s)) == Bag(SelectedSet(selected)) + Indices(slots)
  {
    if z > 0 {
      BucketIndices(reach, selected, d, z - 1);
      var (s, slots) := FillBucket(reach, selected, d, z - 1);
      var i := FirstFit(reach, s, d, 0);
      if i < |reach| {
        IndicesSnoc(slots, Some(i));
        SelectOne(s, i);
        BagOfOneMore(SelectedSet(s), i);
      } else {
        IndicesSnoc(slots, None);
      }
    }
  }

  lemma {:induction false} BucketWithinReach(reach: seq<nat>, selected: seq<bool>, d: nat, z: nat)
    requires |selected| == |reach|
    ensures forall j :: 0 <= j < z && FillBucket(reach, selected, d, z).1[j].Some? ==>
              FillBucket(reach, selected, d, z).1[j].value < |reach| &&
              d < reach[FillBucket(reach, selected, d, z).1[j].value]
  {
    if z > 0 {
      BucketWithinReach(reach, selected, d, z - 1);
    }
  }

  /** The greedy result below any depth names exactly the candidates selected so far, once each. */
  lemma {:induction false} GreedyIndices(reach: seq<nat>, k: nat, h: nat, z: nat)
    requires k <= h
    ensures var (s, q) := FillFrom(reach, k, h, z);
            && PlacedIn(q) == Bag(SelectedSet(s))
            && forall d, j :: 0 <= d < |q| && 0 <= j < |q[d]| && q[d][j].Some? ==>
                 q[d][j].value < |reach| && k + d < reach[q[d][j].value]
    ensures forall d :: 0 <= d < h - k ==> |FillFrom(reach, k, h, z).1[d]| == z
    decreases h - k
  {
    var (s, q) := FillFrom(reach, k, h, z);
    if k == h {
      assert SelectedSet(s) == {};
    } else {
      GreedyIndices(reach, k + 1, h, z);
      var (s', deeper) := FillFrom(reach, k + 1, h, z);
      BucketIndices(reach, s', k, z);
      BucketWithinReach(reach, s', k, z);
      assert q[1..] == deeper;
      forall d, j | 0 <= d < |q| && 0 <= j < |q[d]| && q[d][j].Some?
        ensures q[d][j].value < |reach| && k + d < reach[q[d][j].value]
      {
        if d > 0 { assert q[d] == deeper[d - 1]; }
      }
    }
  }

  lemma {:induction false} GreedySuffix(reach: seq<nat>, k: nat, h: nat, z: nat)
    requires k <= h
    ensures Greedy(reach, h, z).1[k..] == FillFrom(reach, k, h, z).1
  {
    if k > 0 {
      GreedySuffix(reach, k - 1, h, z);
      assert Greedy(reach, h, z).1[k..] == Greedy(reach, h, z).1[k - 1..][1..];
    }
  }

  lemma GreedyIsValid(reach: seq<nat>, h: nat, z: nat)
    ensures ValidPlacement(reach, Greedy(reach, h, z).1, h, z)
  {
    GreedyIndices(reach, 0, h, z);
  }

  /** The greedy is optimal at every depth at once. */
  lemma GreedyOptimal(reach: seq<nat>, q: seq<Slots>, k: nat, h: nat, z: nat)
    requires ValidPlacement(reach, q, h, z) && k <= h
    ensures ValidPlacement(reach, Greedy(reach, h, z).1, h, z)
    ensures FilledIn(Greedy(reach, h, z).1[k..]) == Capacity(reach, k, h, z)
    ensures FilledIn(q[k..]) <= FilledIn(Greedy(reach, h, z).1[k..])
  {
    FilledInIsCard(q[k..]);
    FilledInIsCard(Greedy(reach, h, z).1[k..]);
    GreedyIsValid(reach, h, z);
    GreedySuffix(reach, k, h, z);
    GreedyIndices(reach, k, h, z);
    GreedyCount(reach, k, h, z);
    BagCard(SelectedSet(FillFrom(reach, k, h, z).0));
    PlacementBound(reach, q, k, h, z);
  }

  /** Bound offered by cutting the path at depth `j`: eligible there, plus the full buckets above. */
  function CutBound(reach: seq<nat>, k: nat, j: nat, h: nat, z: nat): nat
    requires k <= j <= h
  {
    (if j == h then 0 else Eligible(reach, j)) + z * (j - k)
  }

  /** Min-cut form of the greedy value: below every cut, and equal to one of them. */
  lemma {:induction false} CapacityIsMinimumCut(reach: seq<nat>, k: nat, h: nat, z: nat) returns (cut: nat)
    requires k <= h
    ensures forall j :: k <= j <= h ==> Capacity(reach, k, h, z) <= CutBound(reach, k, j, h, z)
    ensures k <= cut <= h && Capacity(reach, k, h, z) == CutBound(reach, k, cut, h, z)
    decreases h - k
  {
    if k == h {
      cut := h;
    } else {
      var deeper := CapacityIsMinimumCut(reach, k + 1, h, z);
      forall j | k <= j <= h
        ensures Capacity(reach, k, h, z) <= CutBound(reach, k, j, h, z)
      {
        if j > k { CutShift(reach, k, j, h, z); }
      }
      CutShift(reach, k, deeper, h, z);
      cut := if Capacity(reach, k + 1, h, z) + z <= Eligible(reach, k) then deeper else k;
    }
  }

  lemma CutShift(reach: seq<nat>, k: nat, j: nat, h: nat, z: nat)
    requires k < j <= h
    ensures CutBound(reach, k, j, h, z) == CutBound(reach, k + 1, j, h, z) + z
  {
    assert z * (j - k) == z * (j - k - 1) + z;
  }

  predicate AllFull(slots: Slots) {
    forall j :: 0 <= j < |slots| ==> slots[j].Some?
  }

  lemma {:induction false} BucketFullFor(reach: seq<nat>, selected: seq<bool>, d: nat, z: nat, i: nat)
    requires |selected| == |reach| && i < |reach| && d < reach[i]
    requires !FillBucket(reach, selected, d, z).0[i]
    ensures !selected[i]
    ensures AllFull(FillBucket(reach, selected, d, z).1)
  {
    if z > 0 {
      BucketFullFor(reach, selected, d, z - 1, i);
    }
  }

  /** A candidate the greedy leaves out finds every bucket within its reach full. */
  lemma {:induction false} LeftoverFindsFullBuckets(reach: seq<nat>, k: nat, h: nat, z: nat, i: nat)
    requires k <= h && i < |reach| && !FillFrom(reach, k, h, z).0[i]
    ensures forall d :: 0 <= d < h - k && k + d < reach[i] ==> AllFull(FillFrom(reach, k, h, z).1[d])
    decreases h - k
  {
    if k < h {
      var (s, q) := FillFrom(reach, k, h, z);
      var (s', deeper) := FillFrom(reach, k + 1, h, z);
      SelectionGrows(reach, s', k, z, i);
      LeftoverFindsFullBuckets(reach, k + 1, h, z, i);
      if k < reach[i] {
        BucketFullFor(reach, s', k, z, i);
      }
      forall d | 0 <= d < h - k && k + d < reach[i]
        ensures AllFull(q[d])
      {
        if d > 0 { assert q[d] == deeper[d - 1]; }
      }
    }
  }

  lemma {:induction false} SelectionGrows(reach: seq<nat>, selected: seq<bool>, d: nat, z: nat, i: nat)
    requires |selected| == |reach| && i < |reach|
    ensures selected[i] ==> FillBucket(reach, selected, d, z).0[i]
  {
    if z > 0 {
      SelectionGrows(reach, selected, d, z - 1, i);
    }
  }
}
