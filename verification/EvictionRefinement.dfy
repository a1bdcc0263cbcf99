/** One eviction conserves every block, never grows the stash, never fails, and is optimal. */
module EvictionRefinement {
  import opened Common
  import opened Geometry
  import opened Blocks
  import opened EvictionPlan
  import opened PageStores
  import opened OramSpec

  /** A slot's reach counts exactly the depths of the eviction path that may hold its block. */
  lemma {:induction false} ReachFromMeaning(p: OramParams, evict: nat, leaf: nat, from: nat, d: nat)
    requires p.Valid() && evict < p.leaves && leaf < p.leaves && from <= d < p.Height()
    ensures d < ReachFrom(p, evict, leaf, from) <==>
            forall e :: from <= e <= d ==> p.NodeIndex(e, leaf) == p.NodeIndex(e, evict)
    decreases p.Height() - from
  {
    if from < d && p.NodeIndex(from, leaf) == p.NodeIndex(from, evict) {
      ReachFromMeaning(p, evict, leaf, from + 1, d);
    }
  }

  lemma ReachMeaning<V>(p: OramParams, evict: nat, b: Block<V>, d: nat)
    requires p.Valid() && evict < p.leaves && d < p.Height()
    ensures d < Reach(p, evict, b) <==>
            b.occupied && p.NodeIndex(d, b.leaf % p.leaves) == p.NodeIndex(d, evict)
  {
    var leaf := b.leaf % p.leaves;
    ReachFromMeaning(p, evict, leaf, 0, d);
    if p.NodeIndex(d, leaf) == p.NodeIndex(d, evict) {
      forall e | 0 <= e <= d
        ensures p.NodeIndex(e, leaf) == p.NodeIndex(e, evict)
      {
        PathNesting(p, e, d, leaf, evict);
      }
    }
  }

  /** For an in-range label the mask is the identity. */
  lemma ReachInRange<V>(p: OramParams, evict: nat, b: Block<V>, d: nat)
    requires p.Valid() && evict < p.leaves && d < p.Height() && b.leaf < p.leaves
    ensures d < Reach(p, evict, b) <==> b.occupied && p.NodeIndex(d, b.leaf) == p.NodeIndex(d, evict)
  {
    DivUnique(b.leaf, p.leaves, 0, b.leaf);
    ReachMeaning(p, evict, b, d);
  }

  lemma {:induction false} ConcatReal<V>(pages: Pages<V>)
    ensures Real(Concat(pages)) == RealAll(pages)
  {
    if pages != [] {
      ConcatReal(pages[1..]);
      RealConcat(pages[0], Concat(pages[1..]));
    }
  }

  /** The real blocks among the selected candidates. */
  ghost function Chosen<V>(cands: seq<Block<V>>, selected: seq<bool>): multiset<Block<V>>
    requires |selected| == |cands|
  {
    if cands == [] then multiset{}
    else (if selected[0] then One(cands[0]) else multiset{}) + Chosen(cands[1..], selected[1..])
  }

  lemma {:induction false} ChosenMore<V>(cands: seq<Block<V>>, selected: seq<bool>, i: nat)
    requires |selected| == |cands| && i < |cands| && !selected[i]
    ensures Chosen(cands, selected[i := true]) == Chosen(cands, selected) + One(cands[i])
  {
    if i > 0 {
      ChosenMore(cands[1..], selected[1..], i - 1);
      assert selected[i := true][1..] == selected[1..][i - 1 := true];
      SumAssoc(if selected[0] then One(cands[0]) else multiset{},
               Chosen(cands[1..], selected[1..]), One(cands[i]));
    } else {
      assert selected[i := true][1..] == selected[1..];
    }
  }

  lemma {:induction false} ChosenNone<V>(cands: seq<Block<V>>, selected: seq<bool>)
    requires |selected| == |cands| && forall i :: 0 <= i < |selected| ==> !selected[i]
    ensures Chosen(cands, selected) == multiset{}
  {
    if cands != [] {
      ChosenNone(cands[1..], selected[1..]);
    }
  }

  lemma {:induction false} ChosenSplit<V>(a: seq<Block<V>>, b: seq<Block<V>>, selected: seq<bool>)
    requires |selected| == |a| + |b|
    ensures Chosen(a + b, selected) == Chosen(a, selected[..|a|]) + Chosen(b, selected[|a|..])
  {
    if a == [] {
      assert a + b == b && selected[|a|..] == selected;
    } else {
      ChosenSplit(a[1..], b, selected[1..]);
      assert (a + b)[1..] == a[1..] + b;
      assert selected[1..][..|a| - 1] == selected[..|a|][1..];
      assert selected[1..][|a| - 1..] == selected[|a|..];
      SumAssoc(if selected[0] then One(a[0]) else multiset{},
               Chosen(a[1..], selected[..|a|][1..]), Chosen(b, selected[|a|..]));
    }
  }

  /** Kept and chosen slots partition the real blocks. */
  lemma {:induction false} KeepPartition<V>(bs: seq<Block<V>>, selected: seq<bool>, zero: V)
    requires |selected| == |bs|
    ensures Real(Keep(bs, selected, zero)) + Chosen(bs, selected) == Real(bs)
  {
    if bs != [] {
      KeepPartition(bs[1..], selected[1..], zero);
      KeepHead(bs, selected, zero);
      hide Keep;
      var k := Keep(bs, selected, zero);
      var head := if selected[0] then One(bs[0]) else multiset{};
      PairSum(One(k[0]), head, Real(k[1..]), Chosen(bs[1..], selected[1..]));
    }
  }

  lemma KeepHead<V>(bs: seq<Block<V>>, selected: seq<bool>, zero: V)
    requires bs != [] && |selected| == |bs|
    ensures var k := Keep(bs, selected, zero);
            && k[1..] == Keep(bs[1..], selected[1..], zero)
            && One(k[0]) + (if selected[0] then One(bs[0]) else multiset{}) == One(bs[0])
  {
  }

  lemma PairSum<T>(a: multiset<T>, b: multiset<T>, x: multiset<T>, y: multiset<T>)
    ensures (a + x) + (b + y) == (a + b) + (x + y)
  {
  }

  ghost predicate SlotsInRange(slots: Slots, n: nat) {
    forall j :: 0 <= j < |slots| && slots[j].Some? ==> slots[j].value < n
  }

  lemma BuildPageSnoc<V>(cands: seq<Block<V>>, slots: Slots, slot: Option<nat>, zero: V)
    requires SlotsInRange(slots, |cands|) && (slot.Some? ==> slot.value < |cands|)
    ensures SlotsInRange(slots + [slot], |cands|)
    ensures Real(BuildPage(cands, slots + [slot], zero)) ==
            Real(BuildPage(cands, slots, zero)) + One(if slot.Some? then cands[slot.value] else Dummy(zero))
  {
    var last := if slot.Some? then cands[slot.value] else Dummy(zero);
    assert BuildPage(cands, slots + [slot], zero) == BuildPage(cands, slots, zero) + [last];
    RealSnoc(BuildPage(cands, slots, zero), last);
  }

  /** The newly selected candidates are the blocks of the page. */
  ghost predicate Accounted<V>(cands: seq<Block<V>>, selected: seq<bool>, base: multiset<Block<V>>,
                               slots: Slots, zero: V)
  {
    && |selected| == |cands| && SlotsInRange(slots, |cands|)
    && Chosen(cands, selected) == base + Real(BuildPage(cands, slots, zero))
  }

  /** One more slot takes one more candidate, or none. */
  lemma BucketSlot<V>(cands: seq<Block<V>>, selected: seq<bool>, base: multiset<Block<V>>,
                      slots: Slots, slot: Option<nat>, zero: V)
    requires Accounted(cands, selected, base, slots, zero)
    requires slot.Some? ==> slot.value < |selected| && !selected[slot.value]
    ensures Accounted(cands, if slot.Some? then selected[slot.value := true] else selected,
                      base, slots + [slot], zero)
  {
    BuildPageSnoc(cands, slots, slot, zero);
    if slot.Some? {
      ChosenMore(cands, selected, slot.value);
      SumAssoc(base, Real(BuildPage(cands, slots, zero)), One(cands[slot.value]));
    }
  }

  lemma NothingAccounted<V>(cands: seq<Block<V>>, selected: seq<bool>, zero: V)
    requires |selected| == |cands|
    ensures Accounted(cands, selected, Chosen(cands, selected), [], zero)
  {
    assert Real(BuildPage(cands, [], zero)) == multiset{};
  }

  /** Filling one bucket turns newly selected candidates into the blocks of its page. */
  lemma {:induction false} BucketBlocks<V>(reach: seq<nat>, cands: seq<Block<V>>, selected: seq<bool>,
                                          d: nat, z: nat, zero: V)
    requires |selected| == |cands| == |reach|
    ensures var (s, slots) := FillBucket(reach, selected, d, z);
            Accounted(cands, s, Chosen(cands, selected), slots, zero)
    decreases z
  {
    hide Accounted, Chosen;
    if z == 0 {
      NothingAccounted(cands, selected, zero);
    } else {
      BucketBlocks(reach, cands, selected, d, z - 1, zero);
      var (s', slots') := FillBucket(reach, selected, d, z - 1);
      var i := FirstFit(reach, s', d, 0);
      BucketSlot(cands, s', Chosen(cands, selected), slots', if i < |reach| then Some(i) else None, zero);
    }
  }

  lemma FillInRange(reach: seq<nat>, k: nat, h: nat, z: nat)
    requires k <= h
    ensures InRange(FillFrom(reach, k, h, z).1, |reach|)
  {
    GreedyIndices(reach, k, h, z);
  }

  lemma ConsPages<V>(cands: seq<Block<V>>, slots: Slots, deeper: seq<Slots>, zero: V)
    requires SlotsInRange(slots, |cands|) && InRange(deeper, |cands|) && InRange([slots] + deeper, |cands|)
    ensures RealAll(BuildPages(cands, [slots] + deeper, zero)) ==
            Real(BuildPage(cands, slots, zero)) + RealAll(BuildPages(cands, deeper, zero))
  {
    var pages := BuildPages(cands, [slots] + deeper, zero);
    assert pages[1..] == BuildPages(cands, deeper, zero);
  }

  lemma GreedyStep<V>(c: Config<V>, evict: nat, cands: seq<Block<V>>, k: nat)
    requires c.params.leaves > 0 && k < c.params.Height()
    requires var (s', deeper) := FillFrom(Reaches(c.params, evict, cands), k + 1, c.params.Height(),
                                          c.params.bucketSize);
             InRange(deeper, |cands|) && RealAll(BuildPages(cands, deeper, c.zero)) == Chosen(cands, s')
    ensures var (s, q) := FillFrom(Reaches(c.params, evict, cands), k, c.params.Height(), c.params.bucketSize);
            InRange(q, |cands|) && RealAll(BuildPages(cands, q, c.zero)) == Chosen(cands, s)
  {
    var reach, h, z := Reaches(c.params, evict, cands), c.params.Height(), c.params.bucketSize;
    var (s', deeper) := FillFrom(reach, k + 1, h, z);
    var (s, slots) := FillBucket(reach, s', k, z);
    assert FillFrom(reach, k, h, z) == (s, [slots] + deeper);
    FillInRange(reach, k, h, z);
    BucketBlocks(reach, cands, s', k, z, c.zero);
    ConsPages(cands, slots, deeper, c.zero);
  }

  /** The pages rebuilt below any depth hold exactly the candidates selected so far. */
  lemma {:induction false} GreedyBlocks<V>(c: Config<V>, evict: nat, cands: seq<Block<V>>, k: nat)
    requires c.params.leaves > 0 && k <= c.params.Height()
    ensures var (s, q) := FillFrom(Reaches(c.params, evict, cands), k, c.params.Height(), c.params.bucketSize);
            && InRange(q, |cands|)
            && RealAll(BuildPages(cands, q, c.zero)) == Chosen(cands, s)
    decreases c.params.Height() - k
  {
    if k == c.params.Height() {
      ChosenNone(cands, FillFrom(Reaches(c.params, evict, cands), k, c.params.Height(), c.params.bucketSize).0);
    } else {
      GreedyBlocks(c, evict, cands, k + 1);
      GreedyStep(c, evict, cands, k);
    }
  }

  /** The plan and its inputs, as `EvictPath` computes them. */
  ghost function Candidates<V>(stash: seq<Block<V>>, pages: Pages<V>): seq<Block<V>> {
    stash + Concat(pages)
  }

  /** An eviction moves blocks between stash and path; none appears, disappears or changes. */
  lemma EvictConserves<V>(c: Config<V>, stash: seq<Block<V>>, pages: Pages<V>, evict: nat)
    requires c.params.leaves > 0
    requires EvictPath(c, stash, pages, evict).Ok?
    ensures var (stash', pages') := EvictPath(c, stash, pages, evict).value;
            Real(stash') + RealAll(pages') == Real(stash) + RealAll(pages)
  {
    var cands := Candidates(stash, pages);
    var (selected, q) := Greedy(Reaches(c.params, evict, cands), c.params.Height(), c.params.bucketSize);
    GreedyBlocks(c, evict, cands, 0);
    var cleared := Keep(stash, selected[..|stash|], c.zero);
    var leftover := Keep(Concat(pages), selected[|stash|..], c.zero);
    InsertAllAdds(cleared, leftover);
    KeepPartition(stash, selected[..|stash|], c.zero);
    KeepPartition(Concat(pages), selected[|stash|..], c.zero);
    ChosenSplit(stash, Concat(pages), selected);
    ConcatReal(pages);
    PairSum(Real(cleared), Chosen(stash, selected[..|stash|]),
            Real(leftover), Chosen(Concat(pages), selected[|stash|..]));
  }

  /** The arrangement the path already has, as placement slots over candidates from `base` on. */
  ghost function ArrangePage<V>(page: seq<Block<V>>, base: nat): (slots: Slots)
    ensures |slots| == |page|
    ensures forall j :: 0 <= j < |page| ==> slots[j] == if page[j].occupied then Some(base + j) else None
  {
    seq(|page|, j requires 0 <= j < |page| => if page[j].occupied then Some(base + j) else None)
  }

  ghost function Arrange<V>(pages: Pages<V>, base: nat): (q: seq<Slots>)
    ensures |q| == |pages|
    ensures forall d :: 0 <= d < |q| ==> |q[d]| == |pages[d]|
  {
    if pages == [] then []
    else
      var rest := Arrange(pages[1..], base + |pages[0]|);
      assert forall d :: 0 < d < |pages| ==> pages[d] == pages[1..][d - 1];
      [ArrangePage(pages[0], base)] + rest
  }

  lemma ArrangePageSnoc<V>(page: seq<Block<V>>, last: Block<V>, base: nat)
    ensures Indices(ArrangePage(page + [last], base)) ==
            Indices(ArrangePage(page, base)) + (if last.occupied then multiset{base + |page|} else multiset{})
  {
    var slot := if last.occupied then Some(base + |page|) else None;
    IndicesSnoc(ArrangePage(page, base), slot);
    assert ArrangePage(page + [last], base) == ArrangePage(page, base) + [slot];
  }

  /** Multiplicities at most one, all within a range. */
  ghost predicate Distinct(m: multiset<nat>, lo: nat, hi: nat) {
    forall i {:trigger m[i]} :: m[i] <= if lo <= i < hi then 1 else 0
  }

  lemma {:induction false} ArrangePageIndices<V>(page: seq<Block<V>>, base: nat)
    ensures Distinct(Indices(ArrangePage(page, base)), base, base + |page|)
    decreases |page|
  {
    if page != [] {
      var n := |page| - 1;
      ArrangePageIndices(page[..n], base);
      ArrangePageSnoc(page[..n], page[n], base);
      assert page == page[..n] + [page[n]];
    }
  }

  lemma DistinctSum(a: multiset<nat>, b: multiset<nat>, lo: nat, mid: nat, hi: nat)
    requires lo <= mid <= hi && Distinct(a, lo, mid) && Distinct(b, mid, hi)
    ensures Distinct(a + b, lo, hi)
  {
  }

  lemma ArrangeCons<V>(pages: Pages<V>, base: nat)
    requires pages != []
    ensures PlacedIn(Arrange(pages, base)) ==
            Indices(ArrangePage(pages[0], base)) + PlacedIn(Arrange(pages[1..], base + |pages[0]|))
  {
    assert Arrange(pages, base)[1..] == Arrange(pages[1..], base + |pages[0]|);
  }

  lemma {:induction false} ArrangePageCount<V>(page: seq<Block<V>>, base: nat)
    ensures Filled(ArrangePage(page, base)) == Occupied(page)
    decreases |page|
  {
    if page != [] {
      var n := |page| - 1;
      var slots := ArrangePage(page, base);
      ArrangePageCount(page[..n], base);
      assert slots[..n] == ArrangePage(page[..n], base);
      OccupiedSnoc(page[..n], page[n]);
      assert page == page[..n] + [page[n]];
    }
  }

  lemma {:induction false} ArrangeCount<V>(pages: Pages<V>, base: nat)
    ensures FilledIn(Arrange(pages, base)) == OccupiedAll(pages)
  {
    if pages != [] {
      ArrangeCount(pages[1..], base + |pages[0]|);
      ArrangePageCount(pages[0], base);
      assert Arrange(pages, base)[1..] == Arrange(pages[1..], base + |pages[0]|);
    }
  }

  lemma {:induction false} ArrangeIndices<V>(pages: Pages<V>, base: nat)
    ensures Distinct(PlacedIn(Arrange(pages, base)), base, base + |Concat(pages)|)
  {
    if pages != [] {
      var next, hi := base + |pages[0]|, base + |Concat(pages)|;
      assert hi == next + |Concat(pages[1..])|;
      ArrangeIndices(pages[1..], next);
      ArrangePageIndices(pages[0], base);
      ArrangeCons(pages, base);
      DistinctSum(Indices(ArrangePage(pages[0], base)), PlacedIn(Arrange(pages[1..], next)), base, next, hi);
    }
  }

  lemma {:induction false} ArrangeEntry<V>(pages: Pages<V>, base: nat, d: nat, j: nat)
    requires d < |pages| && j < |pages[d]| && Arrange(pages, base)[d][j].Some?
    ensures var i := Arrange(pages, base)[d][j].value;
            && base <= i < base + |Concat(pages)|
            && Concat(pages)[i - base] == pages[d][j]
    ensures pages[d][j].occupied
  {
    hide Arrange, ArrangePage, Concat;
    ArrangeSplit(pages, base, d);
    if d > 0 {
      var next := base + |pages[0]|;
      ArrangeEntry(pages[1..], next, d - 1, j);
      var i := Arrange(pages, base)[d][j].value;
      ConcatEntry(pages, i - next);
      assert |pages[0]| + (i - next) == i - base;
    } else {
      ConcatFirst(pages, j);
    }
  }

  lemma ArrangeSplit<V>(pages: Pages<V>, base: nat, d: nat)
    requires d < |pages|
    ensures d > 0 ==>
              Arrange(pages, base)[d] == Arrange(pages[1..], base + |pages[0]|)[d - 1] && pages[d] == pages[1..][d - 1]
    ensures d == 0 ==> forall j :: 0 <= j < |pages[0]| ==>
              Arrange(pages, base)[0][j] == if pages[0][j].occupied then Some(base + j) else None
  {
  }

  lemma ConcatEntry<T>(lists: seq<seq<T>>, i: nat)
    requires lists != [] && i < |Concat(lists[1..])|
    ensures |Concat(lists)| == |lists[0]| + |Concat(lists[1..])|
    ensures Concat(lists)[|lists[0]| + i] == Concat(lists[1..])[i]
  {
  }

  lemma ConcatFirst<T>(lists: seq<seq<T>>, j: nat)
    requires lists != [] && j < |lists[0]|
    ensures j < |Concat(lists)| && Concat(lists)[j] == lists[0][j]
  {
  }

  /** Every real block of the pages sits within its reach. */
  ghost predicate PathPlaced<V>(p: OramParams, evict: nat, pages: Pages<V>)
    requires p.leaves > 0
  {
    && |pages| == p.Height()
    && (forall d {:trigger pages[d]} :: 0 <= d < |pages| ==> |pages[d]| == p.bucketSize)
    && forall d, j {:trigger pages[d][j]} :: 0 <= d < |pages| && 0 <= j < |pages[d]| && pages[d][j].occupied ==>
         d < Reach(p, evict, pages[d][j])
  }

  lemma ArrangedSlotFits<V>(c: Config<V>, stash: seq<Block<V>>, pages: Pages<V>, evict: nat, d: nat, j: nat)
    requires c.params.leaves > 0 && PathPlaced(c.params, evict, pages)
    requires d < |pages| && j < |pages[d]| && Arrange(pages, |stash|)[d][j].Some?
    ensures var i := Arrange(pages, |stash|)[d][j].value;
            && i < |stash| + |Concat(pages)|
            && d < Reach(c.params, evict, Candidates(stash, pages)[i])
  {
    hide Reach;
    ArrangeEntry(pages, |stash|, d, j);
    var i := Arrange(pages, |stash|)[d][j].value;
    assert Candidates(stash, pages)[i] == pages[d][j];
  }

  lemma ArrangementIsValid<V>(c: Config<V>, stash: seq<Block<V>>, pages: Pages<V>, evict: nat)
    requires c.params.leaves > 0 && PathPlaced(c.params, evict, pages)
    ensures ValidPlacement(Reaches(c.params, evict, Candidates(stash, pages)),
                           Arrange(pages, |stash|), c.params.Height(), c.params.bucketSize)
  {
    var reach := Reaches(c.params, evict, Candidates(stash, pages));
    var q: seq<Slots> := Arrange(pages, |stash|);
    ArrangeIndices(pages, |stash|);
    forall d, j | 0 <= d < |q| && 0 <= j < |q[d]| && q[d][j].Some?
      ensures q[d][j].value < |reach| && d < reach[q[d][j].value]
    {
      ArrangedSlotFits(c, stash, pages, evict, d, j);
    }
    forall i
      ensures PlacedIn(q)[i] <= 1
    {
    }
  }

  lemma {:induction false} BuildPageCount<V>(cands: seq<Block<V>>, slots: Slots, zero: V)
    requires forall j :: 0 <= j < |slots| && slots[j].Some? ==>
               slots[j].value < |cands| && cands[slots[j].value].occupied
    ensures Occupied(BuildPage(cands, slots, zero)) == Filled(slots)
  {
    if slots != [] {
      var n := |slots| - 1;
      BuildPageCount(cands, slots[..n], zero);
      var page := BuildPage(cands, slots, zero);
      assert page == BuildPage(cands, slots[..n], zero) + [page[n]];
      OccupiedSnoc(BuildPage(cands, slots[..n], zero), page[n]);
    }
  }

  lemma {:induction false} BuildPagesCount<V>(cands: seq<Block<V>>, q: seq<Slots>, zero: V)
    requires InRange(q, |cands|)
    requires forall d, j :: 0 <= d < |q| && 0 <= j < |q[d]| && q[d][j].Some? ==> cands[q[d][j].value].occupied
    ensures OccupiedAll(BuildPages(cands, q, zero)) == FilledIn(q)
  {
    if q != [] {
      assert forall d :: 0 <= d < |q[1..]| ==> q[1..][d] == q[d + 1];
      assert InRange(q[1..], |cands|);
      BuildPagesCount(cands, q[1..], zero);
      BuildPageCount(cands, q[0], zero);
      assert BuildPages(cands, q, zero)[1..] == BuildPages(cands, q[1..], zero);
    }
  }

  /** Optimality of an eviction: at every depth `k`, the pages from `k` down receive as many blocks
      as any legal arrangement of the same candidates could put there. */
  lemma EvictIsOptimal<V>(c: Config<V>, stash: seq<Block<V>>, pages: Pages<V>, evict: nat,
                          q: seq<Slots>, k: nat)
    requires c.params.leaves > 0 && k <= c.params.Height()
    requires EvictPath(c, stash, pages, evict).Ok?
    requires ValidPlacement(Reaches(c.params, evict, Candidates(stash, pages)), q,
                            c.params.Height(), c.params.bucketSize)
    ensures var after := EvictPath(c, stash, pages, evict).value.1;
            && OccupiedAll(after[k..]) ==
                 Capacity(Reaches(c.params, evict, Candidates(stash, pages)), k, c.params.Height(), c.params.bucketSize)
            && FilledIn(q[k..]) <= OccupiedAll(after[k..])
  {
    var cands := Candidates(stash, pages);
    var reach, h, z := Reaches(c.params, evict, cands), c.params.Height(), c.params.bucketSize;
    var g := Greedy(reach, h, z).1;
    GreedyOptimal(reach, q, k, h, z);
    GreedyInRange(reach, h, z);
    GreedyDepthCount(c, evict, cands, k);
    assert EvictPath(c, stash, pages, evict).value.1 == BuildPages(cands, g, c.zero);
  }

  lemma GreedyDepthCount<V>(c: Config<V>, evict: nat, cands: seq<Block<V>>, k: nat)
    requires c.params.leaves > 0 && k <= c.params.Height()
    ensures var q := Greedy(Reaches(c.params, evict, cands), c.params.Height(), c.params.bucketSize).1;
            && InRange(q, |cands|)
            && OccupiedAll(BuildPages(cands, q, c.zero)[k..]) == FilledIn(q[k..])
  {
    var reach, h, z := Reaches(c.params, evict, cands), c.params.Height(), c.params.bucketSize;
    var q := Greedy(reach, h, z).1;
    GreedyInRange(reach, h, z);
    GreedyIndices(reach, k, h, z);
    GreedySuffix(reach, k, h, z);
    BuildPagesCount(cands, q[k..], c.zero);
    assert BuildPages(cands, q, c.zero)[k..] == BuildPages(cands, q[k..], c.zero);
  }

  /** From placed pages the eviction always succeeds and the stash does not grow: at most as many
      path blocks stay unselected as stash blocks were selected. */
  lemma EvictNeverGrowsStash<V>(c: Config<V>, stash: seq<Block<V>>, pages: Pages<V>, evict: nat)
    requires c.params.leaves > 0 && PathPlaced(c.params, evict, pages)
    ensures EvictPath(c, stash, pages, evict).Ok?
    ensures |Real(EvictPath(c, stash, pages, evict).value.0)| <= |Real(stash)|
  {
    var cands := Candidates(stash, pages);
    var reach, h, z := Reaches(c.params, evict, cands), c.params.Height(), c.params.bucketSize;
    var (selected, q) := Greedy(reach, h, z);
    var own := Arrange(pages, |stash|);
    ArrangementIsValid(c, stash, pages, evict);
    GreedyOptimal(reach, own, 0, h, z);
    ArrangeCount(pages, |stash|);
    GreedyDepthCount(c, evict, cands, 0);
    assert own[0..] == own && q[0..] == q;
    GreedyBlocks(c, evict, cands, 0);
    assert BuildPages(cands, q, c.zero)[0..] == BuildPages(cands, q, c.zero);
    OccupiedAllIsCard(pages);
    OccupiedAllIsCard(BuildPages(cands, q, c.zero));
    assert |RealAll(pages)| <= |Chosen(cands, selected)|;
    LeftoversFit(c, stash, pages, selected);
  }

  lemma LeftoversFit<V>(c: Config<V>, stash: seq<Block<V>>, pages: Pages<V>, selected: seq<bool>)
    requires |selected| == |stash| + |Concat(pages)|
    requires |RealAll(pages)| <= |Chosen(Candidates(stash, pages), selected)|
    ensures var kept := InsertAll(Keep(stash, selected[..|stash|], c.zero),
                                  Keep(Concat(pages), selected[|stash|..], c.zero));
            kept.Some? && |Real(kept.value)| <= |Real(stash)|
  {
    var cleared := Keep(stash, selected[..|stash|], c.zero);
    var leftover := Keep(Concat(pages), selected[|stash|..], c.zero);
    InsertAllAdds(cleared, leftover);
    KeepPartition(stash, selected[..|stash|], c.zero);
    KeepPartition(Concat(pages), selected[|stash|..], c.zero);
    ChosenSplit(stash, Concat(pages), selected);
    ConcatReal(pages);
    OccupancyBound(stash);
    assert |Real(cleared)| + |Chosen(stash, selected[..|stash|])| == |Real(stash)|;
    assert |Real(leftover)| + |Chosen(Concat(pages), selected[|stash|..])| == |RealAll(pages)|;
  }

  lemma {:induction false} KeptMember<V>(bs: seq<Block<V>>, selected: seq<bool>, zero: V, b: Block<V>)
    requires |selected| == |bs| && b in Real(Keep(bs, selected, zero))
    ensures b.occupied && exists i :: 0 <= i < |bs| && bs[i] == b && !selected[i]
  {
    var kept := Keep(bs, selected, zero);
    if b in One(kept[0]) {
      assert bs[0] == b && !selected[0];
    } else {
      assert kept[1..] == Keep(bs[1..], selected[1..], zero);
      KeptMember(bs[1..], selected[1..], zero, b);
      var i :| 0 <= i < |bs[1..]| && bs[1..][i] == b && !selected[1..][i];
      assert bs[i + 1] == b && !selected[i + 1];
    }
  }

  /** A block still in the stash after an eviction was a candidate the plan did not select. */
  lemma StashBlockUnselected<V>(c: Config<V>, stash: seq<Block<V>>, pages: Pages<V>, evict: nat, b: Block<V>)
    requires c.params.leaves > 0 && EvictPath(c, stash, pages, evict).Ok?
    requires b in Real(EvictPath(c, stash, pages, evict).value.0)
    ensures var cands := Candidates(stash, pages);
            var selected := Greedy(Reaches(c.params, evict, cands), c.params.Height(), c.params.bucketSize).0;
            exists i :: 0 <= i < |cands| && cands[i] == b && !selected[i]
  {
    var cands := Candidates(stash, pages);
    var selected := Greedy(Reaches(c.params, evict, cands), c.params.Height(), c.params.bucketSize).0;
    hide Keep, Greedy, Reaches, InsertAll, Real, Concat;
    InsertAllAdds(Keep(stash, selected[..|stash|], c.zero), Keep(Concat(pages), selected[|stash|..], c.zero));
    KeptAnywhere(stash, Concat(pages), selected, c.zero, b);
  }

  lemma KeptAnywhere<V>(a: seq<Block<V>>, rest: seq<Block<V>>, selected: seq<bool>, zero: V, b: Block<V>)
    requires |selected| == |a| + |rest|
    requires b in Real(Keep(a, selected[..|a|], zero)) + Real(Keep(rest, selected[|a|..], zero))
    ensures exists i :: 0 <= i < |a + rest| && (a + rest)[i] == b && !selected[i]
  {
    hide Keep, Real;
    var n := |a|;
    if b in Real(Keep(a, selected[..n], zero)) {
      KeptMember(a, selected[..n], zero, b);
      var i :| 0 <= i < n && a[i] == b && !selected[..n][i];
      assert (a + rest)[i] == b;
    } else {
      KeptMember(rest, selected[n..], zero, b);
      var i :| 0 <= i < |rest| && rest[i] == b && !selected[n..][i];
      assert (a + rest)[n + i] == b && selected[n..][i] == selected[n + i];
    }
  }

  /** A block that stays in the stash finds every bucket it may enter on the path full. */
  lemma StashBlockFindsFullBuckets<V>(c: Config<V>, stash: seq<Block<V>>, pages: Pages<V>, evict: nat, b: Block<V>,
                                      d: nat)
    requires c.params.leaves > 0 && EvictPath(c, stash, pages, evict).Ok?
    requires b in Real(EvictPath(c, stash, pages, evict).value.0) && d < Reach(c.params, evict, b)
    ensures var page := EvictPath(c, stash, pages, evict).value.1[d];
            |page| == c.params.bucketSize && forall j :: 0 <= j < |page| ==> page[j].occupied
  {
    var cands := Candidates(stash, pages);
    var reach, h, z := Reaches(c.params, evict, cands), c.params.Height(), c.params.bucketSize;
    StashBlockUnselected(c, stash, pages, evict, b);
    var (selected, q) := Greedy(reach, h, z);
    var i :| 0 <= i < |cands| && cands[i] == b && !selected[i];
    LeftoverFindsFullBuckets(reach, 0, h, z, i);
    GreedyIndices(reach, 0, h, z);
    assert reach[i] == Reach(c.params, evict, b);
    var page := EvictPath(c, stash, pages, evict).value.1[d];
    hide Reach, Greedy;
    forall j | 0 <= j < |page|
      ensures page[j].occupied
    {
      assert q[d][j].Some? && d < reach[q[d][j].value];
      OccupiedReaches(c.params, evict, cands[q[d][j].value]);
    }
  }

  lemma OccupiedReaches<V>(p: OramParams, evict: nat, b: Block<V>)
    requires p.leaves > 0 && 0 < Reach(p, evict, b)
    ensures b.occupied
  {
  }
}
