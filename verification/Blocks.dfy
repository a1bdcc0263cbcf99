/** Blocks, stash slots and bucket pages, and the multiset of real blocks they hold
    (src/block.rs; CircuitMetaSlot and CircuitPayloadBucket of src/circuit.rs). */
module Blocks {
  import opened Common

  /** One metadata slot. `id` and `leaf` mean something only when `occupied`. */
  datatype Slot = Slot(occupied: bool, id: nat, leaf: nat)

  /** One stash slot, or one bucket slot seen together with its payload. */
  datatype Block<V> = Block(occupied: bool, id: nat, leaf: nat, payload: V)

  const DUMMY_SLOT: Slot := Slot(false, U64_MAX, U32_MAX)

  function Dummy<V>(zero: V): Block<V> {
    Block(false, U64_MAX, U32_MAX, zero)
  }

  predicate Holds<V>(b: Block<V>, id: nat) {
    b.occupied && b.id == id
  }

  ghost function One<V>(b: Block<V>): multiset<Block<V>> {
    if b.occupied then multiset{b} else multiset{}
  }

  /** The real blocks of a list of slots, with multiplicity. */
  ghost function Real<V>(bs: seq<Block<V>>): multiset<Block<V>> {
    if bs == [] then multiset{} else One(bs[0]) + Real(bs[1..])
  }

  /** The real blocks of a list of buckets. */
  ghost function RealAll<V>(buckets: seq<seq<Block<V>>>): multiset<Block<V>> {
    if buckets == [] then multiset{} else Real(buckets[0]) + RealAll(buckets[1..])
  }

  /** Two sums hold the same members. Proofs that chain many exchanges keep it folded. */
  ghost predicate Balanced<T>(a: multiset<T>, b: multiset<T>, c: multiset<T>, d: multiset<T>) {
    a + b == c + d
  }

  /** How many of the slots are occupied. */
  function Occupied<V>(bs: seq<Block<V>>): nat {
    if bs == [] then 0 else (if bs[0].occupied then 1 else 0) + Occupied(bs[1..])
  }

  function OccupiedAll<V>(buckets: seq<seq<Block<V>>>): nat {
    if buckets == [] then 0 else Occupied(buckets[0]) + OccupiedAll(buckets[1..])
  }

  lemma {:induction false} OccupiedIsCard<V>(bs: seq<Block<V>>)
    ensures |Real(bs)| == Occupied(bs)
  {
    if bs != [] {
      OccupiedIsCard(bs[1..]);
    }
  }

  lemma {:induction false} OccupiedAllIsCard<V>(buckets: seq<seq<Block<V>>>)
    ensures |RealAll(buckets)| == OccupiedAll(buckets)
  {
    if buckets != [] {
      OccupiedIsCard(buckets[0]);
      OccupiedAllIsCard(buckets[1..]);
    }
  }

  lemma {:induction false} OccupiedSnoc<V>(bs: seq<Block<V>>, b: Block<V>)
    ensures Occupied(bs + [b]) == Occupied(bs) + (if b.occupied then 1 else 0)
  {
    if bs == [] {
      assert bs + [b] == [b];
    } else {
      OccupiedSnoc(bs[1..], b);
      assert (bs + [b])[1..] == bs[1..] + [b];
    }
  }

  lemma SumShift<T>(o: multiset<T>, x: multiset<T>, a: multiset<T>, y: multiset<T>, b: multiset<T>)
    requires x + a == y + b
    ensures (o + x) + a == (o + y) + b
  {
    assert (o + x) + a == o + (x + a);
    assert (o + y) + b == o + (y + b);
  }

  lemma SumAssoc<T>(a: multiset<T>, b: multiset<T>, c: multiset<T>)
    ensures (a + b) + c == a + (b + c)
  {
  }

  lemma RealCons<V>(b: Block<V>, rest: seq<Block<V>>)
    ensures Real([b] + rest) == One(b) + Real(rest)
  {
    assert ([b] + rest)[1..] == rest;
  }

  lemma RealConcatStep<V>(b: Block<V>, rest: seq<Block<V>>, more: seq<Block<V>>)
    requires Real(rest + more) == Real(rest) + Real(more)
    ensures Real([b] + rest + more) == Real([b] + rest) + Real(more)
  {
    hide Real, One;
    RealCons(b, rest);
    assert [b] + rest + more == [b] + (rest + more);
    RealCons(b, rest + more);
    SumAssoc(One(b), Real(rest), Real(more));
  }

  lemma RealConcatNil<V>(b: seq<Block<V>>)
    ensures Real([] + b) == Real([]) + Real(b)
  {
    assert [] + b == b;
  }

  lemma {:induction false} RealConcat<V>(a: seq<Block<V>>, b: seq<Block<V>>)
    ensures Real(a + b) == Real(a) + Real(b)
  {
    hide Real;
    if a == [] {
      RealConcatNil(b);
    } else {
      RealConcat(a[1..], b);
      RealConcatStep(a[0], a[1..], b);
      assert [a[0]] + a[1..] == a;
    }
  }

  lemma RealSnoc<V>(a: seq<Block<V>>, b: Block<V>)
    ensures Real(a + [b]) == Real(a) + One(b)
  {
    RealConcat(a, [b]);
    assert Real([b]) == One(b) + Real<V>([]);
  }

  lemma {:induction false} RealUpdate<V>(bs: seq<Block<V>>, i: nat, b: Block<V>)
    requires i < |bs|
    ensures Real(bs[i := b]) + One(bs[i]) == Real(bs) + One(b)
  {
    if i > 0 {
      RealUpdate(bs[1..], i - 1, b);
      assert bs[i := b][1..] == bs[1..][i - 1 := b];
      SumShift(One(bs[0]), Real(bs[1..][i - 1 := b]), One(bs[i]), Real(bs[1..]), One(b));
    } else {
      assert bs[i := b][1..] == bs[1..];
    }
  }

  lemma {:induction false} RealAllUpdate<V>(buckets: seq<seq<Block<V>>>, n: nat, bucket: seq<Block<V>>)
    requires n < |buckets|
    ensures RealAll(buckets[n := bucket]) + Real(buckets[n]) == RealAll(buckets) + Real(bucket)
  {
    if n > 0 {
      RealAllUpdate(buckets[1..], n - 1, bucket);
      assert buckets[n := bucket][1..] == buckets[1..][n - 1 := bucket];
      SumShift(Real(buckets[0]), RealAll(buckets[1..][n - 1 := bucket]), Real(buckets[n]),
               RealAll(buckets[1..]), Real(bucket));
    } else {
      assert buckets[n := bucket][1..] == buckets[1..];
    }
  }

  lemma {:induction false} RealMember<V>(bs: seq<Block<V>>, i: nat)
    requires i < |bs| && bs[i].occupied
    ensures bs[i] in Real(bs)
  {
    if i > 0 {
      RealMember(bs[1..], i - 1);
    }
  }

  lemma {:induction false} RealWitness<V>(bs: seq<Block<V>>, b: Block<V>) returns (i: nat)
    requires b in Real(bs)
    ensures i < |bs| && bs[i] == b && b.occupied
  {
    if b in One(bs[0]) {
      i := 0;
    } else {
      var k := RealWitness(bs[1..], b);
      i := k + 1;
    }
  }

  lemma {:induction false} RealAllMember<V>(buckets: seq<seq<Block<V>>>, n: nat, j: nat)
    requires n < |buckets| && j < |buckets[n]| && buckets[n][j].occupied
    ensures buckets[n][j] in RealAll(buckets)
  {
    if n > 0 {
      RealAllMember(buckets[1..], n - 1, j);
    } else {
      RealMember(buckets[0], j);
    }
  }

  lemma {:induction false} RealAllWitness<V>(buckets: seq<seq<Block<V>>>, b: Block<V>) returns (n: nat, j: nat)
    requires b in RealAll(buckets)
    ensures n < |buckets| && j < |buckets[n]| && buckets[n][j] == b && b.occupied
  {
    if b in Real(buckets[0]) {
      n := 0;
      j := RealWitness(buckets[0], b);
    } else {
      var m, k := RealAllWitness(buckets[1..], b);
      n, j := m + 1, k;
    }
  }

  /** Two slots holding the same real block account for two multiset members. */
  lemma RealPair<V>(bs: seq<Block<V>>, i: nat, j: nat)
    requires i < |bs| && j < |bs| && i != j && bs[i].occupied && bs[j] == bs[i]
    ensures Real(bs)[bs[i]] >= 2
  {
    var gone := Block(false, 0, 0, bs[i].payload);
    RealUpdate(bs, i, gone);
    RealMember(bs[i := gone], j);
    assert (Real(bs[i := gone]) + One(bs[i]))[bs[i]] == Real(bs[i := gone])[bs[i]] + 1;
    assert (Real(bs) + One(gone))[bs[i]] == Real(bs)[bs[i]];
  }

  lemma {:induction false} OccupancyBound<V>(bs: seq<Block<V>>)
    ensures |Real(bs)| <= |bs|
    ensures |Real(bs)| == |bs| <==> forall i :: 0 <= i < |bs| ==> bs[i].occupied
  {
    if bs != [] {
      OccupancyBound(bs[1..]);
      assert |Real(bs)| == |One(bs[0])| + |Real(bs[1..])|;
      if forall i :: 0 <= i < |bs[1..]| ==> bs[1..][i].occupied {
        assert bs[0].occupied ==> forall i :: 0 <= i < |bs| ==> bs[i].occupied by {
          forall i | 0 < i < |bs|
            ensures bs[i].occupied
          {
            assert bs[i] == bs[1..][i - 1];
          }
        }
      } else {
        var i :| 0 <= i < |bs[1..]| && !bs[1..][i].occupied;
        assert !bs[i + 1].occupied;
      }
    }
  }

  /** First unoccupied slot at or after `from`, or the length. */
  function FirstFree<V>(bs: seq<Block<V>>, from: nat): (i: nat)
    requires from <= |bs|
    ensures from <= i <= |bs|
    ensures i < |bs| ==> !bs[i].occupied
    ensures forall j :: from <= j < i ==> bs[j].occupied
    decreases |bs| - from
  {
    if from == |bs| || !bs[from].occupied then from else FirstFree(bs, from + 1)
  }

  /** Stores `b` in the first free slot; None when every slot is taken. */
  function InsertFree<V>(bs: seq<Block<V>>, b: Block<V>): (r: Option<seq<Block<V>>>)
    ensures r.Some? ==> |r.value| == |bs|
  {
    var i := FirstFree(bs, 0);
    if i < |bs| then Some(bs[i := b]) else None
  }

  lemma InsertFreeAddsOne<V>(bs: seq<Block<V>>, b: Block<V>)
    requires b.occupied
    ensures InsertFree(bs, b).Some? <==> |Real(bs)| < |bs|
    ensures InsertFree(bs, b).Some? ==> Real(InsertFree(bs, b).value) == Real(bs) + multiset{b}
  {
    OccupancyBound(bs);
    var i := FirstFree(bs, 0);
    if i < |bs| {
      RealUpdate(bs, i, b);
    }
  }

  /** Inserts the real blocks of `more` one by one, in order. */
  function InsertAll<V>(bs: seq<Block<V>>, more: seq<Block<V>>): (r: Option<seq<Block<V>>>)
    ensures r.Some? ==> |r.value| == |bs|
    decreases |more|
  {
    if more == [] then Some(bs)
    else
      match InsertAll(bs, more[..|more| - 1])
      case None => None
      case Some(s) => if more[|more| - 1].occupied then InsertFree(s, more[|more| - 1]) else Some(s)
  }

  /** `r` holds the blocks of `bs` and `more`; there is no room exactly when they are too many. */
  ghost predicate InsertsExactly<V>(bs: seq<Block<V>>, more: seq<Block<V>>, r: Option<seq<Block<V>>>) {
    && (r.Some? <==> |Real(bs)| + |Real(more)| <= |bs|)
    && (r.Some? ==> |r.value| == |bs| && Real(r.value) == Real(bs) + Real(more))
  }

  lemma InsertOneMore<V>(bs: seq<Block<V>>, more: seq<Block<V>>, b: Block<V>, prev: Option<seq<Block<V>>>)
    requires InsertsExactly(bs, more, prev)
    ensures var r := if prev.None? then None else if b.occupied then InsertFree(prev.value, b) else prev;
            InsertsExactly(bs, more + [b], r)
  {
    RealSnoc(more, b);
    if prev.Some? && b.occupied {
      InsertFreeAddsOne(prev.value, b);
      SumAssoc(Real(bs), Real(more), multiset{b});
    }
  }

  lemma NothingInserted<V>(bs: seq<Block<V>>)
    ensures InsertsExactly(bs, [], Some(bs))
  {
    OccupancyBound(bs);
  }

  lemma {:induction false} InsertAllAdds<V>(bs: seq<Block<V>>, more: seq<Block<V>>)
    ensures InsertsExactly(bs, more, InsertAll(bs, more))
    decreases |more|
  {
    hide InsertsExactly;
    if more == [] {
      NothingInserted(bs);
    } else {
      var n := |more| - 1;
      InsertAllAdds(bs, more[..n]);
      InsertOneMore(bs, more[..n], more[n], InsertAll(bs, more[..n]));
      assert more[..n] + [more[n]] == more;
    }
  }

  /** First slot at or after `from` holding `id`, or the length. */
  function FirstHolding<V>(bs: seq<Block<V>>, id: nat, from: nat): (i: nat)
    requires from <= |bs|
    ensures from <= i <= |bs|
    ensures i < |bs| ==> Holds(bs[i], id)
    ensures forall j :: from <= j < i ==> !Holds(bs[j], id)
    decreases |bs| - from
  {
    if from == |bs| || Holds(bs[from], id) then from else FirstHolding(bs, id, from + 1)
  }

  /** The page with its first block `id` cleared, and that block if there was one. */
  function TakeFromBucket<V>(bs: seq<Block<V>>, id: nat, zero: V): (r: (seq<Block<V>>, Option<Block<V>>))
    ensures |r.0| == |bs|
  {
    var i := FirstHolding(bs, id, 0);
    if i < |bs| then (bs[i := Dummy(zero)], Some(bs[i])) else (bs, None)
  }

  /** The same along a list of pages: the first block found is removed, later pages are left alone. */
  function TakeFromPath<V>(pages: seq<seq<Block<V>>>, id: nat, zero: V)
    : (r: (seq<seq<Block<V>>>, Option<Block<V>>))
    ensures |r.0| == |pages|
  {
    if pages == [] then ([], None)
    else
      var (page, taken) := TakeFromBucket(pages[0], id, zero);
      if taken.Some? then ([page] + pages[1..], taken)
      else
        var (rest, later) := TakeFromPath(pages[1..], id, zero);
        ([page] + rest, later)
  }

  ghost function Optional<V>(b: Option<Block<V>>): multiset<Block<V>> {
    if b.Some? then multiset{b.value} else multiset{}
  }

  lemma TakeFromBucketEffect<V>(bs: seq<Block<V>>, id: nat, zero: V)
    ensures var (after, taken) := TakeFromBucket(bs, id, zero);
            && Real(after) + Optional(taken) == Real(bs)
            && (taken.Some? ==> Holds(taken.value, id))
            && (taken.None? ==> forall j :: 0 <= j < |bs| ==> !Holds(bs[j], id))
            && forall j :: 0 <= j < |bs| ==> after[j] == bs[j] || after[j] == Dummy(zero)
  {
    var i := FirstHolding(bs, id, 0);
    if i < |bs| {
      RealUpdate(bs, i, Dummy(zero));
    }
  }

  /** Each page keeps its slots, except that some may have become dummies. */
  ghost predicate Thinned<V>(after: seq<seq<Block<V>>>, before: seq<seq<Block<V>>>, zero: V) {
    && |after| == |before|
    && forall d {:trigger after[d]} :: 0 <= d < |after| ==>
         && |after[d]| == |before[d]|
         && forall j :: 0 <= j < |after[d]| ==> after[d][j] == before[d][j] || after[d][j] == Dummy(zero)
  }

  /** Exchanges in the first page or in the others carry over to the list of pages. */
  lemma PageConsExchange<V>(page: seq<Block<V>>, before: seq<Block<V>>, rest: seq<seq<Block<V>>>,
                            oldRest: seq<seq<Block<V>>>, taken: multiset<Block<V>>)
    ensures Real(page) + taken == Real(before) ==> RealAll([page] + oldRest) + taken == RealAll([before] + oldRest)
    ensures Real(page) == Real(before) && RealAll(rest) + taken == RealAll(oldRest) ==>
              RealAll([page] + rest) + taken == RealAll([before] + oldRest)
  {
    hide Real;
    assert ([page] + oldRest)[1..] == oldRest && ([before] + oldRest)[1..] == oldRest && ([page] + rest)[1..] == rest;
  }

  lemma {:induction false} TakeFromPathEffect<V>(pages: seq<seq<Block<V>>>, id: nat, zero: V)
    ensures var (after, taken) := TakeFromPath(pages, id, zero);
            && RealAll(after) + Optional(taken) == RealAll(pages)
            && (taken.Some? ==> Holds(taken.value, id))
            && Thinned(after, pages, zero)
  {
    hide Real, RealAll, TakeFromBucket;
    if pages == [] {
      assert RealAll(pages) + Optional(None) == RealAll(pages);
    } else {
      TakeFromBucketEffect(pages[0], id, zero);
      var (page, taken) := TakeFromBucket(pages[0], id, zero);
      assert pages == [pages[0]] + pages[1..];
      if taken.Some? {
        PageConsExchange(page, pages[0], pages[1..], pages[1..], Optional(taken));
        ThinnedCons(page, pages[0], pages[1..], pages[1..], zero);
      } else {
        TakeFromPathEffect(pages[1..], id, zero);
        var (rest, later) := TakeFromPath(pages[1..], id, zero);
        PageConsExchange(page, pages[0], rest, pages[1..], Optional(later));
        ThinnedCons(page, pages[0], rest, pages[1..], zero);
      }
    }
  }

  lemma {:induction false} TakeFromPathMisses<V>(pages: seq<seq<Block<V>>>, id: nat, zero: V)
    requires TakeFromPath(pages, id, zero).1.None?
    ensures forall d, j :: 0 <= d < |pages| && 0 <= j < |pages[d]| ==> !Holds(pages[d][j], id)
  {
    if pages != [] {
      TakeFromBucketEffect(pages[0], id, zero);
      TakeFromPathMisses(pages[1..], id, zero);
      forall d, j | 0 <= d < |pages| && 0 <= j < |pages[d]|
        ensures !Holds(pages[d][j], id)
      {
        if d > 0 { assert pages[d] == pages[1..][d - 1]; }
      }
    }
  }

  lemma ThinnedCons<V>(page: seq<Block<V>>, before: seq<Block<V>>, rest: seq<seq<Block<V>>>,
                       oldRest: seq<seq<Block<V>>>, zero: V)
    requires |page| == |before| && forall j :: 0 <= j < |page| ==> page[j] == before[j] || page[j] == Dummy(zero)
    requires Thinned(rest, oldRest, zero)
    ensures Thinned([page] + rest, [before] + oldRest, zero)
  {
  }
}
