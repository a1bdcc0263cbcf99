/** Which paths of the tree the requests of a run touch, and why that says nothing about the ids, payloads
    or kinds of the accesses (src/circuit.rs, dummy_access, access, access_batch and drain_evictions). Every
    path touched belongs to a random draw used for no other, or to the eviction schedule. */
module AccessPattern {
  import opened Schedule

  /** Why a path is touched: its leaf is a draw reduced to a label, or it is next in the eviction schedule. */
  datatype Origin = OfDraw(index: nat) | OfSchedule(index: nat)

  /** A request taken apart: accesses of one id each, dummy accesses, and drains. */
  datatype Part = Real(id: nat) | Fake | Evictions(budget: nat)

  /** Which draw gave each id its label, the next draw, and the schedule counters. */
  datatype Book = Book(birth: seq<nat>, next: nat, sched: Counters)
  {
    /** Every label has a draw of its own, and it is a past one. */
    predicate Sound() {
      && (forall i :: 0 <= i < |birth| ==> birth[i] < next)
      && forall i, j :: 0 <= i < j < |birth| ==> birth[i] != birth[j]
    }

    function After(part: Part): Book {
      match part
      case Real(id) =>
        var k := this.(next := next + 1, sched := sched.(issued := sched.issued + 1));
        if id < |birth| then k.(birth := birth[id := next]) else k
      case Fake => this.(next := next + 1, sched := sched.(issued := sched.issued + 1))
      case Evictions(budget) =>
        var n := DrainedFrom(sched, budget);
        if n < 0 then this else this.(sched := sched.(completed := sched.completed + n))
    }

    /** Where the paths touched come from, in order. An id out of range is not served. */
    function Touches(part: Part): seq<Origin> {
      match part
      case Real(id) => [OfDraw(if id < |birth| then birth[id] else next)]
      case Fake => [OfDraw(next)]
      case Evictions(budget) =>
        var n := DrainedFrom(sched, budget);
        if n < 0 then [] else seq<Origin>(n, (i: int) requires 0 <= i < n => OfSchedule(sched.completed + i))
    }

    function AfterAll(parts: seq<Part>): Book {
      if parts == [] then this else AfterAll(parts[..|parts| - 1]).After(parts[|parts| - 1])
    }

    function AllTouches(parts: seq<Part>): seq<Origin> {
      if parts == [] then []
      else
        AllTouches(parts[..|parts| - 1]) + AfterAll(parts[..|parts| - 1]).Touches(parts[|parts| - 1])
    }
  }

  lemma {:induction false} Continued(k: Book, a: seq<Part>, b: seq<Part>)
    ensures k.AfterAll(a + b) == k.AfterAll(a).AfterAll(b)
    ensures k.AllTouches(a + b) == k.AllTouches(a) + k.AfterAll(a).AllTouches(b)
  {
    hide Book.After, Book.Touches;
    if b == [] {
      assert a + b == a;
    } else {
      var n := |b| - 1;
      assert (a + b)[..|a| + n] == a + b[..n] && (a + b)[|a| + n] == b[n];
      Continued(k, a, b[..n]);
    }
  }

  /** No two of the paths come from one draw. */
  ghost predicate Distinct(touches: seq<Origin>) {
    forall x, y :: 0 <= x < y < |touches| && touches[x].OfDraw? ==> touches[x] != touches[y]
  }

  /** All draws among the paths are past ones, and no label still in use is among them. */
  ghost predicate Spent(k: Book, touches: seq<Origin>) {
    forall x :: 0 <= x < |touches| && touches[x].OfDraw? ==> touches[x].index < k.next && touches[x].index !in k.birth
  }

  /** No draw is shown twice: an access shows the draw its id was last labelled with and forgets it, a dummy
      shows a fresh one. */
  lemma {:induction false} EachDrawOnce(k: Book, parts: seq<Part>)
    requires k.Sound()
    ensures k.AfterAll(parts).Sound() && |k.AfterAll(parts).birth| == |k.birth|
    ensures Distinct(k.AllTouches(parts)) && Spent(k.AfterAll(parts), k.AllTouches(parts))
  {
    if parts != [] {
      var n := |parts| - 1;
      EachDrawOnce(k, parts[..n]);
      OneMorePart(k.AfterAll(parts[..n]), k.AllTouches(parts[..n]), parts[n]);
    }
  }

  lemma OneMorePart(k: Book, before: seq<Origin>, part: Part)
    requires k.Sound() && Distinct(before) && Spent(k, before)
    ensures k.After(part).Sound() && |k.After(part).birth| == |k.birth|
    ensures Distinct(before + k.Touches(part)) && Spent(k.After(part), before + k.Touches(part))
  {
    var shown := k.Touches(part);
    if part.Evictions? {
      assert forall x :: 0 <= x < |shown| ==> shown[x].OfSchedule?;
    } else {
      assert |shown| == 1 && shown[0].OfDraw?;
      assert forall x :: 0 <= x < |before| && before[x].OfDraw? ==> before[x] != shown[0];
      var after := k.After(part);
      forall i | 0 <= i < |after.birth|
        ensures after.birth[i] != shown[0].index
      {
        if part.Real? && part.id < |k.birth| && i != part.id {
          assert k.birth[i] != k.birth[part.id];
        }
      }
    }
  }

  /** Requests that differ in the ids asked for, and in which accesses are dummies, but in nothing else. */
  predicate Alike(a: Part, b: Part) {
    if a.Evictions? || b.Evictions? then a == b else true
  }

  predicate AllAlike(a: seq<Part>, b: seq<Part>) {
    |a| == |b| && forall i :: 0 <= i < |a| ==> Alike(a[i], b[i])
  }

  /** The same paths up to which draw each comes from. */
  ghost predicate SameButDraws(a: seq<Origin>, b: seq<Origin>) {
    && |a| == |b|
    && forall x :: 0 <= x < |a| ==> (a[x].OfDraw? <==> b[x].OfDraw?) && (a[x].OfSchedule? ==> a[x] == b[x])
  }

  lemma {:induction false} AlikeTouches(k: Book, l: Book, a: seq<Part>, b: seq<Part>)
    requires AllAlike(a, b) && k.next == l.next && k.sched == l.sched
    ensures k.AfterAll(a).next == l.AfterAll(b).next && k.AfterAll(a).sched == l.AfterAll(b).sched
    ensures SameButDraws(k.AllTouches(a), l.AllTouches(b))
  {
    if a != [] {
      var n := |a| - 1;
      AlikeTouches(k, l, a[..n], b[..n]);
      assert Alike(a[n], b[n]);
    }
  }

  ghost predicate Hits(pi: seq<nat>, v: nat) {
    exists j :: 0 <= j < |pi| && pi[j] == v
  }

  /** A rearrangement of the first `n` draws. */
  ghost predicate Permutation(pi: seq<nat>, n: nat) {
    && |pi| == n
    && (forall j :: 0 <= j < n ==> pi[j] < n)
    && (forall i, j :: 0 <= i < j < n ==> pi[i] != pi[j])
    && forall v: nat :: v < n ==> Hits(pi, v)
  }

  /** The rearrangement turns the draws of `b` into those of `a`. */
  ghost predicate Renames(pi: seq<nat>, b: seq<Origin>, a: seq<Origin>) {
    && |a| == |b|
    && forall x :: 0 <= x < |a| && a[x].OfDraw? && b[x].OfDraw? ==> b[x].index < |pi| && pi[b[x].index] == a[x].index
  }

  lemma Swapped(pi: seq<nat>, n: nat, i: nat, j: nat)
    requires Permutation(pi, n) && i < n && j < n
    ensures Permutation(pi[i := pi[j]][j := pi[i]], n)
  {
    var q := pi[i := pi[j]][j := pi[i]];
    forall v: nat | v < n
      ensures Hits(q, v)
    {
      assert Hits(pi, v);
      var k :| 0 <= k < n && pi[k] == v;
      assert q[if k == i then j else if k == j then i else k] == v;
    }
  }

  /** Two lists in which every draw occurs once differ by a rearrangement of all draws. */
  lemma {:induction false} Rearranged(a: seq<Origin>, b: seq<Origin>, n: nat) returns (pi: seq<nat>)
    requires SameButDraws(a, b) && Distinct(a) && Distinct(b)
    requires forall x :: 0 <= x < |a| && a[x].OfDraw? ==> a[x].index < n && b[x].index < n
    ensures Permutation(pi, n) && Renames(pi, b, a)
    decreases |a|
  {
    if a == [] {
      pi := seq(n, i => i);
      forall v: nat | v < n
        ensures Hits(pi, v)
      {
        assert pi[v] == v;
      }
    } else {
      var m := |a| - 1;
      pi := Rearranged(a[..m], b[..m], n);
      if a[m].OfDraw? {
        var i, v := b[m].index, a[m].index;
        assert Hits(pi, v);
        var j :| 0 <= j < n && pi[j] == v;
        forall x | 0 <= x < m && a[x].OfDraw?
          ensures b[x].index != i && b[x].index != j
        {
          assert pi[b[..m][x].index] == a[..m][x].index;
          assert a[x] != a[m] && b[x] != b[m];
        }
        Swapped(pi, n, i, j);
        RenamesOn(pi, a, b, m, i, j);
        pi := pi[i := pi[j]][j := pi[i]];
      }
    }
  }

  lemma RenamesOn(pi: seq<nat>, a: seq<Origin>, b: seq<Origin>, m: nat, i: nat, j: nat)
    requires |a| == |b| == m + 1 && Renames(pi, b[..m], a[..m]) && i < |pi| && j < |pi|
    requires a[m].OfDraw? && b[m] == OfDraw(i) && pi[j] == a[m].index
    requires forall x :: 0 <= x < m && a[x].OfDraw? ==> b[x].OfDraw? && b[x].index != i && b[x].index != j
    ensures Renames(pi[i := pi[j]][j := pi[i]], b, a)
  {
    var q := pi[i := pi[j]][j := pi[i]];
    forall x | 0 <= x < |a| && a[x].OfDraw? && b[x].OfDraw?
      ensures b[x].index < |q| && q[b[x].index] == a[x].index
    {
      if x < m {
        assert a[..m][x] == a[x] && b[..m][x] == b[x];
      }
    }
  }

  /** Requests alike touch the same paths, up to a rearrangement of the draws, whichever draws the labels
      came from at the start. */
  lemma PatternsAgree(k: Book, l: Book, a: seq<Part>, b: seq<Part>) returns (pi: seq<nat>)
    requires k.Sound() && l.Sound() && k.next == l.next && k.sched == l.sched && AllAlike(a, b)
    ensures SameButDraws(k.AllTouches(a), l.AllTouches(b))
    ensures Permutation(pi, k.AfterAll(a).next) && Renames(pi, l.AllTouches(b), k.AllTouches(a))
  {
    AlikeTouches(k, l, a, b);
    EachDrawOnce(k, a);
    EachDrawOnce(l, b);
    pi := Rearranged(k.AllTouches(a), l.AllTouches(b), k.AfterAll(a).next);
  }
}
