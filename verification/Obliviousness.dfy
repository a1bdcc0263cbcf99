/** What the stores get to see of a run, from the build on: the same, up to a rearrangement of the random
    draws, for all requests of one shape (src/circuit.rs, build_trusted_from_source, dummy_access, access,
    access_batch and drain_evictions). */
module Obliviousness {
  import opened Geometry
  import opened Schedule
  import opened OramSpec
  import Spec = OramSpec
  import opened BatchSteps
  import opened OramRuns
  import opened OramBuild
  import opened BuildLimits
  import opened RequestedPaths
  import opened AccessPattern

  function RealParts(ids: seq<nat>, k: nat): (parts: seq<Part>)
    requires k <= |ids|
    ensures |parts| == k && forall i :: 0 <= i < k ==> parts[i] == Real(ids[i])
  {
    seq(k, (i: int) requires 0 <= i < k => Real(ids[i]))
  }

  function FakeParts(k: nat): (parts: seq<Part>)
    ensures |parts| == k && forall i :: 0 <= i < k ==> parts[i] == Fake
  {
    seq(k, i => Fake)
  }

  function Parts<V>(op: Op<V>): seq<Part> {
    match op
    case Single(id, _) => [Real(id)]
    case Batch(ids, _) => RealParts(ids, |ids|)
    case Dummy => [Fake]
    case DummyBatch(count) => FakeParts(count)
    case DrainBudget(budget) => [Evictions(budget)]
  }

  function RunParts<V>(ops: seq<Op<V>>): seq<Part> {
    if ops == [] then [] else Parts(ops[0]) + RunParts(ops[1..])
  }

  /** The book tells which draw gave every id the label it has. */
  ghost predicate Booked<V>(c: Config<V>, s: State<V>, k: Book) {
    && c.params.leaves > 0
    && k.Sound() && |k.birth| == |s.pos| && k.next == s.rng && k.sched == s.sched
    && forall i :: 0 <= i < |s.pos| ==> Residue(c.draws(k.birth[i]), s.pos[i], c.params.leaves)
  }

  function LeafOf<V>(c: Config<V>, touch: Origin): nat
    requires c.params.leaves > 0 && 0 < c.params.LeafBits() <= 32
  {
    match touch
    case OfDraw(index) => RandomLeaf(c, index)
    case OfSchedule(index) => EvictionLeafAt(c.params, index)
  }

  function LeavesOf<V>(c: Config<V>, touches: seq<Origin>): (leaves: seq<nat>)
    requires c.params.leaves > 0 && 0 < c.params.LeafBits() <= 32
    ensures |leaves| == |touches| && forall x :: 0 <= x < |touches| ==> leaves[x] == LeafOf(c, touches[x])
  {
    seq<nat>(|touches|, (x: int) requires 0 <= x < |touches| => LeafOf(c, touches[x]))
  }

  lemma LeavesJoin<V>(c: Config<V>, a: seq<Origin>, b: seq<Origin>)
    requires c.params.leaves > 0 && 0 < c.params.LeafBits() <= 32
    ensures LeavesOf(c, a + b) == LeavesOf(c, a) + LeavesOf(c, b)
  {
    hide LeafOf;
  }

  /** The label an id has is its draw, reduced. */
  lemma LabelIsDraw<V>(c: Config<V>, s: State<V>, k: Book, id: nat)
    requires Booked(c, s, k) && id < |s.pos|
    ensures s.pos[id] == RandomLeaf(c, k.birth[id])
  {
    ResidueUnique(c.draws(k.birth[id]), s.pos[id], RandomLeaf(c, k.birth[id]), c.params.leaves);
  }

  lemma AccessBooked<V>(c: Config<V>, s: State<V>, k: Book, id: nat, f: V -> V)
    requires WellFormed(c, s) && Booked(c, s, k) && Spec.Access(c, s, id, f).Ok?
    ensures 0 < c.params.LeafBits() <= 32 && id < |s.pos|
    ensures [s.pos[id]] == LeavesOf(c, k.Touches(Real(id)))
    ensures Booked(c, Spec.Access(c, s, id, f).value.1, k.After(Real(id)))
  {
    hide Spec.Access, Residue;
    AccessRelabels(c, s, id, f);
    LabelIsDraw(c, s, k, id);
    LeafBitsFit(c.params);
  }

  lemma {:induction false} BatchBooked<V>(c: Config<V>, s: State<V>, k: Book, ids: seq<nat>, g: (nat, nat, V) -> V,
                                          n: nat)
    requires WellFormed(c, s) && Booked(c, s, k) && n <= |ids| && AccessAll(c, s, ids, g, n).Ok?
    ensures 0 < c.params.LeafBits() <= 32
    ensures BatchShown(c, s, ids, g, n) == LeavesOf(c, k.AllTouches(RealParts(ids, n)))
    ensures Booked(c, AccessAll(c, s, ids, g, n).value.1, k.AfterAll(RealParts(ids, n)))
    decreases n
  {
    hide Spec.Access, Booked, LeavesOf, Book.Touches, Book.After;
    LeafBitsFit(c.params);
    if n == 0 {
      assert k.AllTouches(RealParts(ids, 0)) == [] && LeavesOf(c, []) == [];
    } else {
      BatchBooked(c, s, k, ids, g, n - 1);
      var mid := AccessAll(c, s, ids, g, n - 1).value.1;
      var before := RealParts(ids, n - 1);
      assert RealParts(ids, n)[..n - 1] == before;
      AccessBooked(c, mid, k.AfterAll(before), ids[n - 1], CallOf(g, n - 1, ids[n - 1]));
      LeavesJoin(c, k.AllTouches(before), k.AfterAll(before).Touches(Real(ids[n - 1])));
    }
  }

  lemma {:induction false} FakesTouch(k: Book, n: nat)
    ensures |k.AllTouches(FakeParts(n))| == n
    ensures forall i :: 0 <= i < n ==> k.AllTouches(FakeParts(n))[i] == OfDraw(k.next + i)
    ensures k.AfterAll(FakeParts(n)) == Book(k.birth, k.next + n, k.sched.(issued := k.sched.issued + n))
  {
    if n > 0 {
      FakesTouch(k, n - 1);
      assert FakeParts(n)[..n - 1] == FakeParts(n - 1);
    }
  }

  lemma FreshLeaves<V>(c: Config<V>, rng: nat, touches: seq<Origin>)
    requires c.params.leaves > 0 && 0 < c.params.LeafBits() <= 32
    requires forall i :: 0 <= i < |touches| ==> touches[i] == OfDraw(rng + i)
    ensures DummyShown(c, rng, |touches|) == LeavesOf(c, touches)
  {
    hide OramParams.LeafBits;
    forall i | 0 <= i < |touches|
      ensures DummyShown(c, rng, |touches|)[i] == LeavesOf(c, touches)[i]
    {
      assert LeafOf(c, touches[i]) == RandomLeaf(c, rng + i);
    }
  }

  lemma DummiesBooked<V>(c: Config<V>, s: State<V>, k: Book, n: nat)
    requires WellFormed(c, s) && Booked(c, s, k)
    ensures 0 < c.params.LeafBits() <= 32
    ensures DummyShown(c, s.rng, n) == LeavesOf(c, k.AllTouches(FakeParts(n)))
    ensures k.AfterAll(FakeParts(n)) == Book(k.birth, k.next + n, k.sched.(issued := k.sched.issued + n))
  {
    hide Residue, Book.Sound, DummyShown, LeavesOf, TreeShape, FakeParts, Book.AllTouches, Book.AfterAll;
    LeafBitsFit(c.params);
    FakesTouch(k, n);
    FreshLeaves(c, s.rng, k.AllTouches(FakeParts(n)));
  }

  /** One request touches the paths its parts say, and the book stays right. */
  lemma StepBooked<V>(c: Config<V>, s: State<V>, k: Book, op: Op<V>)
    requires WellFormed(c, s) && Booked(c, s, k) && Step(c, s, op).Ok?
    ensures 0 < c.params.LeafBits() <= 32
    ensures Shown(c, s, op) == LeavesOf(c, k.AllTouches(Parts(op)))
    ensures Booked(c, Step(c, s, op).value.1, k.AfterAll(Parts(op)))
  {
    LeafBitsFit(c.params);
    hide Spec.Access, AccessAll, Spec.DrainEvictions, Spec.DummyAccess, Residue, LeafOf;
    match op {
      case Single(id, f) =>
        OnePart(k, Real(id));
        AccessBooked(c, s, k, id, f);
      case Batch(ids, g) =>
        BatchBooked(c, s, k, ids, g, |ids|);
      case Dummy =>
        OnePart(k, Fake);
        DummyBooked(c, s, k);
      case DummyBatch(count) =>
        DummiesBooked(c, s, k, count);
        DummyAllClosedForm(c, s, count);
      case DrainBudget(budget) =>
        OnePart(k, Evictions(budget));
        DrainBooked(c, s, k, budget);
    }
  }

  lemma OnePart(k: Book, part: Part)
    ensures k.AfterAll([part]) == k.After(part) && k.AllTouches([part]) == k.Touches(part)
  {
    assert [part][..0] == [];
  }

  lemma DummyBooked<V>(c: Config<V>, s: State<V>, k: Book)
    requires WellFormed(c, s) && Booked(c, s, k) && Spec.DummyAccess(c, s).Ok?
    ensures 0 < c.params.LeafBits() <= 32
    ensures [RandomLeaf(c, s.rng)] == LeavesOf(c, k.Touches(Fake))
    ensures Booked(c, Spec.DummyAccess(c, s).value, k.After(Fake))
  {
    hide Residue;
    LeafBitsFit(c.params);
  }

  lemma DrainBooked<V>(c: Config<V>, s: State<V>, k: Book, budget: nat)
    requires WellFormed(c, s) && Booked(c, s, k) && Spec.DrainEvictions(c, s, budget).Ok?
    ensures 0 < c.params.LeafBits() <= 32
    ensures DrainShown(c.params, s.sched.completed, Spec.DrainEvictions(c, s, budget).value.0) ==
            LeavesOf(c, k.Touches(Evictions(budget)))
    ensures Booked(c, Spec.DrainEvictions(c, s, budget).value.1, k.After(Evictions(budget)))
  {
    hide Spec.DrainEvictions, Residue;
    LeafBitsFit(c.params);
    DrainCounts(c, s, budget);
  }

  /** A whole run touches the paths its parts say; among them every draw at most once. */
  lemma {:induction false} RunBooked<V>(c: Config<V>, s: State<V>, k: Book, ops: seq<Op<V>>)
    requires WellFormed(c, s) && Booked(c, s, k) && Run(c, s, ops).Ok?
    ensures 0 < c.params.LeafBits() <= 32
    ensures RunShown(c, s, ops) == LeavesOf(c, k.AllTouches(RunParts(ops)))
    ensures Distinct(k.AllTouches(RunParts(ops)))
    ensures Booked(c, Run(c, s, ops).value.1, k.AfterAll(RunParts(ops)))
    decreases |ops|
  {
    hide Step, Shown, Booked, LeafOf, Parts;
    LeafBitsFit(c.params);
    if ops != [] {
      StepBooked(c, s, k, ops[0]);
      RunBooked(c, Step(c, s, ops[0]).value.1, k.AfterAll(Parts(ops[0])), ops[1..]);
      Continued(k, Parts(ops[0]), RunParts(ops[1..]));
      LeavesJoin(c, k.AllTouches(Parts(ops[0])), k.AfterAll(Parts(ops[0])).AllTouches(RunParts(ops[1..])));
    }
    assert k.Sound() by { BookIsSound(c, s, k); }
    EachDrawOnce(k, RunParts(ops));
  }

  lemma BookIsSound<V>(c: Config<V>, s: State<V>, k: Book)
    requires Booked(c, s, k)
    ensures k.Sound() && c.params.leaves > 0
  {
  }

  /** Requests of one shape: as many accesses, in as many calls, and the same drains. Ids, payloads and
      updates may differ, and so may which accesses are dummies. */
  predicate SameShape<V>(a: seq<Op<V>>, b: seq<Op<V>>) {
    |a| == |b| && forall i :: 0 <= i < |a| ==> AllAlike(Parts(a[i]), Parts(b[i]))
  }

  lemma {:induction false} ShapesJoin<V>(a: seq<Op<V>>, b: seq<Op<V>>)
    requires SameShape(a, b)
    ensures AllAlike(RunParts(a), RunParts(b))
  {
    hide Parts, Alike;
    if a != [] {
      assert AllAlike(Parts(a[0]), Parts(b[0]));
      ShapesJoin(a[1..], b[1..]);
    }
  }

  /** The draws in another order. */
  function Reorder(draws: nat -> nat, pi: seq<nat>): nat -> nat {
    (i: nat) => if i < |pi| then draws(pi[i]) else draws(i)
  }

  lemma LeavesAgree<V>(c: Config<V>, d: Config<V>, pi: seq<nat>, a: seq<Origin>, b: seq<Origin>)
    requires c.params.leaves > 0 && 0 < c.params.LeafBits() <= 32 && SameButDraws(a, b) && Renames(pi, b, a)
    requires d == Config(c.params, Reorder(c.draws, pi), c.zero)
    ensures LeavesOf(c, a) == LeavesOf(d, b)
  {
    forall x | 0 <= x < |a|
      ensures LeafOf(c, a[x]) == LeafOf(d, b[x])
    {
      if a[x].OfDraw? {
        var j := b[x].index;
        ResidueUnique(c.draws(pi[j]), RandomLeaf(c, a[x].index), RandomLeaf(d, j), c.params.leaves);
      }
    }
  }

  lemma RenamesParts(pi: seq<nat>, b: seq<Origin>, laterB: seq<Origin>, a: seq<Origin>, laterA: seq<Origin>)
    requires |a| == |b| && Renames(pi, b + laterB, a + laterA)
    ensures Renames(pi, b, a) && Renames(pi, laterB, laterA)
  {
    forall x | 0 <= x < |a| && a[x].OfDraw? && b[x].OfDraw?
      ensures b[x].index < |pi| && pi[b[x].index] == a[x].index
    {
      assert (a + laterA)[x] == a[x] && (b + laterB)[x] == b[x];
    }
    forall x | 0 <= x < |laterA| && laterA[x].OfDraw? && laterB[x].OfDraw?
      ensures laterB[x].index < |pi| && pi[laterB[x].index] == laterA[x].index
    {
      assert (a + laterA)[|a| + x] == laterA[x] && (b + laterB)[|b| + x] == laterB[x];
    }
  }

  /** One request of each run: the same traffic, and runs that go on alike. */
  lemma StepsAgree<V>(c: Config<V>, d: Config<V>, s: State<V>, t: State<V>, k: Book, l: Book, a: Op<V>, b: Op<V>,
                      pi: seq<nat>)
    requires WellFormed(c, s) && Booked(c, s, k) && Step(c, s, a).Ok?
    requires WellFormed(d, t) && Booked(d, t, l) && Step(d, t, b).Ok?
    requires d == Config(c.params, Reorder(c.draws, pi), c.zero) && k.next == l.next && k.sched == l.sched
    requires AllAlike(Parts(a), Parts(b)) && Renames(pi, l.AllTouches(Parts(b)), k.AllTouches(Parts(a)))
    ensures Shown(c, s, a) == Shown(d, t, b)
  {
    hide Step, Shown, Booked, Parts, LeavesOf, Book.Touches, Book.After;
    StepBooked(c, s, k, a);
    StepBooked(d, t, l, b);
    AlikeTouches(k, l, Parts(a), Parts(b));
    assert c.params.leaves > 0 by { BookIsSound(c, s, k); }
    LeavesAgree(c, d, pi, k.AllTouches(Parts(a)), l.AllTouches(Parts(b)));
  }

  lemma {:induction false} RunsAgree<V>(c: Config<V>, d: Config<V>, s: State<V>, t: State<V>, k: Book, l: Book,
                                        a: seq<Op<V>>, b: seq<Op<V>>, pi: seq<nat>)
    requires WellFormed(c, s) && Booked(c, s, k) && Run(c, s, a).Ok?
    requires WellFormed(d, t) && Booked(d, t, l) && Run(d, t, b).Ok?
    requires d == Config(c.params, Reorder(c.draws, pi), c.zero) && k.next == l.next && k.sched == l.sched
    requires SameShape(a, b) && Renames(pi, l.AllTouches(RunParts(b)), k.AllTouches(RunParts(a)))
    ensures RunTraffic(c, s, a) == RunTraffic(d, t, b)
    decreases |a|
  {
    hide Step, Shown, Booked, Parts, Book.Touches, Book.After, Book.AllTouches, Book.AfterAll, Alike, Renames, AllAlike,
         SameButDraws, ThereAndBack;
    if a != [] {
      var x, y := Parts(a[0]), Parts(b[0]);
      assert AllAlike(x, y);
      AlikeTouches(k, l, x, y);
      assert |k.AllTouches(x)| == |l.AllTouches(y)| by { SameLength(k.AllTouches(x), l.AllTouches(y)); }
      Continued(k, x, RunParts(a[1..]));
      Continued(l, y, RunParts(b[1..]));
      RenamesParts(pi, l.AllTouches(y), l.AfterAll(y).AllTouches(RunParts(b[1..])), k.AllTouches(x),
                   k.AfterAll(x).AllTouches(RunParts(a[1..])));
      StepsAgree(c, d, s, t, k, l, a[0], b[0], pi);
      StepBooked(c, s, k, a[0]);
      StepBooked(d, t, l, b[0]);
      RunsAgree(c, d, Step(c, s, a[0]).value.1, Step(d, t, b[0]).value.1, k.AfterAll(x), l.AfterAll(y), a[1..], b[1..],
                pi);
    }
  }

  lemma SameLength(a: seq<Origin>, b: seq<Origin>)
    requires SameButDraws(a, b)
    ensures |a| == |b|
  {
  }

  /** Every label of a new image has the draw of its own id. */
  function FirstBook(p: OramParams, blocks: nat): Book {
    Book(seq(blocks, i => i), blocks, Counters(p.LeafBits(), 2, 0, 0))
  }

  lemma BuildBooked<V>(c: Config<V>, source: seq<V>)
    requires c.params.Valid() && Build(c, source).Ok?
    ensures Booked(c, Build(c, source).value, FirstBook(c.params, |source|))
  {
    hide PlaceAll, OverflowRight, Residue;
    BuildStart(c, source);
    LeavesArePow2(c.params);
  }

  /** The image is built and all requests are served. */
  ghost predicate Completes<V>(c: Config<V>, source: seq<V>, ops: seq<Op<V>>)
    requires c.params.Valid()
  {
    Build(c, source).Ok? && Run(c, Build(c, source).value, ops).Ok?
  }

  /** What the stores are asked for from the build on, request by request. */
  ghost function Seen<V>(c: Config<V>, source: seq<V>, ops: seq<Op<V>>): seq<Traffic>
    requires c.params.Valid() && Completes(c, source, ops)
  {
    RunTraffic(c, Build(c, source).value, ops)
  }

  lemma SeenAlike<V>(c: Config<V>, d: Config<V>, first: seq<V>, second: seq<V>, a: seq<Op<V>>, b: seq<Op<V>>,
                     pi: seq<nat>)
    requires c.params.Valid() && Completes(c, first, a) && |first| == |second|
    requires d == Config(c.params, Reorder(c.draws, pi), c.zero) && Completes(d, second, b)
    requires var k := FirstBook(c.params, |first|);
             SameShape(a, b) && Renames(pi, k.AllTouches(RunParts(b)), k.AllTouches(RunParts(a)))
    ensures Seen(c, first, a) == Seen(d, second, b)
  {
    hide Build, Run, RunTraffic, Booked, SameShape, Renames, FirstBook, RunParts, Reorder;
    var k := FirstBook(c.params, |first|);
    BuildBooked(c, first);
    BuildBooked(d, second);
    RunsAgree(c, d, Build(c, first).value, Build(d, second).value, k, k, a, b, pi);
  }

  /** Two clients with sources and requests of one shape. There is one rearrangement of the draws, the same
      for every stream of draws, under which the second client has the stores asked, request by request, for
      exactly the paths the first one has them asked for, whenever both are served to the end. Independent
      draws being as likely in one order as in another, what the stores see is distributed alike. */
  lemma TrafficTellsNothing<V>(p: OramParams, zero: V, first: seq<V>, second: seq<V>, a: seq<Op<V>>, b: seq<Op<V>>)
    returns (pi: seq<nat>)
    requires p.Valid() && |first| == |second| && SameShape(a, b)
    ensures Permutation(pi, FirstBook(p, |first|).AfterAll(RunParts(a)).next)
    ensures forall draws: nat -> nat ::
              && Completes(Config(p, draws, zero), first, a)
              && Completes(Config(p, Reorder(draws, pi), zero), second, b) ==>
                Seen(Config(p, draws, zero), first, a) == Seen(Config(p, Reorder(draws, pi), zero), second, b)
  {
    hide Completes, Seen, SameButDraws, Renames, Permutation, Distinct;
    var k := FirstBook(p, |first|);
    ShapesJoin(a, b);
    pi := PatternsAgree(k, k, RunParts(a), RunParts(b));
    forall draws: nat -> nat |
      && Completes(Config(p, draws, zero), first, a)
      && Completes(Config(p, Reorder(draws, pi), zero), second, b)
      ensures Seen(Config(p, draws, zero), first, a) == Seen(Config(p, Reorder(draws, pi), zero), second, b)
    {
      SeenAlike(Config(p, draws, zero), Config(p, Reorder(draws, pi), zero), first, second, a, b, pi);
    }
  }
}
