/** Runs of the controller: any sequence of accesses, batches, dummies and drains behaves like a
    plain array, and a bounded run never overflows the stash. */
module OramRuns {
  import opened Common
  import opened Geometry
  import opened Blocks
  import opened EvictionPlan
  import opened Schedule
  import opened PageStores
  import opened OramSpec
  import opened AccessRefinement
  import opened EvictionRefinement

  /** In a refining state every real block, in stash or tree, has an in-range label. */
  lemma LabelsInRange<V(!new)>(c: Config<V>, s: State<V>, mem: seq<V>, b: Block<V>)
    requires Refines(c, s, mem) && (b in Real(s.stash) || b in RealAll(s.tree))
    ensures b.leaf < c.params.leaves
  {
    assert b in Contents(s);
    OnlyCurrent(c, s, mem, b);
  }

  lemma PathPageSlot<V>(c: Config<V>, s: State<V>, evict: nat, d: nat, j: nat)
    requires WellFormed(c, s) && Placed(c.params, s.tree) && evict < c.params.leaves
    requires d < c.params.Height() && j < c.params.bucketSize
    requires c.params.NodeIndex(d, evict) < |s.tree| && s.tree[c.params.NodeIndex(d, evict)][j].occupied
    ensures d < Reach(c.params, evict, s.tree[c.params.NodeIndex(d, evict)][j])
  {
    hide Reach, OramParams.NodeIndex;
    PathBlockFits(c.params, s.tree, evict, d, j);
    ReachInRange(c.params, evict, s.tree[c.params.NodeIndex(d, evict)][j], d);
  }

  lemma PathPagesPlaced<V>(c: Config<V>, s: State<V>, evict: nat)
    requires WellFormed(c, s) && Placed(c.params, s.tree) && evict < c.params.leaves
    ensures DistinctPath(c.params.PathNodes(evict), |s.tree|)
    ensures PathPlaced(c.params, evict, ReadAll(s.tree, c.params.PathNodes(evict)))
  {
    PathIsDistinct(c.params, evict);
    var path := c.params.PathNodes(evict);
    var pages: Pages<V> := ReadAll(s.tree, path);
    forall d | 0 <= d < |pages|
      ensures |pages[d]| == c.params.bucketSize
      ensures forall j :: 0 <= j < |pages[d]| && pages[d][j].occupied ==> d < Reach(c.params, evict, pages[d][j])
    {
      assert pages[d] == s.tree[path[d]];
      forall j | 0 <= j < |pages[d]| && pages[d][j].occupied
        ensures d < Reach(c.params, evict, pages[d][j])
      {
        PathPageSlot(c, s, evict, d, j);
      }
    }
  }

  /** Every slot of a rebuilt page is a dummy or a candidate that may sit at that depth. */
  lemma RebuiltSlot<V>(c: Config<V>, stash: seq<Block<V>>, pages: Pages<V>, evict: nat, d: nat, j: nat)
    requires c.params.leaves > 0 && EvictPath(c, stash, pages, evict).Ok?
    requires var after := EvictPath(c, stash, pages, evict).value.1;
             d < |after| && j < |after[d]| && after[d][j].occupied
    ensures var b := EvictPath(c, stash, pages, evict).value.1[d][j];
            && d < Reach(c.params, evict, b)
            && (b in Real(stash) || b in RealAll(pages))
  {
    var cands := Candidates(stash, pages);
    var reach, h, z := Reaches(c.params, evict, cands), c.params.Height(), c.params.bucketSize;
    GreedyIndices(reach, 0, h, z);
    var q := Greedy(reach, h, z).1;
    var b := EvictPath(c, stash, pages, evict).value.1[d][j];
    assert b == BuildPage(cands, q[d], c.zero)[j];
    assert q[d][j].Some?;
    RealMember(cands, q[d][j].value);
    RealConcat(stash, Concat(pages));
    ConcatReal(pages);
  }

  /** An eviction conserves the real blocks of the whole state and leaves off-path pages alone. */
  lemma EvictKeepsContents<V>(c: Config<V>, s: State<V>, evict: nat)
    requires WellFormed(c, s) && Placed(c.params, s.tree) && evict < c.params.leaves
    ensures Evict(c, s, evict).Ok?
    ensures var s' := Evict(c, s, evict).value;
            && Contents(s') == Contents(s)
            && Occupancy(s') <= Occupancy(s)
            && forall n :: 0 <= n < |s.tree| && n !in c.params.PathNodes(evict) ==> s'.tree[n] == s.tree[n]
  {
    var path := c.params.PathNodes(evict);
    hide EvictPath, Real, RealAll, Placed, PathPlaced, OramParams.NodeIndex, WriteAll;
    PathPagesPlaced(c, s, evict);
    var pages := ReadAll(s.tree, path);
    EvictNeverGrowsStash(c, s.stash, pages, evict);
    EvictConserves(c, s.stash, pages, evict);
    var (stash', pages') := EvictPath(c, s.stash, pages, evict).value;
    var s' := Evict(c, s, evict).value;
    WholePathContents(s.tree, path, pages');
    ConserveAcrossTree(Real(stash'), RealAll(pages'), Real(s.stash), RealAll(pages), RealAll(s'.tree), RealAll(s.tree));
    WritePathFrame(s.tree, path, pages', |path|);
    assert path[..|path|] == path;
  }

  /** An eviction of any path succeeds in every refining state, changes no value, never grows the
      stash, and leaves pages off the path alone. */
  lemma EvictRefinesArray<V(!new)>(c: Config<V>, s: State<V>, mem: seq<V>, evict: nat)
    requires Refines(c, s, mem) && evict < c.params.leaves
    ensures var r := Evict(c, s, evict);
            && r.Ok?
            && Refines(c, r.value, mem)
            && Occupancy(r.value) <= Occupancy(s)
            && r.value.pos == s.pos && r.value.rng == s.rng && r.value.sched == s.sched
            && Contents(r.value) == Contents(s)
            && forall n :: 0 <= n < |s.tree| && n !in c.params.PathNodes(evict) ==> r.value.tree[n] == s.tree[n]
  {
    EvictKeepsContents(c, s, evict);
    EvictedPlaced(c, s, mem, evict);
  }

  lemma ConserveAcrossTree<T>(stash': multiset<T>, pages': multiset<T>, stash: multiset<T>, pages: multiset<T>,
                              tree': multiset<T>, tree: multiset<T>)
    requires stash' + pages' == stash + pages
    requires tree' + pages == tree + pages'
    ensures stash' + tree' == stash + tree
  {
    forall x
      ensures (stash' + tree')[x] == (stash + tree)[x]
    {
      assert (stash' + pages')[x] == (stash + pages)[x];
      assert (tree' + pages)[x] == (tree + pages')[x];
    }
  }

  lemma EvictedSlotFits<V(!new)>(c: Config<V>, s: State<V>, mem: seq<V>, evict: nat, d: nat, j: nat)
    requires Refines(c, s, mem) && evict < c.params.leaves && Evict(c, s, evict).Ok?
    requires DistinctPath(c.params.PathNodes(evict), |s.tree|)
    requires var after := EvictPath(c, s.stash, ReadAll(s.tree, c.params.PathNodes(evict)), evict).value.1;
             d < |after| && j < |after[d]| && after[d][j].occupied
    ensures var b := EvictPath(c, s.stash, ReadAll(s.tree, c.params.PathNodes(evict)), evict).value.1[d][j];
            b.leaf < c.params.leaves && c.params.NodeIndex(d, evict) == c.params.NodeIndex(d, b.leaf)
  {
    hide Reach, OramParams.NodeIndex, EvictPath;
    var path := c.params.PathNodes(evict);
    var before := ReadAll(s.tree, path);
    var b := EvictPath(c, s.stash, before, evict).value.1[d][j];
    RebuiltSlot(c, s.stash, before, evict, d, j);
    if b in RealAll(before) {
      var e, k := RealAllWitness(before, b);
      RealAllMember(s.tree, path[e], k);
    }
    LabelsInRange(c, s, mem, b);
    ReachInRange(c.params, evict, b, d);
  }

  lemma EvictedPlaced<V(!new)>(c: Config<V>, s: State<V>, mem: seq<V>, evict: nat)
    requires Refines(c, s, mem) && evict < c.params.leaves && Evict(c, s, evict).Ok?
    ensures Placed(c.params, Evict(c, s, evict).value.tree)
  {
    var p := c.params;
    PathIsDistinct(p, evict);
    var pages: Pages<V> := EvictPath(c, s.stash, ReadAll(s.tree, p.PathNodes(evict)), evict).value.1;
    forall d, j | 0 <= d < |pages| && 0 <= j < |pages[d]| && pages[d][j].occupied
      ensures pages[d][j].leaf < p.leaves && p.NodeIndex(d, evict) == p.NodeIndex(d, pages[d][j].leaf)
    {
      EvictedSlotFits(c, s, mem, evict, d, j);
    }
    WritePathPlaced(p, s.tree, evict, pages);
  }

  lemma NextEvictionRefines<V(!new)>(c: Config<V>, s: State<V>, mem: seq<V>)
    requires Refines(c, s, mem) && s.sched.completed < U64_MAX
    ensures var r := EvictNext(c, s);
            && r.Ok?
            && Refines(c, r.value, mem)
            && Occupancy(r.value) <= Occupancy(s)
            && r.value.rng == s.rng && r.value.pos == s.pos
  {
    ScheduledLeafInRange(c.params, s.sched.completed);
    EvictRefinesArray(c, s, mem, s.sched.NextLeaf());
    var s' := Evict(c, s, s.sched.NextLeaf()).value;
    assert Contents(EvictNext(c, s).value) == Contents(s');
  }

  /** Draining always succeeds, changes no value and never grows the stash. */
  lemma {:induction false} DrainRefinesArray<V(!new)>(c: Config<V>, s: State<V>, mem: seq<V>, n: nat)
    requires Refines(c, s, mem) && s.sched.completed + n <= U64_MAX
    ensures var r := Drain(c, s, n);
            && r.Ok?
            && Refines(c, r.value, mem)
            && Occupancy(r.value) <= Occupancy(s)
            && r.value.rng == s.rng && r.value.pos == s.pos
    decreases n
  {
    hide EvictNext, Occupancy, Contents, Placed, Current;
    if n > 0 {
      DrainRefinesArray(c, s, mem, n - 1);
      NextEvictionRefines(c, Drain(c, s, n - 1).value, mem);
    }
  }

  lemma DrainUnfolds<V>(c: Config<V>, s: State<V>, n: nat)
    requires WellFormed(c, s) && 0 < n && s.sched.completed + n <= U64_MAX
    ensures Drain(c, s, n - 1).Err? ==> Drain(c, s, n) == Err(Drain(c, s, n - 1).error)
    ensures Drain(c, s, n - 1).Ok? ==> Drain(c, s, n) == EvictNext(c, Drain(c, s, n - 1).value)
  {
  }

  /** Draining in two parts is draining at once. */
  lemma {:induction false} DrainSplits<V>(c: Config<V>, s: State<V>, mid: State<V>, m: nat, n: nat)
    requires WellFormed(c, s) && s.sched.completed + m + n <= U64_MAX
    requires Drain(c, s, m) == Ok(mid)
    ensures WellFormed(c, mid) && mid.sched == s.sched.Advance(m)
    ensures Drain(c, s, m + n) == Drain(c, mid, n)
    decreases n
  {
    hide WellFormed, EvictNext;
    if n > 0 {
      DrainSplits(c, s, mid, m, n - 1);
      DrainUnfolds(c, s, m + n);
      DrainUnfolds(c, mid, n);
      assert m + n - 1 == m + (n - 1);
    }
  }

  lemma PendingAfter(k: Counters, a: nat)
    requires k.Pending().Ok? && a <= k.Pending().value
    ensures k.Advance(a).Pending() == Ok(k.Pending().value - a)
  {
  }

  /** However the drain budget is split into requests, stash, stores and schedule end up the same. */
  lemma BudgetSplitIrrelevant<V(!new)>(c: Config<V>, s: State<V>, mem: seq<V>, m: nat, n: nat)
    requires Refines(c, s, mem) && s.sched.Pending().Ok?
    ensures DrainEvictions(c, s, m).Ok? && DrainEvictions(c, s, m + n).Ok?
    ensures var (done, first) := DrainEvictions(c, s, m).value;
            && DrainEvictions(c, first, n).Ok?
            && DrainEvictions(c, first, n).value.1 == DrainEvictions(c, s, m + n).value.1
            && done + DrainEvictions(c, first, n).value.0 == DrainEvictions(c, s, m + n).value.0
  {
    hide WellFormed, EvictNext, Drain, Occupancy, Contents, Placed, Current;
    var pending := s.sched.Pending().value;
    var a := if m < pending then m else pending;
    var all := if m + n < pending then m + n else pending;
    DrainRefinesArray(c, s, mem, a);
    DrainRefinesArray(c, s, mem, all);
    var first := Drain(c, s, a).value;
    PendingAfter(s.sched, a);
    DrainSplits(c, s, first, a, all - a);
    assert a + (all - a) == all;
  }

  /** Requests a caller can make of the controller. */
  datatype Op<!V> =
    | Single(id: nat, f: V -> V)
    | Batch(ids: seq<nat>, g: (nat, nat, V) -> V)
    | Dummy
    | DummyBatch(count: nat)
    | DrainBudget(budget: nat)

  function Step<V>(c: Config<V>, s: State<V>, op: Op<V>): (r: Result<(seq<V>, State<V>)>)
    requires WellFormed(c, s)
    ensures r.Ok? ==> WellFormed(c, r.value.1)
  {
    match op
    case Single(id, f) =>
      (match Access(c, s, id, f)
       case Err(e) => Err(e)
       case Ok((v, s')) => Ok(([v], s')))
    case Batch(ids, g) => AccessAll(c, s, ids, g, |ids|)
    case Dummy =>
      (match DummyAccess(c, s)
       case Err(e) => Err(e)
       case Ok(s') => Ok(([], s')))
    case DummyBatch(count) =>
      (match DummyAll(c, s, count)
       case Err(e) => Err(e)
       case Ok(s') => Ok(([], s')))
    case DrainBudget(budget) =>
      (match DrainEvictions(c, s, budget)
       case Err(e) => Err(e)
       case Ok((_, s')) => Ok(([], s')))
  }

  function Run<V>(c: Config<V>, s: State<V>, ops: seq<Op<V>>): (r: Result<(seq<V>, State<V>)>)
    requires WellFormed(c, s)
    ensures r.Ok? ==> WellFormed(c, r.value.1)
    decreases |ops|
  {
    if ops == [] then Ok(([], s))
    else
      match Step(c, s, ops[0])
      case Err(e) => Err(e)
      case Ok((outs, s')) =>
        match Run(c, s', ops[1..])
        case Err(e) => Err(e)
        case Ok((rest, s'')) => Ok((outs + rest, s''))
  }

  /** The specification: the same requests served by a plain array. */
  function ArrayBatch<V>(mem: seq<V>, ids: seq<nat>, g: (nat, nat, V) -> V, k: nat): (r: (seq<V>, seq<V>))
    requires k <= |ids| && forall i :: 0 <= i < |ids| ==> ids[i] < |mem|
    ensures |r.1| == |mem|
    decreases k
  {
    if k == 0 then ([], mem)
    else
      var (outs, mem') := ArrayBatch(mem, ids, g, k - 1);
      var id := ids[k - 1];
      (outs + [mem'[id]], mem'[id := g(k - 1, id, mem'[id])])
  }

  predicate IdsInRange<V>(op: Op<V>, n: nat) {
    match op
    case Single(id, _) => id < n
    case Batch(ids, _) => forall i :: 0 <= i < |ids| ==> ids[i] < n
    case _ => true
  }

  function ArrayStep<V>(mem: seq<V>, op: Op<V>): (r: (seq<V>, seq<V>))
    requires IdsInRange(op, |mem|)
    ensures |r.1| == |mem|
  {
    match op
    case Single(id, f) => ([mem[id]], mem[id := f(mem[id])])
    case Batch(ids, g) => ArrayBatch(mem, ids, g, |ids|)
    case _ => ([], mem)
  }

  function ArrayRun<V>(mem: seq<V>, ops: seq<Op<V>>): (r: (seq<V>, seq<V>))
    requires forall i :: 0 <= i < |ops| ==> IdsInRange(ops[i], |mem|)
    decreases |ops|
  {
    if ops == [] then ([], mem)
    else
      var (outs, mem') := ArrayStep(mem, ops[0]);
      var (rest, mem'') := ArrayRun(mem', ops[1..]);
      (outs + rest, mem'')
  }

  /** Blocks a request can add to the stash. */
  function AccessCost<V>(op: Op<V>): nat {
    match op
    case Single(_, _) => 1
    case Batch(ids, _) => |ids|
    case _ => 0
  }

  function RunCost<V>(ops: seq<Op<V>>): nat {
    if ops == [] then 0 else AccessCost(ops[0]) + RunCost(ops[1..])
  }

  /** A batch of accesses serves the array batch. Its errors are a full stash, only if the batch does
      not fit beside what the stash holds, and an exhausted access counter; a missing block is never
      one of them. */
  lemma {:induction false} AccessAllRefinesArray<V(!new)>(c: Config<V>, s: State<V>, mem: seq<V>, ids: seq<nat>,
                                                         g: (nat, nat, V) -> V, k: nat)
    requires Refines(c, s, mem) && k <= |ids|
    requires forall i :: 0 <= i < |ids| ==> ids[i] < c.params.logicalBlocks
    ensures var r := AccessAll(c, s, ids, g, k);
            && (r.Ok? ==>
                  && r.value.0 == ArrayBatch(mem, ids, g, k).0
                  && Refines(c, r.value.1, ArrayBatch(mem, ids, g, k).1)
                  && Occupancy(r.value.1) <= Occupancy(s) + k
                  && r.value.1.sched == s.sched.(issued := s.sched.issued + k))
            && (r.Err? ==> r == Err(StashOverflow) || r == Err(InvalidInput))
            && (r == Err(StashOverflow) ==> Occupancy(s) + k > c.params.stashCapacity)
            && (r == Err(InvalidInput) ==> s.sched.issued + k > U64_MAX)
    decreases k
  {
    hide Access, Occupancy, Contents, Placed, Current;
    if k > 0 {
      AccessAllRefinesArray(c, s, mem, ids, g, k - 1);
      var prev := AccessAll(c, s, ids, g, k - 1);
      if prev.Ok? {
        BatchStepRefines(c, prev.value.1, ArrayBatch(mem, ids, g, k - 1).1, ids[k - 1], g, k - 1);
      }
    }
  }

  lemma BatchStepRefines<V(!new)>(c: Config<V>, s: State<V>, mem: seq<V>, id: nat, g: (nat, nat, V) -> V, i: nat)
    requires Refines(c, s, mem) && id < c.params.logicalBlocks
    ensures var r := Access(c, s, id, CallOf(g, i, id));
            && (r.Ok? ==>
                  && r.value.0 == mem[id]
                  && Refines(c, r.value.1, mem[id := g(i, id, mem[id])])
                  && Occupancy(r.value.1) <= Occupancy(s) + 1
                  && r.value.1.sched == s.sched.(issued := s.sched.issued + 1))
            && (r.Err? ==> r == Err(StashOverflow) || r == Err(InvalidInput))
            && (r == Err(StashOverflow) ==> Occupancy(s) + 1 > c.params.stashCapacity)
            && (r == Err(InvalidInput) ==> s.sched.issued == U64_MAX)
  {
    var f := CallOf(g, i, id);
    AccessRefinesArray(c, s, mem, id, f);
    assert f(mem[id]) == g(i, id, mem[id]);
  }

  lemma {:induction false} DummyAllRefinesArray<V(!new)>(c: Config<V>, s: State<V>, mem: seq<V>, k: nat)
    requires Refines(c, s, mem)
    ensures var r := DummyAll(c, s, k);
            && (r.Ok? ==>
                  && Refines(c, r.value, mem) && Occupancy(r.value) == Occupancy(s)
                  && r.value.sched == s.sched.(issued := s.sched.issued + k))
            && (r.Err? ==> r == Err(InvalidInput) && s.sched.issued + k > U64_MAX)
    decreases k
  {
    if k > 0 {
      DummyAllRefinesArray(c, s, mem, k - 1);
      if DummyAll(c, s, k - 1).Ok? {
        DummyRefinesArray(c, DummyAll(c, s, k - 1).value, mem);
      }
    }
  }

  /** Accesses and dummies a request records. */
  function Issues<V>(op: Op<V>): nat {
    match op
    case Single(_, _) => 1
    case Batch(ids, _) => |ids|
    case Dummy => 1
    case DummyBatch(count) => count
    case DrainBudget(_) => 0
  }

  function RunIssues<V>(ops: seq<Op<V>>): nat {
    if ops == [] then 0 else Issues(ops[0]) + RunIssues(ops[1..])
  }

  /** The counters cannot serve the request: no room for its accesses, or a debt that cannot be told. */
  ghost predicate CountersFail<V>(sched: Counters, op: Op<V>) {
    sched.issued + Issues(op) > U64_MAX || (op.DrainBudget? && sched.Pending().Err?)
  }

  /** A drain request on a state that stands for an array: it fails exactly when the debt cannot be told. */
  lemma DrainRequestRefinesArray<V(!new)>(c: Config<V>, s: State<V>, mem: seq<V>, budget: nat)
    requires Refines(c, s, mem)
    ensures var r := DrainEvictions(c, s, budget);
            && (r.Err? <==> s.sched.Pending().Err?) && (r.Err? ==> r == Err(InvalidInput))
            && (r.Ok? ==>
                  && Refines(c, r.value.1, mem)
                  && Occupancy(r.value.1) <= Occupancy(s)
                  && Recorded(s.sched, r.value.1.sched, 0))
  {
    hide Drain, Occupancy, Contents, Placed, Current;
    if s.sched.Pending().Ok? {
      var n := if budget < s.sched.Pending().value then budget else s.sched.Pending().value;
      DrainRefinesArray(c, s, mem, n);
      RecordedDrain(s.sched, n);
    }
  }

  /** One request: the outputs are the array's, the new state stands for the new array. A full stash
      is reported only when the request does not fit beside what the stash holds, an invalid input
      only when the counters fail. */
  lemma StepRefinesArray<V(!new)>(c: Config<V>, s: State<V>, mem: seq<V>, op: Op<V>)
    requires Refines(c, s, mem) && IdsInRange(op, c.params.logicalBlocks)
    ensures var r := Step(c, s, op);
            && (r.Ok? ==>
                  && r.value.0 == ArrayStep(mem, op).0
                  && Refines(c, r.value.1, ArrayStep(mem, op).1)
                  && Occupancy(r.value.1) <= Occupancy(s) + AccessCost(op)
                  && Recorded(s.sched, r.value.1.sched, Issues(op)))
            && (r.Err? ==> r == Err(StashOverflow) || r == Err(InvalidInput))
            && (r == Err(StashOverflow) ==> Occupancy(s) + AccessCost(op) > c.params.stashCapacity)
            && (r == Err(InvalidInput) ==> CountersFail(s.sched, op))
  {
    hide Access, AccessAll, DummyAccess, DummyAll, DrainEvictions, Occupancy, Contents, Placed, Current, Recorded;
    RecordedMore(s.sched, Issues(op));
    match op
    case Single(id, f) => AccessRefinesArray(c, s, mem, id, f);
    case Batch(ids, g) => AccessAllRefinesArray(c, s, mem, ids, g, |ids|);
    case Dummy => DummyRefinesArray(c, s, mem);
    case DummyBatch(count) => DummyAllRefinesArray(c, s, mem, count);
    case DrainBudget(budget) => DrainRequestRefinesArray(c, s, mem, budget);
  }

  /** Main theorem. Over any sequence of requests that the controller completes, it answers exactly
      as the array does and still stands for the array. The only possible failures are a full stash,
      and then the accesses of the run number more than the slots that were free at its start,
      whatever the drain pattern, and counters too small for the run. */
  lemma {:induction false} RunRefinesArray<V(!new)>(c: Config<V>, s: State<V>, mem: seq<V>, ops: seq<Op<V>>)
    requires Refines(c, s, mem)
    requires forall i :: 0 <= i < |ops| ==> IdsInRange(ops[i], c.params.logicalBlocks)
    ensures var r := Run(c, s, ops);
            && (r.Ok? ==>
                  && r.value.0 == ArrayRun(mem, ops).0
                  && Refines(c, r.value.1, ArrayRun(mem, ops).1)
                  && Occupancy(r.value.1) <= Occupancy(s) + RunCost(ops)
                  && Recorded(s.sched, r.value.1.sched, RunIssues(ops)))
            && (r.Err? ==> r == Err(StashOverflow) || r == Err(InvalidInput))
            && (r == Err(StashOverflow) ==> Occupancy(s) + RunCost(ops) > c.params.stashCapacity)
            && (r == Err(InvalidInput) ==> !(s.sched.Sound() && s.sched.Room(RunIssues(ops))))
    decreases |ops|
  {
    hide Step, Occupancy, Contents, Placed, Current, Recorded;
    if ops == [] {
      RecordedMore(s.sched, 0);
    } else {
      StepRefinesArray(c, s, mem, ops[0]);
      var r := Step(c, s, ops[0]);
      if r.Ok? {
        var mem' := ArrayStep(mem, ops[0]).1;
        assert forall i :: 0 <= i < |ops[1..]| ==> ops[1..][i] == ops[i + 1];
        RunRefinesArray(c, r.value.1, mem', ops[1..]);
        RoomLater(s.sched, r.value.1.sched, Issues(ops[0]), RunIssues(ops[1..]));
        if Run(c, r.value.1, ops[1..]).Ok? {
          RecordedJoin(s.sched, r.value.1.sched, Run(c, r.value.1, ops[1..]).value.1.sched, Issues(ops[0]),
                       RunIssues(ops[1..]));
        }
      } else if s.sched.Sound() && s.sched.Room(RunIssues(ops)) {
        RoomNow(s.sched, RunIssues(ops));
      }
    }
  }

  lemma RoomLater(a: Counters, b: Counters, m: nat, n: nat)
    requires Recorded(a, b, m)
    ensures a.Sound() && a.Room(m + n) ==> b.Sound() && b.Room(n)
  {
  }

  /** When a run completes: the counters have room for it and its accesses fit the free stash slots. */
  lemma RunCompletes<V(!new)>(c: Config<V>, s: State<V>, mem: seq<V>, ops: seq<Op<V>>)
    requires Refines(c, s, mem)
    requires forall i :: 0 <= i < |ops| ==> IdsInRange(ops[i], c.params.logicalBlocks)
    requires s.sched.Sound() && s.sched.Room(RunIssues(ops))
    requires Occupancy(s) + RunCost(ops) <= c.params.stashCapacity
    ensures Run(c, s, ops).Ok?
    ensures Run(c, s, ops).value.0 == ArrayRun(mem, ops).0
  {
    RunRefinesArray(c, s, mem, ops);
  }
}
