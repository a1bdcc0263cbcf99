/** Circuit ORAM as a transition system on values (src/circuit.rs, CircuitOram).

    A state shows each bucket as a list of blocks: slot `j` of page `n` joins metadata slot `j`
    with payload slot `j` of the two stores. */
module OramSpec {
  import opened Common
  import opened Geometry
  import opened Blocks
  import opened EvictionPlan
  import opened Schedule
  import opened PageStores

  type Pages<V> = seq<seq<Block<V>>>

  /** Sizing, the stream of raw random draws, and the all-zero payload. */
  datatype Config<V> = Config(params: OramParams, draws: nat -> nat, zero: V)

  datatype State<V> = State(
    pos: seq<nat>,
    stash: seq<Block<V>>,
    tree: Pages<V>,
    rng: nat,
    sched: Counters)

  function RandomLeaf<V>(c: Config<V>, rng: nat): (leaf: nat)
    requires c.params.leaves > 0
    ensures Residue(c.draws(rng), leaf, c.params.leaves)
  {
    Reduce(c.draws(rng), c.params.leaves)
  }

  ghost predicate TreeShape<V>(p: OramParams, tree: Pages<V>) {
    |tree| == p.BucketCount() && PageSizes(p, tree)
  }

  ghost predicate WellFormed<V>(c: Config<V>, s: State<V>) {
    && c.params.Valid()
    && |s.pos| == c.params.logicalBlocks
    && (forall i :: 0 <= i < |s.pos| ==> s.pos[i] < c.params.leaves)
    && |s.stash| == c.params.stashCapacity
    && TreeShape(c.params, s.tree)
    && s.sched.Valid()
    && s.sched.leafBits == c.params.LeafBits()
  }

  ghost predicate PageSizes<V>(p: OramParams, pages: Pages<V>) {
    forall n {:trigger pages[n]} :: 0 <= n < |pages| ==> |pages[n]| == p.bucketSize
  }

  lemma {:induction false} WritePathShape<V>(p: OramParams, tree: Pages<V>, path: seq<nat>, pages: Pages<V>, k: nat)
    requires |pages| == |path| && k <= |path|
    requires forall d :: 0 <= d < |path| ==> path[d] < |tree|
    requires TreeShape(p, tree) && PageSizes(p, pages)
    ensures TreeShape(p, WriteAll(tree, path, pages, k))
  {
    if k > 0 {
      WritePathShape(p, tree, path, pages, k - 1);
    }
  }

  /** What a full scan of the stash for `id` selects: the payload of the last match. */
  function ScanPayload<V>(stash: seq<Block<V>>, id: nat): Option<V> {
    if stash == [] then None
    else if Holds(stash[|stash| - 1], id) then Some(stash[|stash| - 1].payload)
    else ScanPayload(stash[..|stash| - 1], id)
  }

  /** Every stash block `id` gets the new leaf and payload. */
  function Restamp<V>(stash: seq<Block<V>>, id: nat, leaf: nat, payload: V): (r: seq<Block<V>>)
    ensures |r| == |stash|
    ensures forall i :: 0 <= i < |r| ==>
              r[i] == if Holds(stash[i], id) then stash[i].(leaf := leaf, payload := payload) else stash[i]
  {
    seq(|stash|, i requires 0 <= i < |stash| =>
      if Holds(stash[i], id) then stash[i].(leaf := leaf, payload := payload) else stash[i])
  }

  /** The path pages after a scan for the target, and the stash after the found block entered it. */
  function Fetched<V>(stash: seq<Block<V>>, pages: Pages<V>, id: nat, zero: V)
    : (r: Result<(seq<Block<V>>, Pages<V>)>)
    ensures r.Ok? ==> |r.value.0| == |stash| && |r.value.1| == |pages|
    ensures r.Err? ==> r.error == StashOverflow
  {
    var (after, taken) := TakeFromPath(pages, id, zero);
    var stash' := if taken.Some? then InsertFree(stash, taken.value) else Some(stash);
    if stash'.None? then Err(StashOverflow) else Ok((stash'.value, after))
  }

  /** The target leaves the pages of its path and enters the stash. */
  function Fetch<V>(c: Config<V>, stash: seq<Block<V>>, tree: Pages<V>, leaf: nat, id: nat)
    : (r: Result<(seq<Block<V>>, Pages<V>)>)
    requires c.params.Valid() && leaf < c.params.leaves && TreeShape(c.params, tree)
    ensures r.Ok? ==> |r.value.0| == |stash| && TreeShape(c.params, r.value.1)
    ensures r.Err? ==> r.error == StashOverflow
  {
    PathNodesDistinct(c.params, leaf);
    var path := c.params.PathNodes(leaf);
    match Fetched(stash, ReadAll(tree, path), id, c.zero)
    case Err(e) => Err(e)
    case Ok((stash', pages)) =>
      TakeFromPathEffect(ReadAll(tree, path), id, c.zero);
      WritePathShape(c.params, tree, path, pages, |path|);
      Ok((stash', WriteAll(tree, path, pages, |path|)))
  }

  /** One logical access: fetch, read, relabel, update; eviction is left for later. */
  function Access<V>(c: Config<V>, s: State<V>, id: nat, update: V -> V): (r: Result<(V, State<V>)>)
    requires WellFormed(c, s)
    ensures r.Ok? ==> WellFormed(c, r.value.1)
  {
    if id >= c.params.logicalBlocks then Err(InvalidInput)
    else
      match Fetch(c, s.stash, s.tree, s.pos[id], id)
      case Err(e) => Err(e)
      case Ok((stash, tree)) =>
        var found := ScanPayload(stash, id);
        if found.None? then Err(BlockNotFound(id))
        else if s.sched.Record().Err? then Err(s.sched.Record().error)
        else
          var leaf := RandomLeaf(c, s.rng);
          Ok((found.value,
              State(s.pos[id := leaf], Restamp(stash, id, leaf, update(found.value)), tree,
                    s.rng + 1, s.sched.Record().value)))
  }

  /** An access that selects nothing: one draw, one path rewritten unchanged, one unit of debt. */
  function DummyAccess<V>(c: Config<V>, s: State<V>): (r: Result<State<V>>)
    requires WellFormed(c, s)
    ensures r.Ok? ==> WellFormed(c, r.value)
  {
    if s.sched.Record().Err? then Err(s.sched.Record().error)
    else Ok(s.(rng := s.rng + 1, sched := s.sched.Record().value))
  }

  function ReachFrom(p: OramParams, evict: nat, leaf: nat, d: nat): (r: nat)
    requires d <= p.Height()
    ensures d <= r <= p.Height()
    decreases p.Height() - d
  {
    if d == p.Height() || p.NodeIndex(d, leaf) != p.NodeIndex(d, evict) then d
    else ReachFrom(p, evict, leaf, d + 1)
  }

  /** How far down the eviction path a slot's content may go; 0 for an empty slot. */
  function SlotReach(p: OramParams, evict: nat, occupied: bool, leaf: nat): (r: nat)
    requires p.leaves > 0
    ensures r <= p.Height()
  {
    if occupied then ReachFrom(p, evict, leaf % p.leaves, 0) else 0
  }

  function Reach<V>(p: OramParams, evict: nat, b: Block<V>): (r: nat)
    requires p.leaves > 0
    ensures r <= p.Height()
  {
    SlotReach(p, evict, b.occupied, b.leaf)
  }

  function Reaches<V>(p: OramParams, evict: nat, cands: seq<Block<V>>): (r: seq<nat>)
    requires p.leaves > 0
    ensures |r| == |cands|
    ensures forall i :: 0 <= i < |r| ==> r[i] == Reach(p, evict, cands[i])
  {
    seq<nat>(|cands|, (i: int) requires 0 <= i < |cands| => Reach(p, evict, cands[i]))
  }

  /** The slots that were not selected; selected ones become dummies. */
  function Keep<V>(bs: seq<Block<V>>, selected: seq<bool>, zero: V): (r: seq<Block<V>>)
    requires |bs| == |selected|
    ensures |r| == |bs|
    ensures forall i :: 0 <= i < |r| ==>
              r[i] == if bs[i].occupied && selected[i] then Dummy(zero) else bs[i]
  {
    seq(|bs|, i requires 0 <= i < |bs| => if bs[i].occupied && selected[i] then Dummy(zero) else bs[i])
  }

  /** The page a list of placement slots describes. */
  function BuildPage<V>(cands: seq<Block<V>>, slots: Slots, zero: V): (page: seq<Block<V>>)
    requires forall j :: 0 <= j < |slots| && slots[j].Some? ==> slots[j].value < |cands|
    ensures |page| == |slots|
    ensures forall j :: 0 <= j < |page| ==>
              page[j] == if slots[j].Some? then cands[slots[j].value] else Dummy(zero)
  {
    seq(|slots|, j requires 0 <= j < |slots| =>
      if slots[j].Some? then cands[slots[j].value] else Dummy(zero))
  }

  ghost predicate InRange(q: seq<Slots>, n: nat) {
    forall d, j {:trigger q[d][j]} :: 0 <= d < |q| && 0 <= j < |q[d]| && q[d][j].Some? ==> q[d][j].value < n
  }

  function BuildPages<V>(cands: seq<Block<V>>, q: seq<Slots>, zero: V): (pages: Pages<V>)
    requires InRange(q, |cands|)
    ensures |pages| == |q|
    ensures forall d {:trigger pages[d]} :: 0 <= d < |q| ==> pages[d] == BuildPage(cands, q[d], zero)
  {
    seq(|q|, d requires 0 <= d < |q| => BuildPage(cands, q[d], zero))
  }

  lemma GreedyInRange(reach: seq<nat>, h: nat, z: nat)
    ensures InRange(Greedy(reach, h, z).1, |reach|)
    ensures forall d :: 0 <= d < h ==> |Greedy(reach, h, z).1[d]| == z
  {
    GreedyIndices(reach, 0, h, z);
  }

  /** One path eviction on stash and path pages: plan, clear, reinsert the leftovers, rebuild. */
  function EvictPath<V>(c: Config<V>, stash: seq<Block<V>>, pages: Pages<V>, evict: nat)
    : (r: Result<(seq<Block<V>>, Pages<V>)>)
    requires c.params.leaves > 0
    ensures r.Ok? ==> |r.value.0| == |stash| && |r.value.1| == c.params.Height() && PageSizes(c.params, r.value.1)
  {
    var cands := stash + Concat(pages);
    var (selected, q) := Greedy(Reaches(c.params, evict, cands), c.params.Height(), c.params.bucketSize);
    GreedyInRange(Reaches(c.params, evict, cands), c.params.Height(), c.params.bucketSize);
    var cleared := Keep(stash, selected[..|stash|], c.zero);
    var leftover := Keep(Concat(pages), selected[|stash|..], c.zero);
    match InsertAll(cleared, leftover)
    case None => Err(StashOverflow)
    case Some(stash') => Ok((stash', BuildPages(cands, q, c.zero)))
  }

  /** One eviction in the whole state. */
  function Evict<V>(c: Config<V>, s: State<V>, evict: nat): (r: Result<State<V>>)
    requires WellFormed(c, s) && evict < c.params.leaves
    ensures r.Ok? ==> WellFormed(c, r.value) && r.value.sched == s.sched
  {
    PathNodesDistinct(c.params, evict);
    var path := c.params.PathNodes(evict);
    match EvictPath(c, s.stash, ReadAll(s.tree, path), evict)
    case Err(e) => Err(e)
    case Ok((stash, pages)) =>
      WritePathShape(c.params, s.tree, path, pages, |path|);
      Ok(s.(stash := stash, tree := WriteAll(s.tree, path, pages, |path|)))
  }

  lemma ScheduledLeafInRange(p: OramParams, index: nat)
    requires p.Valid()
    ensures 0 < p.LeafBits() <= 32
    ensures ReverseBitsMod(index, p.LeafBits()) < p.leaves
  {
    EvictionNode(p, 0, index);
  }

  /** The next eviction of the schedule, recorded as completed. */
  function EvictNext<V>(c: Config<V>, s: State<V>): (r: Result<State<V>>)
    requires WellFormed(c, s) && s.sched.completed < U64_MAX
    ensures r.Ok? ==> WellFormed(c, r.value) && r.value.sched == s.sched.Advance(1)
  {
    ScheduledLeafInRange(c.params, s.sched.completed);
    match Evict(c, s, s.sched.NextLeaf())
    case Err(e) => Err(e)
    case Ok(s') => Ok(s'.(sched := s.sched.Advance(1)))
  }

  /** The next `n` evictions of the schedule, one after the other. */
  function Drain<V>(c: Config<V>, s: State<V>, n: nat): (r: Result<State<V>>)
    requires WellFormed(c, s) && s.sched.completed + n <= U64_MAX
    ensures r.Ok? ==> WellFormed(c, r.value) && r.value.sched == s.sched.Advance(n)
    decreases n
  {
    if n == 0 then Ok(s)
    else
      match Drain(c, s, n - 1)
      case Err(e) => Err(e)
      case Ok(s') => EvictNext(c, s')
  }

  /** A drain request: the debt caps the budget. Returns how many evictions were completed. */
  function DrainEvictions<V>(c: Config<V>, s: State<V>, budget: nat): (r: Result<(nat, State<V>)>)
    requires WellFormed(c, s)
    ensures r.Ok? ==> WellFormed(c, r.value.1)
  {
    match s.sched.Pending()
    case Err(e) => Err(e)
    case Ok(pending) =>
      var n := if budget < pending then budget else pending;
      match Drain(c, s, n)
      case Err(e) => Err(e)
      case Ok(s') => Ok((n, s'))
  }

  /** The update a batch applies on its `i`-th access. */
  function CallOf<V>(update: (nat, nat, V) -> V, i: nat, id: nat): V -> V {
    v => update(i, id, v)
  }

  /** Accesses `ids[0..k]` in order; `update(i, id, v)` is what the caller's closure does on its
      `i`-th call. */
  function AccessAll<V>(c: Config<V>, s: State<V>, ids: seq<nat>, update: (nat, nat, V) -> V, k: nat)
    : (r: Result<(seq<V>, State<V>)>)
    requires WellFormed(c, s) && k <= |ids|
    ensures r.Ok? ==> WellFormed(c, r.value.1) && |r.value.0| == k
    decreases k
  {
    if k == 0 then Ok(([], s))
    else
      match AccessAll(c, s, ids, update, k - 1)
      case Err(e) => Err(e)
      case Ok((outs, s')) =>
        match Access(c, s', ids[k - 1], CallOf(update, k - 1, ids[k - 1]))
        case Err(e) => Err(e)
        case Ok((v, s'')) => Ok((outs + [v], s''))
  }

  function DummyAll<V>(c: Config<V>, s: State<V>, k: nat): (r: Result<State<V>>)
    requires WellFormed(c, s)
    ensures r.Ok? ==> WellFormed(c, r.value)
    decreases k
  {
    if k == 0 then Ok(s)
    else
      match DummyAll(c, s, k - 1)
      case Err(e) => Err(e)
      case Ok(s') => DummyAccess(c, s')
  }

  ghost function Contents<V>(s: State<V>): multiset<Block<V>> {
    Real(s.stash) + RealAll(s.tree)
  }

  /** Occupied stash slots. */
  ghost function Occupancy<V>(s: State<V>): nat {
    |Real(s.stash)|
  }

  /** Every real block of the tree sits on the path its label names. */
  ghost predicate Placed<V>(p: OramParams, tree: Pages<V>) {
    forall n, j {:trigger tree[n][j]} :: 0 <= n < |tree| && 0 <= j < |tree[n]| && tree[n][j].occupied ==>
      tree[n][j].leaf < p.leaves && n in p.PathNodes(tree[n][j].leaf)
  }

  /** The one block that may stand for its id: mapped label, current payload. */
  ghost predicate Current<V>(pos: seq<nat>, mem: seq<V>, b: Block<V>)
    requires |mem| == |pos|
  {
    b.occupied && b.id < |pos| && b.leaf == pos[b.id] && b.payload == mem[b.id]
  }

  /** The controller state stands for the plain array `mem`: stash and tree together hold the
      current block of every id exactly once and nothing else, each on its label's path. */
  ghost predicate Refines<V(!new)>(c: Config<V>, s: State<V>, mem: seq<V>) {
    && WellFormed(c, s)
    && |mem| == c.params.logicalBlocks
    && Placed(c.params, s.tree)
    && forall b: Block<V> {:trigger Contents(s)[b]} ::
         Contents(s)[b] == if Current(s.pos, mem, b) then 1 else 0
  }
}
