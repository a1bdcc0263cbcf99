/** A single access keeps the refinement to a plain array. */
module AccessRefinement {
  import opened Common
  import opened Geometry
  import opened Blocks
  import opened PageStores
  import opened OramSpec

  lemma PathIsDistinct(p: OramParams, leaf: nat)
    requires p.Valid() && leaf < p.leaves
    ensures DistinctPath(p.PathNodes(leaf), p.BucketCount())
  {
    PathNodesDistinct(p, leaf);
  }

  lemma {:induction false} RealAllConcat<V>(a: Pages<V>, b: Pages<V>)
    ensures RealAll(a + b) == RealAll(a) + RealAll(b)
  {
    if a == [] {
      assert a + b == b;
    } else {
      RealAllConcat(a[1..], b);
      assert (a + b)[1..] == a[1..] + b;
      assert RealAll(a + b) == Real(a[0]) + RealAll(a[1..] + b);
      SumAssoc(Real(a[0]), RealAll(a[1..]), RealAll(b));
    }
  }

  lemma RealAllPrefix<V>(pages: Pages<V>, k: nat)
    requires 0 < k <= |pages|
    ensures RealAll(pages[..k]) == RealAll(pages[..k - 1]) + Real(pages[k - 1])
  {
    assert pages[..k] == pages[..k - 1] + [pages[k - 1]];
    RealAllConcat(pages[..k - 1], [pages[k - 1]]);
    assert RealAll([pages[k - 1]]) == Real(pages[k - 1]) + RealAll<V>([]);
  }

  lemma SwapPrefix<T>(w: multiset<T>, w': multiset<T>, o: multiset<T>, o': multiset<T>,
                      n: multiset<T>, n': multiset<T>, tree: multiset<T>)
    requires Balanced(w, o, tree, n)
    requires Balanced(w', o', w, n')
    ensures Balanced(w', o + o', tree, n + n')
  {
    assert w' + (o + o') == (w' + o') + o;
    assert (w + n') + o == (w + o) + n';
    assert (tree + n) + n' == tree + (n + n');
  }

  lemma ReplaceBalanced<V>(tree: Pages<V>, n: nat, page: seq<Block<V>>)
    requires n < |tree|
    ensures Balanced(RealAll(tree[n := page]), Real(tree[n]), RealAll(tree), Real(page))
  {
    RealAllUpdate(tree, n, page);
  }

  lemma NotYetWritten<V>(tree: Pages<V>, path: seq<nat>, pages: Pages<V>, k: nat)
    requires |pages| == |path| && k < |path| && DistinctPath(path, |tree|)
    ensures WriteAll(tree, path, pages, k)[path[k]] == ReadAll(tree, path)[k]
  {
    WritePathFrame(tree, path, pages, k);
    assert path[k] !in path[..k];
  }

  lemma WriteOneMore<V>(tree: Pages<V>, path: seq<nat>, pages: Pages<V>, before: Pages<V>, k: nat)
    requires |pages| == |path| == |before| && k < |path|
    requires forall d :: 0 <= d < |path| ==> path[d] < |tree|
    requires WriteAll(tree, path, pages, k)[path[k]] == before[k]
    requires Balanced(RealAll(WriteAll(tree, path, pages, k)), RealAll(before[..k]), RealAll(tree), RealAll(pages[..k]))
    ensures Balanced(RealAll(WriteAll(tree, path, pages, k + 1)), RealAll(before[..k + 1]),
                     RealAll(tree), RealAll(pages[..k + 1]))
  {
    hide Real, RealAll, Balanced;
    var w := WriteAll(tree, path, pages, k);
    ReplaceBalanced(w, path[k], pages[k]);
    RealAllPrefix(before, k + 1);
    RealAllPrefix(pages, k + 1);
    SwapPrefix(RealAll(w), RealAll(w[path[k] := pages[k]]), RealAll(before[..k]), Real(before[k]),
               RealAll(pages[..k]), Real(pages[k]), RealAll(tree));
  }

  /** Exchanging the pages of a path exchanges their real blocks and nothing else. */
  lemma {:induction false} WritePathContents<V>(tree: Pages<V>, path: seq<nat>, pages: Pages<V>, k: nat)
    requires |pages| == |path| && k <= |path| && DistinctPath(path, |tree|)
    ensures Balanced(RealAll(WriteAll(tree, path, pages, k)), RealAll(ReadAll(tree, path)[..k]),
                     RealAll(tree), RealAll(pages[..k]))
  {
    hide Real, RealAll, Balanced;
    if k == 0 {
      NothingWritten(tree, ReadAll(tree, path), pages);
    } else {
      WritePathContents(tree, path, pages, k - 1);
      NotYetWritten(tree, path, pages, k - 1);
      WriteOneMore(tree, path, pages, ReadAll(tree, path), k - 1);
    }
  }

  lemma NothingWritten<V>(tree: Pages<V>, before: Pages<V>, pages: Pages<V>)
    ensures Balanced(RealAll(tree), RealAll(before[..0]), RealAll(tree), RealAll(pages[..0]))
  {
    assert before[..0] == pages[..0] == [];
  }

  lemma WholePathContents<V>(tree: Pages<V>, path: seq<nat>, pages: Pages<V>)
    requires |pages| == |path| && DistinctPath(path, |tree|)
    ensures RealAll(WriteAll(tree, path, pages, |path|)) + RealAll(ReadAll(tree, path)) ==
            RealAll(tree) + RealAll(pages)
  {
    hide WriteAll, RealAll;
    WritePathContents(tree, path, pages, |path|);
    assert pages[..|path|] == pages;
    assert ReadAll(tree, path)[..|path|] == ReadAll(tree, path);
  }

  /** Rewriting a path with its own pages changes nothing. */
  lemma {:induction false} RewriteUnchanged<T>(tree: seq<T>, path: seq<nat>, pages: seq<T>, k: nat)
    requires |pages| == |path| && k <= |path|
    requires forall d :: 0 <= d < |path| ==> path[d] < |tree| && pages[d] == tree[path[d]]
    ensures WriteAll(tree, path, pages, k) == tree
  {
    if k > 0 {
      RewriteUnchanged(tree, path, pages, k - 1);
    }
  }

  /** A path exchange keeps the shape and placement of the tree when every real block of the new
      pages may sit at its depth. */
  lemma WritePathPlaced<V>(p: OramParams, tree: Pages<V>, leaf: nat, pages: Pages<V>)
    requires p.Valid() && leaf < p.leaves && TreeShape(p, tree) && Placed(p, tree)
    requires |pages| == p.Height()
    requires forall d {:trigger pages[d]} :: 0 <= d < |pages| ==> |pages[d]| == p.bucketSize
    requires forall d, j {:trigger pages[d][j]} ::
               0 <= d < |pages| && 0 <= j < |pages[d]| && pages[d][j].occupied ==>
                 pages[d][j].leaf < p.leaves && p.NodeIndex(d, leaf) == p.NodeIndex(d, pages[d][j].leaf)
    ensures DistinctPath(p.PathNodes(leaf), |tree|)
    ensures var after := WriteAll(tree, p.PathNodes(leaf), pages, p.Height());
            TreeShape(p, after) && Placed(p, after)
  {
    PathIsDistinct(p, leaf);
    var path := p.PathNodes(leaf);
    var after: Pages<V> := WriteAll(tree, path, pages, p.Height());
    WritePathFrame(tree, path, pages, p.Height());
    assert path[..p.Height()] == path;
    forall n | 0 <= n < |after|
      ensures |after[n]| == p.bucketSize
      ensures forall j :: 0 <= j < |after[n]| && after[n][j].occupied ==>
                after[n][j].leaf < p.leaves && n in p.PathNodes(after[n][j].leaf)
    {
      if n in path {
        var d :| 0 <= d < |path| && path[d] == n;
        assert after[n] == pages[d];
        forall j | 0 <= j < |after[n]| && after[n][j].occupied
          ensures after[n][j].leaf < p.leaves && n in p.PathNodes(after[n][j].leaf)
        {
          assert p.PathNodes(pages[d][j].leaf)[d] == n;
        }
      } else {
        assert after[n] == tree[n];
      }
    }
  }

  /** On a placed tree, the block at depth `d` of a path may sit at that depth. */
  lemma PathBlockFits<V>(p: OramParams, tree: Pages<V>, leaf: nat, d: nat, j: nat)
    requires p.Valid() && leaf < p.leaves && TreeShape(p, tree) && Placed(p, tree)
    requires d < p.Height() && j < p.bucketSize
    requires p.NodeIndex(d, leaf) < |tree| && tree[p.NodeIndex(d, leaf)][j].occupied
    ensures var b := tree[p.NodeIndex(d, leaf)][j];
            b.leaf < p.leaves && p.NodeIndex(d, leaf) == p.NodeIndex(d, b.leaf)
  {
    var b := tree[p.NodeIndex(d, leaf)][j];
    var path := p.PathNodes(b.leaf);
    var e :| 0 <= e < |path| && path[e] == p.NodeIndex(d, leaf);
    NodeDepthUnique(p, d, e, leaf, b.leaf);
  }

  /** Whatever real block carries an id is that id's current block. */
  lemma OnlyCurrent<V(!new)>(c: Config<V>, s: State<V>, mem: seq<V>, b: Block<V>)
    requires Refines(c, s, mem) && b in Contents(s)
    ensures Current(s.pos, mem, b) && Contents(s)[b] == 1
  {
    assert Contents(s)[b] > 0;
  }

  ghost function CurrentBlock<V>(s: State<V>, mem: seq<V>, id: nat): Block<V>
    requires id < |s.pos| == |mem|
  {
    Block(true, id, s.pos[id], mem[id])
  }

  /** Fetching moves the target from its path to the stash, or finds it already there. */
  lemma FetchEffect<V(!new)>(c: Config<V>, s: State<V>, mem: seq<V>, id: nat)
    requires Refines(c, s, mem) && id < c.params.logicalBlocks
    ensures var r := Fetch(c, s.stash, s.tree, s.pos[id], id);
            var cur := CurrentBlock(s, mem, id);
            && (r.Err? <==> cur in RealAll(s.tree) && Occupancy(s) == c.params.stashCapacity)
            && (r.Err? ==> r.error == StashOverflow)
            && (r.Ok? ==>
                  && Real(r.value.0) + RealAll(r.value.1) == Contents(s)
                  && cur in Real(r.value.0)
                  && |Real(r.value.0)| <= Occupancy(s) + 1
                  && Placed(c.params, r.value.1))
  {
    var path := c.params.PathNodes(s.pos[id]);
    PathIsDistinct(c.params, s.pos[id]);
    var before := ReadAll(s.tree, path);
    var (pages, taken) := TakeFromPath(before, id, c.zero);
    var cur := CurrentBlock(s, mem, id);
    TakenIsCurrent(c, s, mem, id);
    FetchPlaced(c, s, s.pos[id], id);
    var tree' := WriteAll(s.tree, path, pages, |path|);
    assert RealAll(tree') + Optional(taken) == RealAll(s.tree) by {
      TakeFromPathEffect(before, id, c.zero);
      WholePathContents(s.tree, path, pages);
      CancelPages(RealAll(tree'), RealAll(before), RealAll(s.tree), RealAll(pages), Optional(taken));
    }
    FetchIntoStash(s.stash, taken, cur, RealAll(tree'), RealAll(s.tree));
  }

  lemma FetchIntoStash<V>(stash: seq<Block<V>>, taken: Option<Block<V>>, cur: Block<V>,
                          tree': multiset<Block<V>>, tree: multiset<Block<V>>)
    requires cur.occupied && tree' + Optional(taken) == tree
    requires taken.Some? ==> taken.value == cur
    requires taken.None? ==> cur in Real(stash)
    ensures var r := if taken.Some? then InsertFree(stash, taken.value) else Some(stash);
            && (r.None? <==> taken.Some? && |Real(stash)| == |stash|)
            && (r.Some? ==>
                  && Real(r.value) + tree' == Real(stash) + tree
                  && cur in Real(r.value)
                  && |Real(r.value)| <= |Real(stash)| + 1)
  {
    OccupancyBound(stash);
    if taken.Some? {
      InsertFreeAddsOne(stash, cur);
      assert (Real(stash) + multiset{cur}) + tree' == Real(stash) + (tree' + multiset{cur});
    }
  }

  lemma CancelPages<T>(after: multiset<T>, replaced: multiset<T>, tree: multiset<T>, added: multiset<T>,
                       gone: multiset<T>)
    requires after + replaced == tree + added
    requires added + gone == replaced
    ensures after + gone == tree
  {
    assert (after + gone) + added == tree + added;
    forall x
      ensures (after + gone)[x] == tree[x]
    {
      assert ((after + gone) + added)[x] == (tree + added)[x];
    }
  }

  lemma FetchPlaced<V>(c: Config<V>, s: State<V>, leaf: nat, id: nat)
    requires WellFormed(c, s) && Placed(c.params, s.tree) && leaf < c.params.leaves
    ensures DistinctPath(c.params.PathNodes(leaf), |s.tree|)
    ensures var path := c.params.PathNodes(leaf);
            var pages := TakeFromPath(ReadAll(s.tree, path), id, c.zero).0;
            var after := WriteAll(s.tree, path, pages, |path|);
            TreeShape(c.params, after) && Placed(c.params, after)
  {
    var p := c.params;
    PathIsDistinct(p, leaf);
    var path := p.PathNodes(leaf);
    var before := ReadAll(s.tree, path);
    var pages: Pages<V> := TakeFromPath(before, id, c.zero).0;
    TakeFromPathEffect(before, id, c.zero);
    forall d | 0 <= d < |pages|
      ensures |pages[d]| == p.bucketSize
      ensures forall j :: 0 <= j < |pages[d]| && pages[d][j].occupied ==>
                pages[d][j].leaf < p.leaves && p.NodeIndex(d, leaf) == p.NodeIndex(d, pages[d][j].leaf)
    {
      assert before[d] == s.tree[path[d]];
      forall j | 0 <= j < |pages[d]| && pages[d][j].occupied
        ensures pages[d][j].leaf < p.leaves && p.NodeIndex(d, leaf) == p.NodeIndex(d, pages[d][j].leaf)
      {
        PathBlockFits(p, s.tree, leaf, d, j);
      }
    }
    WritePathPlaced(p, s.tree, leaf, pages);
  }

  /** A real block of a placed tree is on the path its label names. */
  lemma TreeBlockOnPath<V>(p: OramParams, tree: Pages<V>, b: Block<V>) returns (d: nat, j: nat)
    requires p.Valid() && b.leaf < p.leaves && TreeShape(p, tree) && Placed(p, tree)
    requires b in RealAll(tree)
    ensures DistinctPath(p.PathNodes(b.leaf), |tree|)
    ensures var pages := ReadAll(tree, p.PathNodes(b.leaf));
            d < |pages| && j < |pages[d]| && pages[d][j] == b && b.occupied
  {
    PathIsDistinct(p, b.leaf);
    var path := p.PathNodes(b.leaf);
    var n, k := RealAllWitness(tree, b);
    assert tree[n][k].occupied;
    var e :| 0 <= e < |path| && path[e] == n;
    d, j := e, k;
  }

  /** The path scan finds the current block exactly when the tree holds it. */
  lemma TakenIsCurrent<V(!new)>(c: Config<V>, s: State<V>, mem: seq<V>, id: nat)
    requires Refines(c, s, mem) && id < c.params.logicalBlocks
    ensures DistinctPath(c.params.PathNodes(s.pos[id]), |s.tree|)
    ensures var cur := CurrentBlock(s, mem, id);
            var taken := TakeFromPath(ReadAll(s.tree, c.params.PathNodes(s.pos[id])), id, c.zero).1;
            && (taken.Some? ==> taken.value == cur && cur in RealAll(s.tree))
            && (taken.None? ==> cur !in RealAll(s.tree) && cur in Real(s.stash))
  {
    var p := c.params;
    var path := p.PathNodes(s.pos[id]);
    PathIsDistinct(p, s.pos[id]);
    var before := ReadAll(s.tree, path);
    var taken := TakeFromPath(before, id, c.zero).1;
    var cur := CurrentBlock(s, mem, id);
    TakeFromPathEffect(before, id, c.zero);
    if taken.Some? {
      assert taken.value in RealAll(before);
      var d, j := RealAllWitness(before, taken.value);
      RealAllMember(s.tree, path[d], j);
      OnlyCurrent(c, s, mem, taken.value);
    } else {
      TakeFromPathMisses(before, id, c.zero);
      assert Contents(s)[cur] == 1;
      if cur in RealAll(s.tree) {
        var d, j := TreeBlockOnPath(c.params, s.tree, cur);
      }
    }
  }

  lemma {:induction false} ScanFindsUnique<V>(stash: seq<Block<V>>, id: nat, k: nat)
    requires k < |stash| && Holds(stash[k], id)
    requires forall i :: 0 <= i < |stash| && Holds(stash[i], id) ==> i == k
    ensures ScanPayload(stash, id) == Some(stash[k].payload)
    decreases |stash|
  {
    var n := |stash| - 1;
    if k < n {
      ScanFindsUnique(stash[..n], id, k);
    }
  }

  /** In a stash whose only block with this id is `cur`, the scan selects `cur` and the restamp
      exchanges it for the updated block. */
  lemma RestampEffect<V>(stash: seq<Block<V>>, cur: Block<V>, leaf: nat, payload: V)
    requires cur in Real(stash) && Real(stash)[cur] <= 1
    requires forall b :: b in Real(stash) && b.id == cur.id ==> b == cur
    ensures ScanPayload(stash, cur.id) == Some(cur.payload)
    ensures Real(Restamp(stash, cur.id, leaf, payload)) + multiset{cur} ==
            Real(stash) + multiset{Block(true, cur.id, leaf, payload)}
  {
    var k := RealWitness(stash, cur);
    forall i | 0 <= i < |stash| && Holds(stash[i], cur.id)
      ensures i == k
    {
      RealMember(stash, i);
      if i != k {
        RealPair(stash, i, k);
      }
    }
    ScanFindsUnique(stash, cur.id, k);
    var updated := Block(true, cur.id, leaf, payload);
    assert Restamp(stash, cur.id, leaf, payload) == stash[k := updated];
    RealUpdate(stash, k, updated);
  }

  /** An access by cases: which check fails first, or the state when none does. */
  lemma AccessCases<V>(c: Config<V>, s: State<V>, id: nat, update: V -> V)
    requires WellFormed(c, s)
    ensures id >= c.params.logicalBlocks ==> Access(c, s, id, update) == Err(InvalidInput)
    ensures id < c.params.logicalBlocks ==>
              var fetched := Fetch(c, s.stash, s.tree, s.pos[id], id);
              && (fetched.Err? ==> Access(c, s, id, update) == Err(fetched.error))
              && (fetched.Ok? ==>
                    var (stash, tree) := fetched.value;
                    var found := ScanPayload(stash, id);
                    && (found.None? ==> Access(c, s, id, update) == Err(BlockNotFound(id)))
                    && (found.Some? && s.sched.Record().Err? ==>
                          Access(c, s, id, update) == Err(s.sched.Record().error))
                    && (found.Some? && s.sched.Record().Ok? ==>
                          var leaf := RandomLeaf(c, s.rng);
                          Access(c, s, id, update) ==
                          Ok((found.value,
                              State(s.pos[id := leaf], Restamp(stash, id, leaf, update(found.value)), tree,
                                    s.rng + 1, s.sched.Record().value)))))
  {
    hide Fetch, ScanPayload, Restamp;
  }

  /** The state after an access whose target is in the stash. */
  lemma AccessedState<V(!new)>(c: Config<V>, s: State<V>, id: nat, update: V -> V, v: V)
    requires WellFormed(c, s) && id < c.params.logicalBlocks && s.sched.Record().Ok?
    requires Fetch(c, s.stash, s.tree, s.pos[id], id).Ok?
    requires ScanPayload(Fetch(c, s.stash, s.tree, s.pos[id], id).value.0, id) == Some(v)
    ensures var (stash, tree) := Fetch(c, s.stash, s.tree, s.pos[id], id).value;
            var leaf := RandomLeaf(c, s.rng);
            Access(c, s, id, update) ==
            Ok((v, State(s.pos[id := leaf], Restamp(stash, id, leaf, update(v)), tree, s.rng + 1,
                         s.sched.Record().value)))
  {
    hide Access, Fetch, ScanPayload, Restamp;
    AccessCases(c, s, id, update);
  }

  /** The second half of an access, once the target is in the stash. */
  lemma RestampRefines<V(!new)>(c: Config<V>, s: State<V>, mem: seq<V>, id: nat, update: V -> V)
    requires Refines(c, s, mem) && id < c.params.logicalBlocks
    requires s.sched.Record().Ok? && Fetch(c, s.stash, s.tree, s.pos[id], id).Ok?
    ensures var r := Access(c, s, id, update);
            && r.Ok? && r.value.0 == mem[id]
            && Refines(c, r.value.1, mem[id := update(mem[id])])
            && Occupancy(r.value.1) <= Occupancy(s) + 1
  {
    hide Access, Fetch, Placed, Real, RealAll, Restamp, ScanPayload;
    var cur := CurrentBlock(s, mem, id);
    FetchEffect(c, s, mem, id);
    FetchedUnique(c, s, mem, id);
    var (stash, tree) := Fetch(c, s.stash, s.tree, s.pos[id], id).value;
    var leaf := RandomLeaf(c, s.rng);
    var cur' := Block(true, id, leaf, update(mem[id]));
    RestampEffect(stash, cur, leaf, update(mem[id]));
    AccessedState(c, s, id, update, mem[id]);
    var s' := Access(c, s, id, update).value.1;
    SameCard(Real(s'.stash), Real(stash), cur, cur');
    ExchangeInSum(Real(s'.stash), Real(stash), RealAll(tree), cur, cur');
    RelabelCurrent(c, s, s', mem, id, leaf, update(mem[id]));
  }

  lemma FetchedUnique<V(!new)>(c: Config<V>, s: State<V>, mem: seq<V>, id: nat)
    requires Refines(c, s, mem) && id < c.params.logicalBlocks
    requires Fetch(c, s.stash, s.tree, s.pos[id], id).Ok?
    ensures var cur := CurrentBlock(s, mem, id);
            var stash := Fetch(c, s.stash, s.tree, s.pos[id], id).value.0;
            && cur in Real(stash) && Real(stash)[cur] <= 1
            && ScanPayload(stash, id) == Some(mem[id])
            && forall b :: b in Real(stash) && b.id == id ==> b == cur
  {
    var cur := CurrentBlock(s, mem, id);
    FetchEffect(c, s, mem, id);
    var (stash, tree) := Fetch(c, s.stash, s.tree, s.pos[id], id).value;
    forall b | b in Real(stash) && b.id == id
      ensures b == cur
    {
      assert b in Real(stash) + RealAll(tree);
      OnlyCurrent(c, s, mem, b);
    }
    assert Contents(s)[cur] == 1;
    assert (Real(stash) + RealAll(tree))[cur] == Real(stash)[cur] + RealAll(tree)[cur];
    RestampEffect(stash, cur, 0, cur.payload);
  }

  /** Exact behaviour of one access against the plain array. It overflows precisely when the target
      is in the tree and the stash is full; otherwise it returns the array's value, the new state
      stands for the updated array, and the stash grows by at most one block. */
  lemma AccessRefinesArray<V(!new)>(c: Config<V>, s: State<V>, mem: seq<V>, id: nat, update: V -> V)
    requires Refines(c, s, mem) && id < c.params.logicalBlocks
    ensures var r := Access(c, s, id, update);
            && (r.Err? <==>
                  || (CurrentBlock(s, mem, id) in RealAll(s.tree) && Occupancy(s) == c.params.stashCapacity)
                  || s.sched.Record().Err?)
            && (r.Err? ==> r == Err(StashOverflow) || r == Err(InvalidInput))
            && (r == Err(StashOverflow) ==> Occupancy(s) == c.params.stashCapacity)
            && (r == Err(InvalidInput) ==> s.sched.Record().Err?)
            && (r.Ok? ==>
                  && r.value.0 == mem[id]
                  && Refines(c, r.value.1, mem[id := update(mem[id])])
                  && Occupancy(r.value.1) <= Occupancy(s) + 1
                  && r.value.1.rng == s.rng + 1
                  && r.value.1.sched == s.sched.Record().value)
  {
    FetchEffect(c, s, mem, id);
    if Fetch(c, s.stash, s.tree, s.pos[id], id).Ok? {
      FetchedUnique(c, s, mem, id);
      if s.sched.Record().Ok? {
        RestampRefines(c, s, mem, id, update);
      }
    }
  }

  lemma SameCard<T>(a': multiset<T>, a: multiset<T>, x: T, y: T)
    requires a' + multiset{x} == a + multiset{y}
    ensures |a'| == |a|
  {
    assert |a' + multiset{x}| == |a + multiset{y}|;
  }

  lemma ExchangeInSum<T>(a': multiset<T>, a: multiset<T>, rest: multiset<T>, x: T, y: T)
    requires a' + multiset{x} == a + multiset{y}
    ensures (a' + rest) + multiset{x} == (a + rest) + multiset{y}
  {
    assert (a' + rest) + multiset{x} == (a' + multiset{x}) + rest;
    assert (a + rest) + multiset{y} == (a + multiset{y}) + rest;
  }

  /** Exchanging one id's current block for its successor leaves exactly the current blocks. */
  lemma RelabelCurrent<V(!new)>(c: Config<V>, s: State<V>, s': State<V>, mem: seq<V>, id: nat, leaf: nat, v: V)
    requires Refines(c, s, mem) && id < c.params.logicalBlocks && leaf < c.params.leaves
    requires s'.pos == s.pos[id := leaf]
    requires WellFormed(c, s') && Placed(c.params, s'.tree)
    requires Contents(s') + multiset{CurrentBlock(s, mem, id)} == Contents(s) + multiset{Block(true, id, leaf, v)}
    ensures Refines(c, s', mem[id := v])
  {
    var cur, cur' := CurrentBlock(s, mem, id), Block(true, id, leaf, v);
    var mem' := mem[id := v];
    forall b: Block<V>
      ensures Contents(s')[b] == if Current(s'.pos, mem', b) then 1 else 0
    {
      assert (Contents(s') + multiset{cur})[b] == (Contents(s) + multiset{cur'})[b];
      assert Contents(s)[b] == if Current(s.pos, mem, b) then 1 else 0;
      assert b.occupied && b.id == id && Current(s.pos, mem, b) ==> b == cur;
      assert b.occupied && b.id == id && Current(s'.pos, mem', b) ==> b == cur';
    }
  }

  /** Dummies change no value and fail exactly when the access counter is exhausted, never for lack of
      stash. */
  lemma DummyRefinesArray<V(!new)>(c: Config<V>, s: State<V>, mem: seq<V>)
    requires Refines(c, s, mem)
    ensures DummyAccess(c, s).Err? <==> s.sched.issued == U64_MAX
    ensures DummyAccess(c, s).Err? ==> DummyAccess(c, s) == Err(InvalidInput)
    ensures DummyAccess(c, s).Ok? ==>
              && Refines(c, DummyAccess(c, s).value, mem)
              && Occupancy(DummyAccess(c, s).value) == Occupancy(s)
              && DummyAccess(c, s).value.sched == s.sched.(issued := s.sched.issued + 1)
  {
    if DummyAccess(c, s).Ok? {
      var s' := DummyAccess(c, s).value;
      assert Contents(s') == Contents(s);
    }
  }
}
