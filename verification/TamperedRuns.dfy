/** Whole runs of the controller over authenticated trees, the stored pages of which may be replaced
    before every request (src/circuit.rs over src/embedded_tree.rs). */
module TamperedRuns {
  import opened Common
  import opened Blocks
  import opened PageStores
  import opened OramSpec
  import opened SplitStores
  import opened OramRuns
  import opened RequestedPaths
  import opened EmbeddedSpec
  import opened TrustedPaths
  import opened AuthenticatedOram

  /** The stored pages put before one of the requests include one that differs from the page the specified
      run has trusted at that moment, and has its digest. */
  ghost predicate ForgedInRun<V>(metaHash: PageHash<seq<Slot>>, payloadHash: PageHash<seq<V>>, c: Config<V>,
                                 s: State<V>, ops: seq<Op<V>>, metaImages: seq<seq<Page<seq<Slot>>>>,
                                 payloadImages: seq<seq<Page<seq<V>>>>)
    requires WellFormed(c, s) && |metaImages| == |payloadImages| == |ops|
    decreases |ops|
  {
    && ops != []
    && (|| ForgedAgainst(metaHash, payloadHash, s.tree, metaImages[0], payloadImages[0])
        || (&& Step(c, s, ops[0]).Ok?
            && ForgedInRun(metaHash, payloadHash, c, Step(c, s, ops[0]).value.1, ops[1..], metaImages[1..],
                           payloadImages[1..])))
  }

  /** A stored page is not the page the two stores of `tree` hold there, yet has its digest. */
  ghost predicate ForgedAgainst<V>(metaHash: PageHash<seq<Slot>>, payloadHash: PageHash<seq<V>>, tree: Pages<V>,
                                   metaImage: seq<Page<seq<Slot>>>, payloadImage: seq<Page<seq<V>>>)
  {
    ForgedAt(metaHash, MetaOf(tree), metaImage) || ForgedAt(payloadHash, PayloadOf(tree), payloadImage)
  }

  /** The specified run reaches request `i`, and the pages put before it are forged against its state. */
  ghost predicate ForgedBefore<V>(metaHash: PageHash<seq<Slot>>, payloadHash: PageHash<seq<V>>, c: Config<V>,
                                  s: State<V>, ops: seq<Op<V>>, metaImages: seq<seq<Page<seq<Slot>>>>,
                                  payloadImages: seq<seq<Page<seq<V>>>>, i: nat)
    requires WellFormed(c, s) && |metaImages| == |payloadImages| == |ops|
  {
    && i < |ops| && Run(c, s, ops[..i]).Ok?
    && ForgedAgainst(metaHash, payloadHash, Run(c, s, ops[..i]).value.1.tree, metaImages[i], payloadImages[i])
  }

  /** A forgery in a run is one before a request the specified run reaches. */
  lemma {:induction false} ForgedMeaning<V>(metaHash: PageHash<seq<Slot>>, payloadHash: PageHash<seq<V>>, c: Config<V>,
                                           s: State<V>, ops: seq<Op<V>>, metaImages: seq<seq<Page<seq<Slot>>>>,
                                           payloadImages: seq<seq<Page<seq<V>>>>)
    requires WellFormed(c, s) && |metaImages| == |payloadImages| == |ops|
    ensures ForgedInRun(metaHash, payloadHash, c, s, ops, metaImages, payloadImages) <==>
            exists i :: ForgedBefore(metaHash, payloadHash, c, s, ops, metaImages, payloadImages, i)
    decreases |ops|
  {
    hide Step, ForgedAgainst;
    if ops != [] {
      assert ops[..0] == [];
      if Step(c, s, ops[0]).Ok? {
        var s' := Step(c, s, ops[0]).value.1;
        ForgedMeaning(metaHash, payloadHash, c, s', ops[1..], metaImages[1..], payloadImages[1..]);
        if i :| ForgedBefore(metaHash, payloadHash, c, s', ops[1..], metaImages[1..], payloadImages[1..], i) {
          ForgedLater(metaHash, payloadHash, c, s, ops, metaImages, payloadImages, i);
        }
        if i :| i > 0 && ForgedBefore(metaHash, payloadHash, c, s, ops, metaImages, payloadImages, i) {
          ForgedLater(metaHash, payloadHash, c, s, ops, metaImages, payloadImages, i - 1);
        }
      }
      if ForgedAgainst(metaHash, payloadHash, s.tree, metaImages[0], payloadImages[0]) {
        assert ForgedBefore(metaHash, payloadHash, c, s, ops, metaImages, payloadImages, 0);
      }
    }
  }

  /** Under hash functions without collisions no run meets a forgery, whatever pages are put in place. */
  lemma {:induction false} InjectiveRunsSafely<V(!new)>(metaHash: PageHash<seq<Slot>>, payloadHash: PageHash<seq<V>>,
                                                       c: Config<V>, s: State<V>, ops: seq<Op<V>>,
                                                       metaImages: seq<seq<Page<seq<Slot>>>>,
                                                       payloadImages: seq<seq<Page<seq<V>>>>)
    requires WellFormed(c, s) && |metaImages| == |payloadImages| == |ops|
    requires Injective(metaHash) && Injective(payloadHash)
    ensures !ForgedInRun(metaHash, payloadHash, c, s, ops, metaImages, payloadImages)
    decreases |ops|
  {
    hide Step, ForgedAt, Injective;
    if ops != [] {
      InjectiveForgesNothing(metaHash, MetaOf(s.tree), metaImages[0]);
      InjectiveForgesNothing(payloadHash, PayloadOf(s.tree), payloadImages[0]);
      if Step(c, s, ops[0]).Ok? {
        InjectiveRunsSafely(metaHash, payloadHash, c, Step(c, s, ops[0]).value.1, ops[1..], metaImages[1..],
                            payloadImages[1..]);
      }
    }
  }

  lemma ForgedLater<V>(metaHash: PageHash<seq<Slot>>, payloadHash: PageHash<seq<V>>, c: Config<V>, s: State<V>,
                       ops: seq<Op<V>>, metaImages: seq<seq<Page<seq<Slot>>>>, payloadImages: seq<seq<Page<seq<V>>>>,
                       i: nat)
    requires WellFormed(c, s) && |metaImages| == |payloadImages| == |ops| && ops != [] && Step(c, s, ops[0]).Ok?
    ensures ForgedBefore(metaHash, payloadHash, c, s, ops, metaImages, payloadImages, i + 1) <==>
            ForgedBefore(metaHash, payloadHash, c, Step(c, s, ops[0]).value.1, ops[1..], metaImages[1..],
                         payloadImages[1..], i)
  {
    hide Step, ForgedAgainst;
    if i + 1 < |ops| {
      assert ops[..i + 1][0] == ops[0] && ops[..i + 1][1..] == ops[1..][..i];
    }
  }

  /** One request, whatever the stores hold. */
  method Serve<V(==)>(oram: AuthenticatedCircuitOram<V>, op: Op<V>) returns (r: Result<seq<V>>, ghost asked: Traffic)
    requires oram.Valid()
    modifies oram, oram.posMap, oram.stash, oram.schedule, oram.metaTree, oram.payloadTree,
             oram.metaTree.inner.pages, oram.payloadTree.inner.pages
    ensures var spec := Step(oram.Cfg(), old(oram.View()), op);
            && (r.Ok? ==>
                  old(oram.Forged()) || (&& spec.Ok? && oram.Valid() && r.value == spec.value.0
                                         && oram.View() == spec.value.1
                                         && asked == ThereAndBack(oram.params,
                                                                  Shown(oram.Cfg(), old(oram.View()), op))))
            && (old(oram.Intact()) ==>
                  !old(oram.Forged()) && (r.Ok? <==> spec.Ok?) && (r.Ok? ==> oram.Valid() && oram.Intact()))
  {
    hide ForgedAt, RefPage, ThereAndBack, BatchShown, DummyShown, DrainShown;
    NothingForged(oram);
    match op {
      case Single(id, f) =>
        var output;
        output, asked := oram.Access(id, f);
        if output.Err? { return Err(output.error), asked; }
        return Ok([output.value]), asked;
      case Batch(ids, g) =>
        r, asked := oram.AccessBatch(ids, g);
      case Dummy =>
        var done;
        done, asked := oram.DummyAccess();
        if done.Err? { return Err(done.error), asked; }
        return Ok([]), asked;
      case DummyBatch(count) =>
        var done;
        done, asked := oram.DummyAccessBatch(count);
        if done.Err? { return Err(done.error), asked; }
        return Ok([]), asked;
      case DrainBudget(budget) =>
        var done;
        done, asked := oram.DrainEvictions(budget);
        if done.Err? { return Err(done.error), asked; }
        return Ok([]), asked;
    }
  }

  lemma NothingForged<V>(oram: AuthenticatedCircuitOram<V>)
    ensures oram.Intact() ==> !oram.Forged()
  {
    hide RefPage;
  }

  /** A run during which anyone replaces all stored pages before every request. Unless a page so put in
      place is forged against what the run then trusts, a completed run has the outputs and the final
      state of the run on trusted stores. */
  method ServeTampered<V(==,!new)>(oram: AuthenticatedCircuitOram<V>, ops: seq<Op<V>>,
                                   metaImages: seq<seq<Page<seq<Slot>>>>, payloadImages: seq<seq<Page<seq<V>>>>)
    returns (r: Result<seq<V>>, ghost traffic: seq<Traffic>)
    requires oram.Valid() && |metaImages| == |payloadImages| == |ops|
    requires forall i :: 0 <= i < |ops| ==> |metaImages[i]| == oram.metaTree.inner.pages.Length
    requires forall i :: 0 <= i < |ops| ==> |payloadImages[i]| == oram.payloadTree.inner.pages.Length
    requires !ForgedInRun(oram.metaTree.hash, oram.payloadTree.hash, oram.Cfg(), oram.View(), ops, metaImages,
                          payloadImages)
    modifies oram, oram.posMap, oram.stash, oram.schedule, oram.metaTree, oram.payloadTree,
             oram.metaTree.inner.pages, oram.payloadTree.inner.pages
    ensures var spec := Run(oram.Cfg(), old(oram.View()), ops);
            r.Ok? ==>
              && spec.Ok? && oram.Valid() && r.value == spec.value.0 && oram.View() == spec.value.1
              && traffic == RunTraffic(oram.Cfg(), old(oram.View()), ops)
    decreases |ops|
  {
    hide ForgedAt, Step, RefPage, Shown, ThereAndBack, MetaOf, PayloadOf, JoinAll;
    if ops == [] {
      return Ok([]), [];
    }
    Replace(oram.metaTree.inner.pages, metaImages[0]);
    Replace(oram.payloadTree.inner.pages, payloadImages[0]);
    SplitJoined(oram.metas, oram.payloads);
    var first, rest;
    ghost var asked, later;
    first, asked := Serve(oram, ops[0]);
    if first.Err? {
      return Err(first.error), [];
    }
    rest, later := ServeTampered(oram, ops[1..], metaImages[1..], payloadImages[1..]);
    if rest.Err? {
      return Err(rest.error), [];
    }
    return Ok(first.value + rest.value), [asked] + later;
  }

  /** The same run over an image that stands for an array: a completed run answers as the array. */
  method ServeTamperedArray<V(==,!new)>(oram: AuthenticatedCircuitOram<V>, ops: seq<Op<V>>,
                                        metaImages: seq<seq<Page<seq<Slot>>>>, payloadImages: seq<seq<Page<seq<V>>>>,
                                        ghost mem: seq<V>)
    returns (r: Result<seq<V>>, ghost traffic: seq<Traffic>)
    requires oram.Valid() && Refines(oram.Cfg(), oram.View(), mem) && |metaImages| == |payloadImages| == |ops|
    requires forall i :: 0 <= i < |ops| ==> IdsInRange(ops[i], oram.params.logicalBlocks)
    requires forall i :: 0 <= i < |ops| ==> |metaImages[i]| == oram.metaTree.inner.pages.Length
    requires forall i :: 0 <= i < |ops| ==> |payloadImages[i]| == oram.payloadTree.inner.pages.Length
    requires !ForgedInRun(oram.metaTree.hash, oram.payloadTree.hash, oram.Cfg(), oram.View(), ops, metaImages,
                          payloadImages)
    modifies oram, oram.posMap, oram.stash, oram.schedule, oram.metaTree, oram.payloadTree,
             oram.metaTree.inner.pages, oram.payloadTree.inner.pages
    ensures r.Ok? ==> r.value == ArrayRun(mem, ops).0
    ensures r.Ok? ==>
              && Run(oram.Cfg(), old(oram.View()), ops).Ok?
              && traffic == RunTraffic(oram.Cfg(), old(oram.View()), ops)
    ensures r.Ok? ==> oram.Valid() && Refines(oram.Cfg(), oram.View(), ArrayRun(mem, ops).1)
  {
    hide ForgedInRun, Refines, Run, RunTraffic, ArrayRun, Occupancy;
    RunRefinesArray(oram.Cfg(), oram.View(), mem, ops);
    r, traffic := ServeTampered(oram, ops, metaImages, payloadImages);
  }

  /** The same requests while nobody changes the stored pages: the run completes exactly when the run on
      trusted stores does, with its outputs and final state. */
  method ServeUntouched<V(==)>(oram: AuthenticatedCircuitOram<V>, ops: seq<Op<V>>)
    returns (r: Result<seq<V>>, ghost traffic: seq<Traffic>)
    requires oram.Valid() && oram.Intact()
    modifies oram, oram.posMap, oram.stash, oram.schedule, oram.metaTree, oram.payloadTree,
             oram.metaTree.inner.pages, oram.payloadTree.inner.pages
    ensures var spec := Run(oram.Cfg(), old(oram.View()), ops);
            && (r.Ok? <==> spec.Ok?)
            && (r.Ok? ==> oram.Valid() && oram.Intact() && r.value == spec.value.0 && oram.View() == spec.value.1)
            && (r.Ok? ==> traffic == RunTraffic(oram.Cfg(), old(oram.View()), ops))
    decreases |ops|
  {
    hide ForgedAt, Step, RefPage, Shown, ThereAndBack;
    if ops == [] {
      return Ok([]), [];
    }
    var first, rest;
    ghost var asked, later;
    first, asked := Serve(oram, ops[0]);
    if first.Err? {
      return Err(first.error), [];
    }
    rest, later := ServeUntouched(oram, ops[1..]);
    if rest.Err? {
      return Err(rest.error), [];
    }
    return Ok(first.value + rest.value), [asked] + later;
  }
}
