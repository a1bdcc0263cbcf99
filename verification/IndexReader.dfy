/** Dictionary lookups through the ORAM (src/direct.rs, CircuitDirectIndexReader): one bin at a time,
    or all bins of many lookups in one batch. */
module IndexReader {
  import opened Common
  import opened Geometry
  import opened Schedule
  import Spec = OramSpec
  import opened OramRuns
  import opened AccessRefinement
  import opened Controller
  import opened Cuckoo
  import opened DirectIndex

  datatype IndexLookup = IndexLookup(
    selection: Selection,
    candidateBins: seq<nat>,
    logicalBlocks: seq<nat>,
    drainedEvictions: nat)

  /** The counters after `n` block reads, each followed by a drain with the given budget. */
  function AfterReads(k: Counters, budget: nat, n: nat): Counters {
    if n == 0 then k
    else
      var read := AfterReads(k, budget, n - 1);
      AfterDrain(read.(issued := read.issued + 1), budget)
  }

  /** The counters after a drain; without debt nothing is drained. */
  function AfterDrain(k: Counters, budget: nat): Counters {
    k.(completed := k.completed + Owed(k, budget))
  }

  /** The counters after `n` reads in one batch. */
  function AfterBatch(k: Counters, n: nat): Counters {
    k.(issued := k.issued + n)
  }

  /** What a batch of `n` reads drains at most. */
  function BatchBudget(drainPerRead: nat, n: nat): nat {
    drainPerRead * n
  }

  function Owed(k: Counters, budget: nat): nat {
    if DrainedFrom(k, budget) > 0 then DrainedFrom(k, budget) else 0
  }

  /** An update that only reads leaves the array alone. */
  lemma {:induction false} IdentityBatch<V>(mem: seq<V>, ids: seq<nat>, g: (nat, nat, V) -> V, k: nat)
    requires k <= |ids| && forall i :: 0 <= i < |ids| ==> ids[i] < |mem|
    requires forall i: nat, id: nat, v :: g(i, id, v) == v
    ensures ArrayBatch(mem, ids, g, k).1 == mem
    ensures |ArrayBatch(mem, ids, g, k).0| == k
    ensures forall i :: 0 <= i < k ==> ArrayBatch(mem, ids, g, k).0[i] == mem[ids[i]]
    decreases k
  {
    if k > 0 {
      IdentityBatch(mem, ids, g, k - 1);
      assert mem[ids[k - 1] := mem[ids[k - 1]]] == mem;
    }
  }

  class CircuitDirectIndexReader<K(!new, ==)> {
    const table: Table<K>
    const itemsPerBlock: nat
    const oram: CircuitOram<seq<IndexSlot<K>>>
    /** The packed image the ORAM was built over; lookups never change it. */
    ghost const image: seq<seq<IndexSlot<K>>>

    ghost predicate Valid()
      reads this, oram, oram.posMap, oram.stash, oram.metaStore.pages, oram.payloadStore.pages, oram.schedule
    {
      && table.Valid() && ImageShape(table, itemsPerBlock, image)
      && oram.Valid() && oram.params.logicalBlocks == |image|
      && Spec.Refines(oram.Cfg(), oram.View(), image)
    }

    /** Occupied stash slots. */
    ghost function Load(): nat
      requires Valid()
      reads this, oram, oram.posMap, oram.stash, oram.metaStore.pages, oram.payloadStore.pages, oram.schedule
    {
      Spec.Occupancy(oram.View())
    }

    ghost function Counters(): Counters
      requires Valid()
      reads this, oram, oram.posMap, oram.stash, oram.metaStore.pages, oram.payloadStore.pages, oram.schedule
    {
      oram.View().sched
    }

    constructor (table: Table<K>, itemsPerBlock: nat, oram: CircuitOram<seq<IndexSlot<K>>>,
                 ghost image: seq<seq<IndexSlot<K>>>)
      requires table.Valid() && ImageShape(table, itemsPerBlock, image)
      requires oram.Valid() && oram.params.logicalBlocks == |image|
      requires Spec.Refines(oram.Cfg(), oram.View(), image)
      ensures this.table == table && this.itemsPerBlock == itemsPerBlock && this.oram == oram && this.image == image
      ensures Valid()
    {
      this.table, this.itemsPerBlock, this.oram, this.image := table, itemsPerBlock, oram, image;
    }

    /** Reading one block gives the image's block and keeps serving the image. */
    method Read(block: nat) returns (r: Result<seq<IndexSlot<K>>>)
      requires Valid() && block < |image|
      modifies oram`rng, oram.posMap, oram.stash, oram.metaStore.pages, oram.payloadStore.pages, oram.schedule
      ensures r.Ok? ==>
                && Valid() && r.value == image[block] && Load() <= old(Load()) + 1
                && Recorded(old(Counters()), Counters(), 1)
                && Counters() == old(Counters()).(issued := old(Counters()).issued + 1)
      ensures r.Err? ==> r == Err(StashOverflow) || r == Err(InvalidInput)
      ensures r == Err(StashOverflow) ==> old(Load()) + 1 > oram.params.stashCapacity
      ensures r == Err(InvalidInput) ==> old(Counters()).issued == U64_MAX
    {
      hide Spec.Access, Spec.Contents, Spec.Placed, Spec.Current, Spec.Occupancy;
      AccessRefinesArray(oram.Cfg(), oram.View(), image, block, v => v);
      assert image[block := image[block]] == image;
      RecordedMore(oram.View().sched, 1);
      ghost var asked;
      r, asked := oram.Access(block, v => v);
    }

    method ReadBatch(blocks: seq<nat>) returns (r: Result<seq<seq<IndexSlot<K>>>>)
      requires Valid() && forall i :: 0 <= i < |blocks| ==> blocks[i] < |image|
      modifies oram`rng, oram.posMap, oram.stash, oram.metaStore.pages, oram.payloadStore.pages, oram.schedule
      ensures r.Ok? ==>
                && Valid() && Load() <= old(Load()) + |blocks|
                && Recorded(old(Counters()), Counters(), |blocks|)
                && Counters() == old(Counters()).(issued := old(Counters()).issued + |blocks|)
                && |r.value| == |blocks| && forall i :: 0 <= i < |blocks| ==> r.value[i] == image[blocks[i]]
      ensures r.Err? ==> r == Err(StashOverflow) || r == Err(InvalidInput)
      ensures r == Err(StashOverflow) ==> old(Load()) + |blocks| > oram.params.stashCapacity
      ensures r == Err(InvalidInput) ==> old(Counters()).issued + |blocks| > U64_MAX
    {
      hide Spec.AccessAll, Spec.Contents, Spec.Placed, Spec.Current, Spec.Occupancy;
      var keep := (i: nat, id: nat, v: seq<IndexSlot<K>>) => v;
      AccessAllRefinesArray(oram.Cfg(), oram.View(), image, blocks, keep, |blocks|);
      IdentityBatch(image, blocks, keep, |blocks|);
      RecordedMore(oram.View().sched, |blocks|);
      ghost var asked;
      r, asked := oram.AccessBatch(blocks, keep);
    }

    /** Draining keeps serving the image. */
    method Drain(budget: nat) returns (r: Result<nat>)
      requires Valid()
      modifies oram.stash, oram.metaStore.pages, oram.payloadStore.pages, oram.schedule
      ensures r.Ok? ==>
                && Valid() && Load() <= old(Load()) && Recorded(old(Counters()), Counters(), 0)
                && r.value == Owed(old(Counters()), budget) && Counters() == AfterDrain(old(Counters()), budget)
      ensures r.Err? <==> old(Counters()).Pending().Err?
      ensures r.Err? ==> r == Err(InvalidInput)
    {
      hide Spec.Contents, Spec.Placed, Spec.Current, Spec.Occupancy, Spec.DrainEvictions;
      DrainRequestRefinesArray(oram.Cfg(), oram.View(), image, budget);
      ghost var asked;
      r, asked := oram.DrainEvictions(budget);
    }

    /** `n` block reads have been served since load and counters were `load0` and `c0`. */
    ghost predicate Served(load0: nat, c0: Counters, n: nat)
      reads this, oram, oram.posMap, oram.stash, oram.metaStore.pages, oram.payloadStore.pages, oram.schedule
    {
      Valid() && Load() <= load0 + n && Recorded(c0, Counters(), n)
    }

    /** `drained` evictions were completed by the drains after `n` reads. */
    ghost predicate Drained(c0: Counters, budget: nat, n: nat, drained: nat)
      reads this, oram, oram.posMap, oram.stash, oram.metaStore.pages, oram.payloadStore.pages, oram.schedule
    {
      Valid() && Counters() == AfterReads(c0, budget, n) && Counters().completed == c0.completed + drained
    }

    /** Why the read after `n` others may fail: a full stash, or counters without room for it. */
    ghost predicate Failure(error: Error, load0: nat, c0: Counters, n: nat) {
      || (error == StashOverflow && load0 + n > oram.params.stashCapacity)
      || (error == InvalidInput && !(c0.Sound() && c0.Room(n)))
    }

    /** Reads the candidate bins one after the other, each in its own access, and drains after each. It
        fails only when the stash has no room for all of them or the counters have not. */
    method Lookup(scriptHash: K, drainPerRead: nat) returns (r: Result<IndexLookup>)
      requires Valid()
      modifies oram`rng, oram.posMap, oram.stash, oram.metaStore.pages, oram.payloadStore.pages, oram.schedule
      ensures r.Ok? ==> Valid() && Answers(r.value, scriptHash) && Served(old(Load()), old(Counters()), table.hashFns)
      ensures r.Ok? ==>
                && Counters() == AfterReads(old(Counters()), drainPerRead, table.hashFns)
                && r.value.drainedEvictions == Counters().completed - old(Counters()).completed
      ensures r.Err? ==> Failure(r.error, old(Load()), old(Counters()), table.hashFns)
    {
      hide Valid, Served, Drained, Failure, LookupResult, CandidateLocations, Table.Candidates, Table.Ends;
      Shape();
      HasBins();
      ghost var load0, c0 := Load(), Counters();
      NothingServed();
      NothingDrained(drainPerRead);
      var bins := table.CandidateBins(scriptHash);
      ghost var at := CandidateLocations(table, itemsPerBlock, scriptHash);
      LocationsInside(table, itemsPerBlock, image, scriptHash);
      var selection := NOTHING;
      var blocks: seq<nat> := [];
      var drained := 0;
      hide SelectAll, LocatePackedItem, SlotsRead;
      SelectStart(image, at, scriptHash);
      for i := 0 to |bins.value|
        invariant Served(load0, c0, i) && Drained(c0, drainPerRead, i, drained)
        invariant selection == SelectAll(NOTHING, SlotsRead(image, at, i), scriptHash)
        invariant |blocks| == i && forall j :: 0 <= j < i ==> blocks[j] == at[j].block
      {
        var location := LocatePackedItem(table.bins, itemsPerBlock, table.slotsPerBin, bins.value[i]);
        var next := ReadAndSelect(scriptHash, location.value, selection, drainPerRead, load0, c0, i, drained);
        if next.Err? {
          FailureGrows(next.error, load0, c0, i + 1, table.hashFns);
          return Err(next.error);
        }
        SelectBin(image, at, i, scriptHash);
        selection := next.value.0;
        blocks := blocks + [location.value.block];
        drained := drained + next.value.1;
      }
      DrainedIs(c0, drainPerRead, table.hashFns, drained);
      ResultIs(scriptHash, at);
      return Ok(IndexLookup(selection, bins.value, blocks, drained));
    }

    lemma NothingServed()
      requires Valid()
      ensures Served(Load(), Counters(), 0)
    {
    }

    lemma StillValid(load0: nat, c0: Counters, n: nat)
      requires Served(load0, c0, n)
      ensures Valid()
    {
    }

    lemma NothingDrained(budget: nat)
      requires Valid()
      ensures Drained(Counters(), budget, 0, 0)
    {
    }

    lemma DrainedIs(c0: Counters, budget: nat, n: nat, drained: nat)
      requires Drained(c0, budget, n, drained)
      ensures Valid() && Counters() == AfterReads(c0, budget, n) && Counters().completed == c0.completed + drained
    {
    }

    /** A read and a drain more, from the counters `k0` after `n` of them. */
    lemma DrainedOn(c0: Counters, budget: nat, n: nat, already: nat, k0: Counters, drained: nat)
      requires Valid() && k0 == AfterReads(c0, budget, n) && k0.completed == c0.completed + already
      requires var k := k0.(issued := k0.issued + 1);
               Counters() == AfterDrain(k, budget) && drained == Owed(k, budget)
      ensures Drained(c0, budget, n + 1, already + drained)
    {
      hide Owed, Valid;
    }

    lemma FailureGrows(error: Error, load0: nat, c0: Counters, m: nat, n: nat)
      requires m <= n && Failure(error, load0, c0, m)
      ensures Failure(error, load0, c0, n)
    {
      MulMonotone(c0.issued + m, c0.issued + n, c0.rate);
    }

    lemma ResultIs(scriptHash: K, at: seq<Location>)
      requires table.Valid() && table.bins > 0 && ImageShape(table, itemsPerBlock, image)
      requires at == CandidateLocations(table, itemsPerBlock, scriptHash) && AllInside(image, at)
      ensures LookupResult(table, itemsPerBlock, image, scriptHash) ==
              SelectAll(NOTHING, SlotsRead(image, at, table.hashFns), scriptHash)
    {
    }

    lemma Shape()
      requires Valid()
      ensures table.Valid() && ImageShape(table, itemsPerBlock, image) && oram.Shape()
    {
    }

    /** An ORAM has at least one block, so the table behind a reader has at least one bin. */
    lemma HasBins()
      requires Valid()
      ensures table.bins > 0
    {
      if table.bins == 0 {
        NoBlocksForNoBins(itemsPerBlock);
      }
    }

    /** Reads one located bin through the ORAM, folds it into the selection, and drains. */
    method ReadAndSelect(scriptHash: K, at: Location, selection: Selection, drain: nat,
                         ghost load0: nat, ghost c0: Counters, ghost i: nat, ghost already: nat)
      returns (r: Result<(Selection, nat)>)
      requires Served(load0, c0, i) && Drained(c0, drain, i, already)
      requires at.block < |image| && at.offset + at.len <= |image[at.block]| && at.len == table.slotsPerBin
      modifies oram`rng, oram.posMap, oram.stash, oram.metaStore.pages, oram.payloadStore.pages, oram.schedule
      ensures r.Ok? ==>
                && Served(load0, c0, i + 1) && Drained(c0, drain, i + 1, already + r.value.1)
                && r.value.0 == SelectAll(selection, ItemSlots(image, at), scriptHash)
      ensures r.Err? ==> Failure(r.error, load0, c0, i + 1)
    {
      hide Served, Failure, SelectAll, Drained, Valid, AfterDrain, Owed;
      assert Valid() by { StillValid(load0, c0, i); }
      DrainedIs(c0, drain, i, already);
      ghost var k0 := Counters();
      var block := ReadServed(at.block, load0, c0, i);
      if block.Err? {
        return Err(block.error);
      }
      var next := SelectIndexRecordFromBin(block.value[at.offset..at.offset + at.len], table.slotsPerBin, scriptHash,
                                           selection);
      var drained := DrainServed(drain, load0, c0, i + 1);
      if drained.Err? {
        return Err(drained.error);
      }
      DrainedOn(c0, drain, i, already, k0, drained.value);
      return Ok((next.value, drained.value));
    }

    /** One more block read, counted from `load0` and `c0`. */
    method ReadServed(block: nat, ghost load0: nat, ghost c0: Counters, ghost i: nat)
      returns (r: Result<seq<IndexSlot<K>>>)
      requires Served(load0, c0, i) && Valid() && block < |image|
      modifies oram`rng, oram.posMap, oram.stash, oram.metaStore.pages, oram.payloadStore.pages, oram.schedule
      ensures r.Ok? ==>
                && Served(load0, c0, i + 1) && r.value == image[block]
                && Valid() && Counters() == old(Counters()).(issued := old(Counters()).issued + 1)
      ensures r.Err? ==> Failure(r.error, load0, c0, i + 1)
    {
      hide Valid, Recorded;
      ghost var c1 := Counters();
      RoomLater(c0, c1, i, 1);
      r := Read(block);
      if r.Ok? {
        RecordedJoin(c0, c1, Counters(), i, 1);
      }
    }

    /** A drain between reads: nothing but a debt that cannot be told can stop it. */
    method ReadBatchServed(blocks: seq<nat>) returns (r: Result<seq<seq<IndexSlot<K>>>>)
      requires Valid() && forall i :: 0 <= i < |blocks| ==> blocks[i] < |image|
      modifies oram`rng, oram.posMap, oram.stash, oram.metaStore.pages, oram.payloadStore.pages, oram.schedule
      ensures r.Ok? ==>
                && Valid() && Served(old(Load()), old(Counters()), |blocks|)
                && Counters() == AfterBatch(old(Counters()), |blocks|)
                && |r.value| == |blocks| && forall i :: 0 <= i < |blocks| ==> r.value[i] == image[blocks[i]]
      ensures r.Err? ==> Failure(r.error, old(Load()), old(Counters()), |blocks|)
    {
      hide Valid, Recorded;
      r := ReadBatch(blocks);
    }

    method DrainServed(budget: nat, ghost load0: nat, ghost c0: Counters, ghost n: nat) returns (r: Result<nat>)
      requires Served(load0, c0, n) && Valid()
      modifies oram.stash, oram.metaStore.pages, oram.payloadStore.pages, oram.schedule
      ensures r.Ok? ==>
                && Served(load0, c0, n) && r.value == Owed(old(Counters()), budget)
                && Valid() && Counters() == AfterDrain(old(Counters()), budget)
      ensures r.Err? ==> Failure(r.error, load0, c0, n)
    {
      hide Valid, Recorded;
      ghost var c1 := Counters();
      if c0.Sound() && c0.Room(n) {
        RoomAfter(c0, c1, n);
      }
      r := Drain(budget);
      if r.Ok? {
        RecordedJoin(c0, c1, Counters(), n, 0);
      }
    }

    ghost predicate ListsBlocks(blocks: seq<nat>, scriptHash: K)
      requires table.Valid() && table.bins > 0 && itemsPerBlock > 0
    {
      var at := CandidateLocations(table, itemsPerBlock, scriptHash);
      |blocks| == |at| && forall i :: 0 <= i < |at| ==> blocks[i] == at[i].block
    }

    /** The locations of the candidate bins of a hash, and the bins. */
    method LocateCandidates(scriptHash: K) returns (r: Result<(seq<nat>, seq<Location>)>)
      requires table.Valid() && itemsPerBlock > 0
      ensures r.Ok? <==> table.bins > 0
      ensures r.Ok? ==> r.value == (table.Candidates(scriptHash), CandidateLocations(table, itemsPerBlock, scriptHash))
    {
      var bins := table.CandidateBins(scriptHash);
      if bins.Err? {
        return Err(bins.error);
      }
      var at: seq<Location> := [];
      for i := 0 to |bins.value|
        invariant |at| == i
        invariant forall j :: 0 <= j < i ==> at[j] == CandidateLocations(table, itemsPerBlock, scriptHash)[j]
      {
        var location := LocatePackedItem(table.bins, itemsPerBlock, table.slotsPerBin, bins.value[i]);
        at := at + [location.value];
      }
      assert at == CandidateLocations(table, itemsPerBlock, scriptHash);
      return Ok((bins.value, at));
    }

    /** Scans the blocks read for one lookup. */
    method SelectFromBlocks(scriptHash: K, at: seq<Location>, blocks: seq<seq<IndexSlot<K>>>)
      returns (selection: Selection, logicalBlocks: seq<nat>)
      requires table.Valid() && table.bins > 0 && ImageShape(table, itemsPerBlock, image)
      requires at == CandidateLocations(table, itemsPerBlock, scriptHash) && |blocks| == |at|
      requires AllInside(image, at) && forall i :: 0 <= i < |at| ==> blocks[i] == image[at[i].block]
      ensures selection == LookupResult(table, itemsPerBlock, image, scriptHash)
      ensures ListsBlocks(logicalBlocks, scriptHash)
    {
      hide SelectAll, LocatePackedItem, SlotsRead, LookupResult;
      LocationsInside(table, itemsPerBlock, image, scriptHash);
      selection := NOTHING;
      logicalBlocks := [];
      SelectStart(image, at, scriptHash);
      for i := 0 to |at|
        invariant selection == SelectAll(NOTHING, SlotsRead(image, at, i), scriptHash)
        invariant |logicalBlocks| == i && forall j :: 0 <= j < i ==> logicalBlocks[j] == at[j].block
      {
        var bin := blocks[i][at[i].offset..at[i].offset + at[i].len];
        SelectBin(image, at, i, scriptHash);
        var next := SelectIndexRecordFromBin(bin, table.slotsPerBin, scriptHash, selection);
        selection := next.value;
        logicalBlocks := logicalBlocks + [at[i].block];
      }
      ResultIs(scriptHash, at);
    }

    /** Several lookups as one batch of reads. Each answer is what `Lookup` would give, in caller
        order, whatever the drain rate. */
    method LookupManyBatched(hashes: seq<K>, drainPerRead: nat) returns (r: Result<(seq<IndexLookup>, nat)>)
      requires Valid()
      modifies oram`rng, oram.posMap, oram.stash, oram.metaStore.pages, oram.payloadStore.pages, oram.schedule
      ensures r.Ok? ==>
                && Valid() && Served(old(Load()), old(Counters()), |hashes| * table.hashFns)
                && |r.value.0| == |hashes|
                && forall i :: 0 <= i < |hashes| ==> Answers(r.value.0[i], hashes[i])
      ensures r.Ok? ==>
                && r.value.1 == Owed(AfterBatch(old(Counters()), |hashes| * table.hashFns),
                                     BatchBudget(drainPerRead, |hashes| * table.hashFns))
                && Counters() == AfterDrain(AfterBatch(old(Counters()), |hashes| * table.hashFns),
                                            BatchBudget(drainPerRead, |hashes| * table.hashFns))
      ensures r.Err? ==> Failure(r.error, old(Load()), old(Counters()), |hashes| * table.hashFns)
    {
      hide Valid, LookupResult, Table.Candidates, Table.Ends, Owed, AfterDrain, BatchBudget, Served, Answers, Failure;
      Shape();
      HasBins();
      ghost var load0, c0 := Load(), Counters();
      var located := LocateAll(hashes);
      var (candidates, locations, flat) := located.value;
      var blocks := ReadBatchServed(flat);
      if blocks.Err? {
        return Err(blocks.error);
      }
      var lookups := AnswerAll(hashes, candidates, locations, flat, blocks.value);
      var drained := DrainServed(BatchBudget(drainPerRead, |flat|), load0, c0, |flat|);
      if drained.Err? {
        return Err(drained.error);
      }
      return Ok((lookups, drained.value));
    }

    /** All candidate bins and their locations, and the blocks to read, flattened in lookup order. */
    method LocateAll(hashes: seq<K>) returns (r: Result<(seq<seq<nat>>, seq<seq<Location>>, seq<nat>)>)
      requires table.Valid() && ImageShape(table, itemsPerBlock, image)
      ensures r.Ok? <==> hashes == [] || table.bins > 0
      ensures r.Ok? ==> var (candidates, locations, flat) := r.value;
                AllLocated(hashes, candidates, locations, flat, |hashes|)
    {
      hide LocatePackedItem, Table.Candidates, Table.Ends, CandidateLocations, AllLocated, Listed;
      NothingLocated(hashes);
      var candidates: seq<seq<nat>> := [];
      var locations: seq<seq<Location>> := [];
      var flat: seq<nat> := [];
      for i := 0 to |hashes|
        invariant i > 0 ==> table.bins > 0
        invariant AllLocated(hashes, candidates, locations, flat, i)
      {
        var located := LocateCandidates(hashes[i]);
        if located.Err? {
          return Err(located.error);
        }
        LocationsInside(table, itemsPerBlock, image, hashes[i]);
        var (bins, at) := located.value;
        var longer := AppendBlocks(flat, at);
        LocatedStep(hashes, candidates, locations, flat, i, bins, at, longer);
        flat := longer;
        candidates := candidates + [bins];
        locations := locations + [at];
      }
      return Ok((candidates, locations, flat));
    }

    lemma NothingLocated(hashes: seq<K>)
      requires table.Valid() && ImageShape(table, itemsPerBlock, image)
      ensures AllLocated(hashes, [], [], [], 0)
    {
    }

    lemma LocatedStep(hashes: seq<K>, candidates: seq<seq<nat>>, locations: seq<seq<Location>>, flat: seq<nat>, n: nat,
                      bins: seq<nat>, at: seq<Location>, longer: seq<nat>)
      requires table.Valid() && ImageShape(table, itemsPerBlock, image) && n < |hashes|
      requires AllLocated(hashes, candidates, locations, flat, n) && Located(hashes[n], bins, at) &&
               AllInside(image, at)
      requires |longer| == |flat| + |at| && longer[..|flat|] == flat && Listed(longer, |flat|, at)
      ensures AllLocated(hashes, candidates + [bins], locations + [at], longer, n + 1)
    {
      hide LocatePackedItem, Table.Candidates, Table.Ends;
      OneMoreTimes(n, table.hashFns);
      forall k | 0 <= k < n
        ensures Listed(longer, k * table.hashFns, locations[k])
      {
        assert Listed(flat, k * table.hashFns, locations[k]);
      }
      forall k | 0 <= k < |longer|
        ensures longer[k] < |image|
      {
        if |flat| <= k { assert longer[|flat| + (k - |flat|)] == at[k - |flat|].block; }
      }
    }

    ghost predicate AllLocated(hashes: seq<K>, candidates: seq<seq<nat>>, locations: seq<seq<Location>>, flat: seq<nat>,
                               n: nat)
      requires table.Valid() && ImageShape(table, itemsPerBlock, image) && n <= |hashes|
    {
      && |candidates| == |locations| == n
      && |flat| == n * table.hashFns
      && (forall k :: 0 <= k < n ==> Located(hashes[k], candidates[k], locations[k]))
      && (forall k :: 0 <= k < n ==> Listed(flat, k * table.hashFns, locations[k]))
      && (forall k :: 0 <= k < |flat| ==> flat[k] < |image|)
    }

    method AnswerAll(hashes: seq<K>, candidates: seq<seq<nat>>, locations: seq<seq<Location>>, flat: seq<nat>,
                     blocks: seq<seq<IndexSlot<K>>>) returns (lookups: seq<IndexLookup>)
      requires table.Valid() && ImageShape(table, itemsPerBlock, image)
      requires AllLocated(hashes, candidates, locations, flat, |hashes|)
      requires |blocks| == |flat| && forall k :: 0 <= k < |flat| ==> blocks[k] == image[flat[k]]
      ensures |lookups| == |hashes| && forall i :: 0 <= i < |hashes| ==> Answers(lookups[i], hashes[i])
    {
      hide LocatePackedItem, Table.Candidates, Table.Ends, CandidateLocations, LookupResult;
      lookups := [];
      for i := 0 to |hashes|
        invariant |lookups| == i && forall k :: 0 <= k < i ==> Answers(lookups[k], hashes[k])
      {
        FlatPrefix(i, |hashes|, table.hashFns);
        LocationsInside(table, itemsPerBlock, image, hashes[i]);
        var next := i * table.hashFns;
        assert Located(hashes[i], candidates[i], locations[i]) && Listed(flat, next, locations[i]);
        var group := blocks[next..next + table.hashFns];
        assert forall d :: 0 <= d < |group| ==> group[d] == image[locations[i][d].block];
        var selection, logicalBlocks := SelectFromBlocks(hashes[i], locations[i], group);
        lookups := lookups + [IndexLookup(selection, candidates[i], logicalBlocks, 0)];
      }
    }

    /** The answer the image determines: what the scan of the candidate bins selects, and which bins and
        blocks were read. */
    ghost predicate Answers(lookup: IndexLookup, scriptHash: K)
      requires table.Valid() && ImageShape(table, itemsPerBlock, image)
    {
      && table.bins > 0
      && lookup.selection == LookupResult(table, itemsPerBlock, image, scriptHash)
      && lookup.candidateBins == table.Candidates(scriptHash)
      && ListsBlocks(lookup.logicalBlocks, scriptHash)
    }

    ghost predicate Located(scriptHash: K, bins: seq<nat>, at: seq<Location>)
      requires table.Valid() && ImageShape(table, itemsPerBlock, image)
    {
      && table.bins > 0 && bins == table.Candidates(scriptHash)
      && at == CandidateLocations(table, itemsPerBlock, scriptHash)
    }

    /** The blocks of `at` stand in `flat` from `first` on. */
    static ghost predicate Listed(flat: seq<nat>, first: nat, at: seq<Location>) {
      && first + |at| <= |flat|
      && forall i :: 0 <= i < |at| ==> flat[first + i] == at[i].block
    }

    static method AppendBlocks(flat: seq<nat>, at: seq<Location>) returns (r: seq<nat>)
      ensures |r| == |flat| + |at| && r[..|flat|] == flat
      ensures Listed(r, |flat|, at)
      ensures forall k :: |flat| <= k < |r| ==> r[k] == at[k - |flat|].block
    {
      r := flat;
      for i := 0 to |at|
        invariant |r| == |flat| + i && r[..|flat|] == flat
        invariant forall j :: 0 <= j < i ==> r[|flat| + j] == at[j].block
      {
        r := r + [at[i].block];
      }
    }
  }

  lemma NoBlocksForNoBins(itemsPerBlock: nat)
    requires itemsPerBlock > 0
    ensures LogicalBlocks(0, itemsPerBlock) == 0
  {
    DivUnique(itemsPerBlock - 1, itemsPerBlock, 0, itemsPerBlock - 1);
  }

  /** Once the accesses there was room for are recorded, the debt can still be told. */
  lemma RoomAfter(a: Counters, b: Counters, n: nat)
    requires Recorded(a, b, n) && a.Sound() && a.Room(n)
    ensures b.Pending().Ok?
  {
    RoomLater(a, b, n, 0);
    RoomNow(b, 0);
  }

  lemma FlatPrefix(i: nat, n: nat, width: nat)
    requires i < n
    ensures i * width + width <= n * width
  {
    MulMonotone(i + 1, n, width);
    OneMoreTimes(i, width);
  }

  lemma SelectBin<K>(image: seq<seq<IndexSlot<K>>>, at: seq<Location>, k: nat, scriptHash: K)
    requires k < |at| && AllInside(image, at)
    ensures SelectAll(NOTHING, SlotsRead(image, at, k + 1), scriptHash) ==
            SelectAll(SelectAll(NOTHING, SlotsRead(image, at, k), scriptHash), ItemSlots(image, at[k]), scriptHash)
  {
    SelectAppend(NOTHING, SlotsRead(image, at, k), ItemSlots(image, at[k]), scriptHash);
  }

  lemma SelectStart<K>(image: seq<seq<IndexSlot<K>>>, at: seq<Location>, scriptHash: K)
    requires AllInside(image, at)
    ensures SelectAll(NOTHING, SlotsRead(image, at, 0), scriptHash) == NOTHING
  {
  }

}
