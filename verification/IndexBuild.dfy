/** From an index file to a dictionary served by the ORAM: cuckoo placement, packed blocks, trusted
    build, reader (src/direct.rs, DirectIndexPackedBlockReader::build and CircuitDirectIndexReader::new). */
module IndexBuild {
  import opened Common
  import opened Geometry
  import opened Blocks
  import opened PageStores
  import Spec = OramSpec
  import opened OramBuild
  import opened TrustedBuild
  import opened SlotTable
  import opened Cuckoo
  import opened DirectIndex
  import opened IndexReader

  /** Every lookup the reader completes is answered as the dictionary of the file answers it. */
  ghost predicate ServesDictionary<K(!new)>(reader: CircuitDirectIndexReader<K>, file: seq<IndexRecord<K>>)
    reads reader, reader.oram, reader.oram.posMap, reader.oram.stash, reader.oram.metaStore.pages,
          reader.oram.payloadStore.pages, reader.oram.schedule
  {
    && reader.Valid() && reader.table.bins > 0
    && forall scriptHash :: IsDictionaryAnswer(file, scriptHash,
                              LookupResult(reader.table, reader.itemsPerBlock, reader.image, scriptHash))
  }

  /** One ORAM block per packed block, one store page per bucket. */
  predicate SizesAgree<K(!new)>(t: Table<K>, itemsPerBlock: nat, p: OramParams, metaPages: nat, payloadPages: nat)
    requires itemsPerBlock > 0
  {
    LogicalBlocks(t.bins, itemsPerBlock) == p.logicalBlocks && metaPages == payloadPages == p.BucketCount()
  }

  /** Some block of some source of the right size finds neither its path nor the stash with room. */
  ghost predicate NoRoom<V(!new)>(c: Spec.Config<V>)
    requires c.params.Valid()
  {
    exists source, k :: |source| == c.params.logicalBlocks && 0 <= k < |source| && NoRoomFor(c, source, k)
  }

  method ReadAllBlocks<K(!new)>(t: Table<K>, file: seq<IndexRecord<K>>, placement: array<nat>, blank: IndexRecord<K>,
                                itemsPerBlock: nat) returns (source: seq<seq<IndexSlot<K>>>)
    requires Shaped(t, file, placement[..]) && itemsPerBlock > 0
    ensures source == PackedImage(t, file, placement[..], blank, itemsPerBlock)
  {
    source := [];
    for b := 0 to LogicalBlocks(t.bins, itemsPerBlock)
      invariant |source| == b
      invariant forall k :: 0 <= k < b ==> source[k] == PackedBlock(t, file, placement[..], blank, itemsPerBlock, k)
    {
      var block := ReadBlock(t, file, placement, blank, itemsPerBlock, b);
      source := source + [block.value];
    }
  }

  /** A file with distinct hashes becomes an ORAM that serves its dictionary, over the given stores and
      otherwise over fresh state. A table has bins exactly when the file has records; without them
      there is no block to store, and no ORAM of zero blocks. */
  method BuildIndex<K(!new, ==)>(t: Table<K>, file: seq<IndexRecord<K>>, blank: IndexRecord<K>, itemsPerBlock: nat,
                                 p: OramParams, draws: nat -> nat,
                                 metaStore: MemPageStore<seq<Slot>>, payloadStore: MemPageStore<seq<seq<IndexSlot<K>>>>)
    returns (r: Result<CircuitDirectIndexReader<K>>)
    requires t.Valid() && itemsPerBlock > 0 && (t.bins == 0 <==> file == [])
    requires p.Valid() && metaStore.pages as object != payloadStore.pages as object
    modifies metaStore.pages, payloadStore.pages
    ensures file == [] ==> r.Err?
    ensures && SizesAgree(t, itemsPerBlock, p, metaStore.pages.Length, payloadStore.pages.Length)
            && 0 < |file| <= U32_MAX && |file| <= t.hashFns * t.slotsPerBin
            && p.logicalBlocks <= p.bucketSize * p.Height() + p.stashCapacity ==>
              r.Ok?
    ensures r.Err? ==>
              || file == [] || |file| > U32_MAX
              || !SizesAgree(t, itemsPerBlock, p, metaStore.pages.Length, payloadStore.pages.Length)
              || (t.bins > 0 && exists record, placement, trail :: InsertionFails(t, file, record, placement, trail))
              || NoRoom(Spec.Config(p, draws, seq(itemsPerBlock * t.slotsPerBin, _ => IndexSlot(false, blank))))
    ensures r.Ok? ==>
              && fresh(r.value) && fresh(r.value.oram) && fresh(r.value.oram.posMap)
              && fresh(r.value.oram.stash) && fresh(r.value.oram.schedule)
              && r.value.oram.metaStore == metaStore && r.value.oram.payloadStore == payloadStore
              && r.value.Valid() && r.value.table == t && r.value.itemsPerBlock == itemsPerBlock
    ensures r.Ok? && DistinctHashes(file) ==> ServesDictionary(r.value, file)
  {
    hide Stored, WellPlaced, PackedImage, LookupResult, IsDictionaryAnswer, Build, NoRoomFor, Spec.Contents,
         Spec.Placed, Spec.Current;
    var built := BuildPlacement(t, file);
    if built.Err? {
      return Err(built.error);
    }
    var placement := built.value;
    NoBlocksForNoBins(itemsPerBlock);
    if LogicalBlocks(t.bins, itemsPerBlock) != p.logicalBlocks {
      return Err(InvalidInput);
    }
    assert Shaped(t, file, placement[..]) by { PlacedIsShaped(t, file, placement[..]); }
    var source := ReadAllBlocks(t, file, placement, blank, itemsPerBlock);
    ghost var placed := placement[..];
    var zero := seq(itemsPerBlock * t.slotsPerBin, _ => IndexSlot(false, blank));
    BuildRefinesSource(Spec.Config(p, draws, zero), source);
    var oram := BuildTrusted(p, draws, zero, source, metaStore, payloadStore);
    if oram.Err? {
      return Err(oram.error);
    }
    ImageHasShape(t, file, placed, blank, itemsPerBlock);
    var reader := new CircuitDirectIndexReader(t, itemsPerBlock, oram.value, source);
    if DistinctHashes(file) {
      forall scriptHash
        ensures IsDictionaryAnswer(file, scriptHash, LookupResult(t, itemsPerBlock, source, scriptHash))
      {
        LookupIsDictionary(t, file, placed, blank, itemsPerBlock, scriptHash);
      }
    }
    return Ok(reader);
  }

  /** End to end: build the index of a file, then look up hashes, first as one batch and then one by
      one. Every answer is the dictionary's. */
  method BuildAndLookup<K(!new, ==)>(t: Table<K>, file: seq<IndexRecord<K>>, blank: IndexRecord<K>, itemsPerBlock: nat,
                                     p: OramParams, draws: nat -> nat, metaStore: MemPageStore<seq<Slot>>,
                                     payloadStore: MemPageStore<seq<seq<IndexSlot<K>>>>, hashes: seq<K>,
                                     drainPerRead: nat)
    returns (r: Result<(seq<Selection>, seq<Selection>)>)
    requires t.Valid() && itemsPerBlock > 0 && (t.bins == 0 <==> file == []) && DistinctHashes(file)
    requires p.Valid() && metaStore.pages as object != payloadStore.pages as object
    modifies metaStore.pages, payloadStore.pages
    ensures r.Ok? ==>
              && |r.value.0| == |r.value.1| == |hashes|
              && forall i :: 0 <= i < |hashes| ==>
                   && IsDictionaryAnswer(file, hashes[i], r.value.0[i])
                   && r.value.1[i] == r.value.0[i]
  {
    hide LookupResult, IsDictionaryAnswer, DistinctHashes, CircuitDirectIndexReader.Valid,
         CircuitDirectIndexReader.Served;
    var built := BuildIndex(t, file, blank, itemsPerBlock, p, draws, metaStore, payloadStore);
    if built.Err? {
      return Err(built.error);
    }
    var reader := built.value;
    reader.Shape();
    var batch := reader.LookupManyBatched(hashes, drainPerRead);
    if batch.Err? {
      return Err(batch.error);
    }
    var single := LookupEach(reader, hashes, drainPerRead);
    if single.Err? {
      return Err(single.error);
    }
    var many: seq<Selection> := [];
    for i := 0 to |hashes|
      invariant |many| == i && forall k :: 0 <= k < i ==>
                  many[k] == LookupResult(t, itemsPerBlock, reader.image, hashes[k])
    {
      assert reader.Answers(batch.value.0[i], hashes[i]);
      many := many + [batch.value.0[i].selection];
    }
    return Ok((many, single.value));
  }

  method LookupEach<K(!new, ==)>(reader: CircuitDirectIndexReader<K>, hashes: seq<K>, drainPerRead: nat)
    returns (r: Result<seq<Selection>>)
    requires reader.Valid() && reader.table.bins > 0
    modifies reader.oram`rng, reader.oram.posMap, reader.oram.stash, reader.oram.metaStore.pages,
             reader.oram.payloadStore.pages, reader.oram.schedule
    ensures r.Ok? ==>
              && reader.Valid() && |r.value| == |hashes|
              && forall i :: 0 <= i < |hashes| ==>
                   r.value[i] == LookupResult(reader.table, reader.itemsPerBlock, reader.image, hashes[i])
  {
    hide LookupResult, CircuitDirectIndexReader.Valid, CircuitDirectIndexReader.Served;
    reader.Shape();
    var selections: seq<Selection> := [];
    for i := 0 to |hashes|
      invariant reader.Valid() && |selections| == i
      invariant forall k :: 0 <= k < i ==>
                  selections[k] == LookupResult(reader.table, reader.itemsPerBlock, reader.image, hashes[k])
    {
      var lookup := reader.Lookup(hashes[i], drainPerRead);
      if lookup.Err? {
        return Err(lookup.error);
      }
      selections := selections + [lookup.value.selection];
    }
    return Ok(selections);
  }

  lemma ImageHasShape<K(!new)>(t: Table<K>, file: seq<IndexRecord<K>>, placement: seq<nat>, blank: IndexRecord<K>,
                               itemsPerBlock: nat)
    requires Shaped(t, file, placement) && itemsPerBlock > 0
    ensures ImageShape(t, itemsPerBlock, PackedImage(t, file, placement, blank, itemsPerBlock))
  {
  }
}
