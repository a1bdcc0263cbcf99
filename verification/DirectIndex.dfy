/** The direct INDEX as packed ORAM blocks (src/direct.rs): where a bin lies, what a block holds, what
    a scan of candidate bins selects, and why that is a dictionary lookup. */
module DirectIndex {
  import opened Common
  import opened Geometry
  import opened SlotTable
  import opened Cuckoo

  /** A stored slot; `occupied` is the flag byte. */
  datatype IndexSlot<+K> = IndexSlot(occupied: bool, record: IndexRecord<K>)

  /** Place of an item inside the packed blocks, in slots. */
  datatype Location = Location(block: nat, offset: nat, len: nat)

  function LocatePackedItem(totalItems: nat, itemsPerBlock: nat, itemSlots: nat, item: nat): (r: Result<Location>)
    ensures r.Ok? <==> itemsPerBlock > 0 && itemSlots > 0 && item < totalItems
  {
    if itemsPerBlock == 0 || itemSlots == 0 || item >= totalItems then Err(InvalidInput)
    else Ok(Location(item / itemsPerBlock, (item % itemsPerBlock) * itemSlots, itemSlots))
  }

  /** Blocks needed for the items. */
  function LogicalBlocks(totalItems: nat, itemsPerBlock: nat): nat
    requires itemsPerBlock > 0
  {
    (totalItems + itemsPerBlock - 1) / itemsPerBlock
  }

  /** A located item lies inside its block and the block inside the image; blocks laid end to end put
      item `item` at slot `item * itemSlots`. */
  lemma LocatedInRange(totalItems: nat, itemsPerBlock: nat, itemSlots: nat, item: nat)
    requires LocatePackedItem(totalItems, itemsPerBlock, itemSlots, item).Ok?
    ensures var at := LocatePackedItem(totalItems, itemsPerBlock, itemSlots, item).value;
            && at.block < LogicalBlocks(totalItems, itemsPerBlock)
            && at.offset + at.len <= itemsPerBlock * itemSlots
            && at.block * (itemsPerBlock * itemSlots) + at.offset == item * itemSlots
  {
    var n, z := itemsPerBlock, itemSlots;
    var q, r := item / n, item % n;
    assert item == q * n + r;
    MulMonotone(r + 1, n, z);
    assert (r + 1) * z == r * z + z;
    assert (q * n + r) * z == q * (n * z) + r * z;
    var blocks := LogicalBlocks(totalItems, n);
    var total := totalItems + n - 1;
    assert total == blocks * n + total % n;
    if blocks <= q {
      MulMonotone(blocks, q, n);
      assert false;
    }
  }

  function SlotOf<K>(file: seq<IndexRecord<K>>, entry: nat, blank: IndexRecord<K>): IndexSlot<K>
    requires entry == EMPTY_SLOT || entry < |file|
  {
    if entry == EMPTY_SLOT then IndexSlot(false, blank) else IndexSlot(true, file[entry])
  }

  /** The slots of a bin. */
  ghost function BinSlots<K(!new)>(t: Table<K>, file: seq<IndexRecord<K>>, placement: seq<nat>, blank: IndexRecord<K>,
                                   bin: nat)
    : (r: seq<IndexSlot<K>>)
    requires Shaped(t, file, placement) && bin < t.bins
    ensures |r| == t.slotsPerBin
  {
    SlotsOfBin(t, bin, bin * t.slotsPerBin);
    seq(t.slotsPerBin, s requires 0 <= s < t.slotsPerBin => SlotOf(file, placement[bin * t.slotsPerBin + s], blank))
  }

  /** A packed block: a stretch of the slots of the whole table, blank past its end. */
  ghost function PackedBlock<K(!new)>(t: Table<K>, file: seq<IndexRecord<K>>, placement: seq<nat>,
                                      blank: IndexRecord<K>, itemsPerBlock: nat, block: nat): (r: seq<IndexSlot<K>>)
    requires Shaped(t, file, placement)
    ensures |r| == itemsPerBlock * t.slotsPerBin
  {
    var width := itemsPerBlock * t.slotsPerBin;
    seq(width, q requires 0 <= q < width =>
      if block * width + q < |placement| then SlotOf(file, placement[block * width + q], blank)
      else IndexSlot(false, blank))
  }

  /** What the ORAM stores: all packed blocks. */
  ghost function PackedImage<K(!new)>(t: Table<K>, file: seq<IndexRecord<K>>, placement: seq<nat>,
                                      blank: IndexRecord<K>, itemsPerBlock: nat): (r: seq<seq<IndexSlot<K>>>)
    requires Shaped(t, file, placement) && itemsPerBlock > 0
    ensures |r| == LogicalBlocks(t.bins, itemsPerBlock)
    ensures forall b :: 0 <= b < |r| ==> r[b] == PackedBlock(t, file, placement, blank, itemsPerBlock, b)
  {
    seq(LogicalBlocks(t.bins, itemsPerBlock), b requires 0 <= b < LogicalBlocks(t.bins, itemsPerBlock) =>
      PackedBlock(t, file, placement, blank, itemsPerBlock, b))
  }

  /** The slots of an item, cut out of an image of packed blocks. */
  ghost function ItemSlots<K>(image: seq<seq<IndexSlot<K>>>, at: Location): (r: seq<IndexSlot<K>>)
    requires at.block < |image| && at.offset + at.len <= |image[at.block]|
    ensures |r| == at.len
  {
    image[at.block][at.offset..at.offset + at.len]
  }

  /** Reading a bin back out of the packed image gives the slots of the bin. */
  lemma PackedBin<K(!new)>(t: Table<K>, file: seq<IndexRecord<K>>, placement: seq<nat>, blank: IndexRecord<K>,
                           itemsPerBlock: nat, bin: nat)
    requires Shaped(t, file, placement) && itemsPerBlock > 0 && bin < t.bins
    ensures var at := LocatePackedItem(t.bins, itemsPerBlock, t.slotsPerBin, bin).value;
            var image := PackedImage(t, file, placement, blank, itemsPerBlock);
            && at.block < |image| && at.offset + at.len <= |image[at.block]|
            && ItemSlots(image, at) == BinSlots(t, file, placement, blank, bin)
  {
    LocatedInRange(t.bins, itemsPerBlock, t.slotsPerBin, bin);
    SlotsOfBin(t, bin, bin * t.slotsPerBin);
    var at := LocatePackedItem(t.bins, itemsPerBlock, t.slotsPerBin, bin).value;
    var image := PackedImage(t, file, placement, blank, itemsPerBlock);
    hide LocatePackedItem, SlotOf;
    forall s | 0 <= s < t.slotsPerBin
      ensures ItemSlots(image, at)[s] == BinSlots(t, file, placement, blank, bin)[s]
    {
      assert at.block * (itemsPerBlock * t.slotsPerBin) + (at.offset + s) == bin * t.slotsPerBin + s;
    }
  }

  /** The first `filled` slots of the payload are the table slots from `first` on, the others blank. */
  ghost predicate Encoded<K>(file: seq<IndexRecord<K>>, placement: seq<nat>, blank: IndexRecord<K>, first: nat,
                             payload: seq<IndexSlot<K>>, filled: nat)
    requires forall o :: 0 <= o < |placement| ==> placement[o] == EMPTY_SLOT || placement[o] < |file|
  {
    && filled <= |payload| && first + filled <= |placement|
    && (forall q :: 0 <= q < filled ==> payload[q] == SlotOf(file, placement[first + q], blank))
    && (forall q :: filled <= q < |payload| ==> payload[q] == IndexSlot(false, blank))
  }

  /** Encodes the slots of one bin. */
  method EncodeBin<K(!new)>(file: seq<IndexRecord<K>>, placement: array<nat>, blank: IndexRecord<K>, slotsPerBin: nat,
                            base: nat, payload: array<IndexSlot<K>>, offset: nat, ghost first: nat)
    requires forall o :: 0 <= o < placement.Length ==> placement[o] == EMPTY_SLOT || placement[o] < |file|
    requires base == first + offset && base + slotsPerBin <= placement.Length && offset + slotsPerBin <= payload.Length
    requires Encoded(file, placement[..], blank, first, payload[..], offset)
    requires payload as object != placement
    modifies payload
    ensures Encoded(file, placement[..], blank, first, payload[..], offset + slotsPerBin)
  {
    for slot := 0 to slotsPerBin
      invariant Encoded(file, placement[..], blank, first, payload[..], offset + slot)
    {
      payload[offset + slot] := SlotOf(file, placement[base + slot], blank);
    }
  }

  /** Encodes one packed block from the placement, bin by bin. */
  method ReadBlock<K(!new)>(t: Table<K>, file: seq<IndexRecord<K>>, placement: array<nat>, blank: IndexRecord<K>,
                            itemsPerBlock: nat, block: nat) returns (r: Result<seq<IndexSlot<K>>>)
    requires Shaped(t, file, placement[..]) && itemsPerBlock > 0
    ensures r.Ok? <==> block < LogicalBlocks(t.bins, itemsPerBlock)
    ensures r.Ok? ==> r.value == PackedBlock(t, file, placement[..], blank, itemsPerBlock, block)
  {
    hide LogicalBlocks, PackedBlock, SlotOf, Encoded;
    if block >= LogicalBlocks(t.bins, itemsPerBlock) {
      return Err(InvalidInput);
    }
    BlockStartsInside(t.bins, itemsPerBlock, block);
    var start := block * itemsPerBlock;
    var count := if t.bins - start < itemsPerBlock then t.bins - start else itemsPerBlock;
    var width := itemsPerBlock * t.slotsPerBin;
    ghost var first := block * width;
    var payload := new IndexSlot<K>[width](_ => IndexSlot(false, blank));
    NothingEncoded(file, placement[..], blank, start * t.slotsPerBin, payload[..]);
    BlockStart(t, itemsPerBlock, block, count);
    EncodeBins(file, placement, blank, t.slotsPerBin, start, count, payload);
    BlockEnd(t, itemsPerBlock, block, count);
    EncodedBlock(t, file, placement[..], blank, itemsPerBlock, block, payload[..], count * t.slotsPerBin);
    return Ok(payload[..]);
  }

  method EncodeBins<K(!new)>(file: seq<IndexRecord<K>>, placement: array<nat>, blank: IndexRecord<K>, slotsPerBin: nat,
                             start: nat, count: nat, payload: array<IndexSlot<K>>)
    requires forall o :: 0 <= o < placement.Length ==> placement[o] == EMPTY_SLOT || placement[o] < |file|
    requires start * slotsPerBin + count * slotsPerBin <= placement.Length && count * slotsPerBin <= payload.Length
    requires Encoded(file, placement[..], blank, start * slotsPerBin, payload[..], 0)
    requires payload as object != placement
    modifies payload
    ensures Encoded(file, placement[..], blank, start * slotsPerBin, payload[..], count * slotsPerBin)
  {
    hide Encoded, SlotOf;
    for item := 0 to count
      invariant Encoded(file, placement[..], blank, start * slotsPerBin, payload[..], item * slotsPerBin)
    {
      ItemPosition(start, item, count, slotsPerBin);
      EncodeBin(file, placement, blank, slotsPerBin, (start + item) * slotsPerBin, payload, item * slotsPerBin,
                start * slotsPerBin);
    }
  }

  lemma NothingEncoded<K>(file: seq<IndexRecord<K>>, placement: seq<nat>, blank: IndexRecord<K>, first: nat,
                          payload: seq<IndexSlot<K>>)
    requires forall o :: 0 <= o < |placement| ==> placement[o] == EMPTY_SLOT || placement[o] < |file|
    requires first <= |placement| && forall q :: 0 <= q < |payload| ==> payload[q] == IndexSlot(false, blank)
    ensures Encoded(file, placement, blank, first, payload, 0)
  {
  }

  lemma ItemPosition(start: nat, item: nat, count: nat, z: nat)
    requires item < count
    ensures (start + item) * z == start * z + item * z
    ensures item * z + z == (item + 1) * z <= count * z
  {
    MulMonotone(item + 1, count, z);
  }

  lemma BlockStart<K(!new)>(t: Table<K>, itemsPerBlock: nat, block: nat, count: nat)
    requires count <= itemsPerBlock && block * itemsPerBlock + count <= t.bins
    ensures block * itemsPerBlock * t.slotsPerBin == block * (itemsPerBlock * t.slotsPerBin)
    ensures block * itemsPerBlock * t.slotsPerBin + count * t.slotsPerBin <= t.bins * t.slotsPerBin
    ensures count * t.slotsPerBin <= itemsPerBlock * t.slotsPerBin
  {
    var z := t.slotsPerBin;
    MulMonotone(count, itemsPerBlock, z);
    MulMonotone(block * itemsPerBlock + count, t.bins, z);
  }

  lemma BlockEnd<K(!new)>(t: Table<K>, itemsPerBlock: nat, block: nat, count: nat)
    requires count <= itemsPerBlock && block * itemsPerBlock + count <= t.bins
    requires count < itemsPerBlock ==> block * itemsPerBlock + count == t.bins
    ensures count < itemsPerBlock ==>
              block * (itemsPerBlock * t.slotsPerBin) + count * t.slotsPerBin == t.bins * t.slotsPerBin
  {
    var z := t.slotsPerBin;
    assert (block * itemsPerBlock + count) * z == (block * itemsPerBlock) * z + count * z;
    assert (block * itemsPerBlock) * z == block * (itemsPerBlock * z);
  }

  lemma EncodedBlock<K(!new)>(t: Table<K>, file: seq<IndexRecord<K>>, placement: seq<nat>, blank: IndexRecord<K>,
                              itemsPerBlock: nat, block: nat, payload: seq<IndexSlot<K>>, filled: nat)
    requires Shaped(t, file, placement) && |payload| == itemsPerBlock * t.slotsPerBin
    requires Encoded(file, placement, blank, block * (itemsPerBlock * t.slotsPerBin), payload, filled)
    requires filled < |payload| ==> block * (itemsPerBlock * t.slotsPerBin) + filled == |placement|
    ensures payload == PackedBlock(t, file, placement, blank, itemsPerBlock, block)
  {
    hide SlotOf;
    var first := block * |payload|;
    assert first == block * (itemsPerBlock * t.slotsPerBin);
    forall q | 0 <= q < |payload|
      ensures payload[q] == PackedBlock(t, file, placement, blank, itemsPerBlock, block)[q]
    {
    }
  }

  lemma BlockStartsInside(totalItems: nat, itemsPerBlock: nat, block: nat)
    requires itemsPerBlock > 0 && block < LogicalBlocks(totalItems, itemsPerBlock)
    ensures block * itemsPerBlock < totalItems
  {
    var blocks := LogicalBlocks(totalItems, itemsPerBlock);
    var total := totalItems + itemsPerBlock - 1;
    assert total == blocks * itemsPerBlock + total % itemsPerBlock;
    MulMonotone(block + 1, blocks, itemsPerBlock);
    assert (block + 1) * itemsPerBlock == block * itemsPerBlock + itemsPerBlock;
  }

  /** What the constant-time scan accumulates. */
  datatype Selection = Selection(found: bool, startChunk: nat, numChunks: nat)

  const NOTHING: Selection := Selection(false, 0, 0)

  predicate Matches<K(==)>(slot: IndexSlot<K>, scriptHash: K) {
    slot.occupied && slot.record.scriptHash == scriptHash
  }

  /** The first matching slot wins. */
  function SelectAll<K(==)>(selection: Selection, slots: seq<IndexSlot<K>>, scriptHash: K): Selection {
    if slots == [] then selection
    else
      var before := SelectAll(selection, slots[..|slots| - 1], scriptHash);
      var slot := slots[|slots| - 1];
      if Matches(slot, scriptHash) && !before.found
      then Selection(true, slot.record.startChunk, slot.record.numChunks)
      else before
  }

  lemma {:induction false} SelectAppend<K>(selection: Selection, a: seq<IndexSlot<K>>, b: seq<IndexSlot<K>>,
                                           scriptHash: K)
    ensures SelectAll(SelectAll(selection, a, scriptHash), b, scriptHash) == SelectAll(selection, a + b, scriptHash)
  {
    if b == [] {
      assert a + b == a;
    } else {
      SelectAppend(selection, a, b[..|b| - 1], scriptHash);
      assert (a + b)[..|a + b| - 1] == a + b[..|b| - 1];
    }
  }

  method SelectIndexRecordFromBin<K(==)>(bin: seq<IndexSlot<K>>, slotsPerBin: nat, scriptHash: K, selection: Selection)
    returns (r: Result<Selection>)
    ensures r.Ok? <==> |bin| == slotsPerBin
    ensures r.Ok? ==> r.value == SelectAll(selection, bin, scriptHash)
  {
    if |bin| != slotsPerBin {
      return Err(InvalidInput);
    }
    var found := selection.found;
    var startChunk: nat := selection.startChunk;
    var numChunks: nat := selection.numChunks;
    for i := 0 to slotsPerBin
      invariant Selection(found, startChunk, numChunks) == SelectAll(selection, bin[..i], scriptHash)
    {
      assert bin[..i + 1][..i] == bin[..i];
      var slot := bin[i];
      var isMatch := slot.occupied && slot.record.scriptHash == scriptHash;
      var select := isMatch && !found;
      found := found || select;
      startChunk := if select then slot.record.startChunk else startChunk;
      numChunks := if select then slot.record.numChunks else numChunks;
    }
    assert bin[..slotsPerBin] == bin;
    return Ok(Selection(found, startChunk, numChunks));
  }

  /** The slots of the first `k` bins of a list, one bin after the other. */
  ghost function SlotsRead<K>(image: seq<seq<IndexSlot<K>>>, at: seq<Location>, k: nat): seq<IndexSlot<K>>
    requires k <= |at| && AllInside(image, at)
  {
    if k == 0 then [] else SlotsRead(image, at, k - 1) + ItemSlots(image, at[k - 1])
  }

  ghost predicate AllInside<K>(image: seq<seq<IndexSlot<K>>>, at: seq<Location>) {
    forall i :: 0 <= i < |at| ==> at[i].block < |image| && at[i].offset + at[i].len <= |image[at[i].block]|
  }

  lemma {:induction false} SlotRead<K>(image: seq<seq<IndexSlot<K>>>, at: seq<Location>, k: nat, slot: IndexSlot<K>)
    requires k <= |at| && AllInside(image, at)
    ensures slot in SlotsRead(image, at, k) <==> exists i :: 0 <= i < k && slot in ItemSlots(image, at[i])
  {
    if k > 0 {
      SlotRead(image, at, k - 1, slot);
    }
  }

  /** Where the candidate bins of a hash lie. */
  ghost function CandidateLocations<K(!new)>(t: Table<K>, itemsPerBlock: nat, scriptHash: K): (r: seq<Location>)
    requires t.Valid() && t.bins > 0 && itemsPerBlock > 0
    ensures |r| == t.hashFns
    ensures forall i :: 0 <= i < |r| ==>
              LocatePackedItem(t.bins, itemsPerBlock, t.slotsPerBin, t.Candidates(scriptHash)[i]) == Ok(r[i])
  {
    seq(t.hashFns, i requires 0 <= i < t.hashFns =>
      LocatePackedItem(t.bins, itemsPerBlock, t.slotsPerBin, t.Candidates(scriptHash)[i]).value)
  }

  /** An image of blocks of the right number and width. */
  ghost predicate ImageShape<K(!new)>(t: Table<K>, itemsPerBlock: nat, image: seq<seq<IndexSlot<K>>>) {
    && itemsPerBlock > 0
    && |image| == LogicalBlocks(t.bins, itemsPerBlock)
    && forall b :: 0 <= b < |image| ==> |image[b]| == itemsPerBlock * t.slotsPerBin
  }

  lemma LocationsInside<K(!new)>(t: Table<K>, itemsPerBlock: nat, image: seq<seq<IndexSlot<K>>>, scriptHash: K)
    requires t.Valid() && t.bins > 0 && ImageShape(t, itemsPerBlock, image)
    ensures AllInside(image, CandidateLocations(t, itemsPerBlock, scriptHash))
    ensures forall i :: 0 <= i < t.hashFns ==> CandidateLocations(t, itemsPerBlock, scriptHash)[i].len == t.slotsPerBin
  {
    var at := CandidateLocations(t, itemsPerBlock, scriptHash);
    forall i | 0 <= i < |at|
      ensures at[i].block < |image| && at[i].offset + at[i].len <= |image[at[i].block]| && at[i].len == t.slotsPerBin
    {
      LocatedInRange(t.bins, itemsPerBlock, t.slotsPerBin, t.Candidates(scriptHash)[i]);
    }
  }

  /** What a lookup over the image selects. */
  ghost function LookupResult<K(!new)>(t: Table<K>, itemsPerBlock: nat, image: seq<seq<IndexSlot<K>>>, scriptHash: K)
    : Selection
    requires t.Valid() && t.bins > 0 && ImageShape(t, itemsPerBlock, image)
  {
    LocationsInside(t, itemsPerBlock, image, scriptHash);
    SelectAll(NOTHING, SlotsRead(image, CandidateLocations(t, itemsPerBlock, scriptHash), t.hashFns), scriptHash)
  }

  ghost predicate DistinctHashes<K>(file: seq<IndexRecord<K>>) {
    forall i, j :: 0 <= i < j < |file| ==> file[i].scriptHash != file[j].scriptHash
  }

  /** `selection` is the answer of a dictionary that maps each record's hash to its chunks. */
  ghost predicate IsDictionaryAnswer<K>(file: seq<IndexRecord<K>>, scriptHash: K, selection: Selection) {
    && (selection.found <==> exists i :: 0 <= i < |file| && file[i].scriptHash == scriptHash)
    && (forall i :: 0 <= i < |file| && file[i].scriptHash == scriptHash ==>
          selection == Selection(true, file[i].startChunk, file[i].numChunks))
    && (!selection.found ==> selection == NOTHING)
  }

  lemma {:induction false} NoMatch<K>(slots: seq<IndexSlot<K>>, scriptHash: K)
    requires forall i :: 0 <= i < |slots| ==> !Matches(slots[i], scriptHash)
    ensures SelectAll(NOTHING, slots, scriptHash) == NOTHING
  {
    if slots != [] { NoMatch(slots[..|slots| - 1], scriptHash); }
  }

  lemma {:induction false} OneMatch<K>(slots: seq<IndexSlot<K>>, scriptHash: K, record: IndexRecord<K>)
    requires forall i :: 0 <= i < |slots| && Matches(slots[i], scriptHash) ==> slots[i].record == record
    requires IndexSlot(true, record) in slots && record.scriptHash == scriptHash
    ensures SelectAll(NOTHING, slots, scriptHash) == Selection(true, record.startChunk, record.numChunks)
  {
    var n := |slots| - 1;
    assert slots == slots[..n] + [slots[n]];
    if IndexSlot(true, record) in slots[..n] {
      OneMatch(slots[..n], scriptHash, record);
    } else {
      assert slots[n] == IndexSlot(true, record);
      assert forall i :: 0 <= i < n ==> slots[i] in slots[..n];
      NoMatch(slots[..n], scriptHash);
    }
  }

  /** A slot read on the lookup is a slot of a candidate bin. */
  lemma CandidateSlot<K(!new)>(t: Table<K>, file: seq<IndexRecord<K>>, placement: seq<nat>, blank: IndexRecord<K>,
                               itemsPerBlock: nat, scriptHash: K, slot: IndexSlot<K>)
    requires Shaped(t, file, placement) && itemsPerBlock > 0
    ensures var image := PackedImage(t, file, placement, blank, itemsPerBlock);
            var at := CandidateLocations(t, itemsPerBlock, scriptHash);
            AllInside(image, at) &&
            (slot in SlotsRead(image, at, t.hashFns) <==>
             exists i :: 0 <= i < t.hashFns && slot in BinSlots(t, file, placement, blank, t.Candidates(scriptHash)[i]))
  {
    hide PackedImage, BinSlots, ItemSlots, SlotsRead, LocatePackedItem;
    var image := PackedImage(t, file, placement, blank, itemsPerBlock);
    var at := CandidateLocations(t, itemsPerBlock, scriptHash);
    LocationsInside(t, itemsPerBlock, image, scriptHash);
    SlotRead(image, at, t.hashFns, slot);
    forall i | 0 <= i < t.hashFns
      ensures ItemSlots(image, at[i]) == BinSlots(t, file, placement, blank, t.Candidates(scriptHash)[i])
    {
      PackedBin(t, file, placement, blank, itemsPerBlock, t.Candidates(scriptHash)[i]);
    }
  }

  /** Main theorem of the index: over the packed image of a finished placement of a file with distinct
      hashes, the lookup is the dictionary lookup. */
  lemma LookupIsDictionary<K(!new)>(t: Table<K>, file: seq<IndexRecord<K>>, placement: seq<nat>, blank: IndexRecord<K>,
                                    itemsPerBlock: nat, scriptHash: K)
    requires WellPlaced(t, file, placement) && Stored(placement) == FirstIds(|file|)
    requires DistinctHashes(file) && itemsPerBlock > 0
    ensures IsDictionaryAnswer(file, scriptHash,
              LookupResult(t, itemsPerBlock, PackedImage(t, file, placement, blank, itemsPerBlock), scriptHash))
  {
    hide PackedImage, BinSlots, SlotsRead, Stored, FirstIds, SelectAll, CandidateLocations, Table.Candidates,
         WellPlaced;
    assert Shaped(t, file, placement) by { PlacedIsShaped(t, file, placement); }
    var image := PackedImage(t, file, placement, blank, itemsPerBlock);
    LocationsInside(t, itemsPerBlock, image, scriptHash);
    var slots := SlotsRead(image, CandidateLocations(t, itemsPerBlock, scriptHash), t.hashFns);
    forall k | 0 <= k < |slots| && Matches(slots[k], scriptHash)
      ensures slots[k].record in file
    {
      SlotFromFile(t, file, placement, blank, itemsPerBlock, scriptHash, slots[k]);
    }
    if record :| 0 <= record < |file| && file[record].scriptHash == scriptHash {
      RecordIsRead(t, file, placement, blank, itemsPerBlock, record);
      OneMatch(slots, scriptHash, file[record]);
    } else {
      NoMatch(slots, scriptHash);
    }
  }

  lemma PlacedIsShaped<K(!new)>(t: Table<K>, file: seq<IndexRecord<K>>, placement: seq<nat>)
    requires WellPlaced(t, file, placement)
    ensures Shaped(t, file, placement)
  {
  }

  /** An occupied slot read on a lookup holds a record of the file. */
  lemma SlotFromFile<K(!new)>(t: Table<K>, file: seq<IndexRecord<K>>, placement: seq<nat>, blank: IndexRecord<K>,
                              itemsPerBlock: nat, scriptHash: K, slot: IndexSlot<K>)
    requires Shaped(t, file, placement) && itemsPerBlock > 0 && slot.occupied
    requires var image := PackedImage(t, file, placement, blank, itemsPerBlock);
             var at := CandidateLocations(t, itemsPerBlock, scriptHash);
             AllInside(image, at) && slot in SlotsRead(image, at, t.hashFns)
    ensures slot.record in file
  {
    hide PackedImage, BinSlots, SlotsRead, CandidateLocations;
    CandidateSlot(t, file, placement, blank, itemsPerBlock, scriptHash, slot);
    var i :| 0 <= i < t.hashFns && slot in BinSlots(t, file, placement, blank, t.Candidates(scriptHash)[i]);
    OccupiedSlot(t, file, placement, blank, t.Candidates(scriptHash)[i], slot);
  }

  lemma OccupiedSlot<K(!new)>(t: Table<K>, file: seq<IndexRecord<K>>, placement: seq<nat>, blank: IndexRecord<K>,
                              bin: nat, slot: IndexSlot<K>)
    requires Shaped(t, file, placement) && bin < t.bins && slot.occupied
    requires slot in BinSlots(t, file, placement, blank, bin)
    ensures slot.record in file
  {
    SlotsOfBin(t, bin, bin * t.slotsPerBin);
    var s :| 0 <= s < t.slotsPerBin && BinSlots(t, file, placement, blank, bin)[s] == slot;
    assert slot == SlotOf(file, placement[bin * t.slotsPerBin + s], blank);
  }

  /** Every record is read when its hash is looked up. */
  lemma RecordIsRead<K(!new)>(t: Table<K>, file: seq<IndexRecord<K>>, placement: seq<nat>, blank: IndexRecord<K>,
                              itemsPerBlock: nat, record: nat)
    requires WellPlaced(t, file, placement) && Stored(placement) == FirstIds(|file|)
    requires itemsPerBlock > 0 && record < |file|
    ensures var image := PackedImage(t, file, placement, blank, itemsPerBlock);
            var at := CandidateLocations(t, itemsPerBlock, file[record].scriptHash);
            AllInside(image, at) && IndexSlot(true, file[record]) in SlotsRead(image, at, t.hashFns)
  {
    hide PackedImage, BinSlots, SlotsRead, Stored, FirstIds;
    StoredOnce(placement, |file|, record);
    var o :| 0 <= o < |placement| && placement[o] == record;
    var candidates := t.Candidates(file[record].scriptHash);
    var i :| 0 <= i < |candidates| && candidates[i] == t.BinOfSlot(o);
    RecordInBin(t, file, placement, blank, o);
    CandidateSlot(t, file, placement, blank, itemsPerBlock, file[record].scriptHash, IndexSlot(true, file[record]));
  }

  lemma RecordInBin<K(!new)>(t: Table<K>, file: seq<IndexRecord<K>>, placement: seq<nat>, blank: IndexRecord<K>, o: nat)
    requires Shaped(t, file, placement) && o < |placement| && placement[o] != EMPTY_SLOT && t.BinOfSlot(o) < t.bins
    ensures IndexSlot(true, file[placement[o]]) in BinSlots(t, file, placement, blank, t.BinOfSlot(o))
  {
    var bin := t.BinOfSlot(o);
    SlotsOfBin(t, bin, o);
    var base := bin * t.slotsPerBin;
    var s := o - base;
    assert base + s == o;
    assert BinSlots(t, file, placement, blank, bin)[s] == SlotOf(file, placement[base + s], blank);
  }
}
