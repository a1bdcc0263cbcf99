/** Cuckoo placement of index records into bins (src/direct.rs, build_direct_index_placement and
    insert_index_record). */
module Cuckoo {
  import opened Common
  import opened Geometry
  import opened SlotTable

  const MAX_KICKS: nat := 10_000

  datatype IndexRecord<+K> = IndexRecord(scriptHash: K, startChunk: nat, numChunks: nat)

  /** Sizing of the table and its two hash streams, before reduction modulo their ranges. */
  datatype Table<!K(!new)> = Table(
    bins: nat,
    slotsPerBin: nat,
    hashFns: nat,
    binMix: (K, nat) -> nat,
    slotMix: (nat, nat) -> nat)
  {
    /** A table has room in its bins and, when it has bins, a search that ends for every hash. */
    ghost predicate Valid() {
      && slotsPerBin > 0 && hashFns > 0
      && (bins > 0 ==> forall k :: Ends(k))
    }

    /** The search for the candidate bins of `k` ends: after some number of nonces it has enough. */
    ghost predicate Ends(k: K)
      requires bins > 0
    {
      exists n: nat :: |Firsts(k, n)| >= hashFns
    }

    function BinHash(k: K, nonce: nat): (bin: nat)
      requires bins > 0
      ensures Residue(binMix(k, nonce), bin, bins)
    {
      Reduce(binMix(k, nonce), bins)
    }

    /** The distinct bins among the first `n` nonces, in order of first appearance. */
    function Firsts(k: K, n: nat): (r: seq<nat>)
      requires bins > 0
      ensures forall i :: 0 <= i < |r| ==> r[i] < bins
      ensures forall i, j :: 0 <= i < j < |r| ==> r[i] != r[j]
      ensures |r| <= n
    {
      if n == 0 then []
      else
        var before := Firsts(k, n - 1);
        var bin := BinHash(k, n - 1);
        if bin in before then before else before + [bin]
    }

    /** The candidate bins of a hash: its first `hashFns` distinct bins. */
    ghost function Candidates(k: K): (r: seq<nat>)
      requires bins > 0 && Ends(k)
      ensures |r| == hashFns
      ensures forall i :: 0 <= i < |r| ==> r[i] < bins
      ensures forall i, j :: 0 <= i < j < |r| ==> r[i] != r[j]
    {
      var n: nat :| |Firsts(k, n)| >= hashFns;
      Firsts(k, n)[..hashFns]
    }

    /** However far one looks beyond them, the candidates are the same. */
    lemma CandidatesAre(k: K, n: nat)
      requires bins > 0 && |Firsts(k, n)| >= hashFns
      ensures Ends(k) && Candidates(k) == Firsts(k, n)[..hashFns]
    {
      var m: nat :| |Firsts(k, m)| >= hashFns && Candidates(k) == Firsts(k, m)[..hashFns];
      if m <= n { FirstsGrow(k, m, n); } else { FirstsGrow(k, n, m); }
    }

    lemma {:induction false} FirstsGrow(k: K, m: nat, n: nat)
      requires bins > 0 && m <= n
      ensures |Firsts(k, m)| <= |Firsts(k, n)| && Firsts(k, m) == Firsts(k, n)[..|Firsts(k, m)|]
      decreases n
    {
      if m < n { FirstsGrow(k, m, n - 1); }
    }

    /** The bins the first `n` nonces show. */
    ghost function Shown(k: K, n: nat): set<nat>
      requires bins > 0
    {
      set m: nat | m < n :: BinHash(k, m)
    }

    lemma FirstsNext(k: K, n: nat)
      requires bins > 0
      ensures Firsts(k, n + 1) ==
              if BinHash(k, n) in Firsts(k, n) then Firsts(k, n) else Firsts(k, n) + [BinHash(k, n)]
    {
      hide BinHash;
    }

    lemma NothingShown(k: K)
      requires bins > 0
      ensures Firsts(k, 0) == [] && Shown(k, 0) == {}
    {
    }

    lemma {:induction false} FirstsAreShown(k: K, n: nat, bin: nat)
      requires bins > 0
      ensures bin in Firsts(k, n) <==> bin in Shown(k, n)
    {
      hide BinHash, Firsts, Shown;
      NothingShown(k);
      if n > 0 {
        FirstsAreShown(k, n - 1, bin);
        ShownNext(k, n - 1);
        FirstsNext(k, n - 1);
      }
    }

    lemma FirstsCount(k: K, n: nat)
      requires bins > 0
      ensures |Firsts(k, n)| == |Shown(k, n)|
    {
      hide BinHash, Firsts, Shown;
      DistinctCount(Firsts(k, n));
      forall bin: nat
        ensures bin in BinSet(Firsts(k, n)) <==> bin in Shown(k, n)
      {
        FirstsAreShown(k, n, bin);
      }
      assert BinSet(Firsts(k, n)) == Shown(k, n);
    }

    lemma ShownNext(k: K, n: nat)
      requires bins > 0
      ensures Shown(k, n + 1) == Shown(k, n) + {BinHash(k, n)}
    {
      hide BinHash;
    }

    /** When the search ends: exactly when some first nonces show as many bins as there are hash functions. */
    lemma EndsExactly(k: K)
      requires bins > 0
      ensures Ends(k) <==> exists n: nat :: |Shown(k, n)| >= hashFns
    {
      if n: nat :| |Firsts(k, n)| >= hashFns {
        FirstsCount(k, n);
      }
      if n: nat :| |Shown(k, n)| >= hashFns {
        FirstsCount(k, n);
      }
    }

    /** Only a table with at least as many bins as hash functions can end the search, for any hash. */
    lemma EndsNeedsBins(k: K)
      requires bins > 0 && Ends(k)
      ensures bins >= hashFns
    {
      var n: nat :| |Firsts(k, n)| >= hashFns;
      DistinctCount(Firsts(k, n));
      BelowCount(BinSet(Firsts(k, n)), bins);
    }

    /** That many bins are not enough: a hash whose stream repeats one bin is searched for without end. */
    lemma ConstantStreamLoops(k: K)
      requires bins > 0 && hashFns >= 2
      requires forall n: nat :: BinHash(k, n) == BinHash(k, 0)
      ensures !Ends(k)
    {
      forall n: nat
        ensures |Firsts(k, n)| <= 1
      {
        OneBinShown(k, n);
      }
    }

    lemma {:induction false} OneBinShown(k: K, n: nat)
      requires bins > 0 && forall m: nat :: BinHash(k, m) == BinHash(k, 0)
      ensures n > 0 ==> Firsts(k, n) == [BinHash(k, 0)]
    {
      hide BinHash, Firsts;
      NothingShown(k);
      if n > 0 {
        assert BinHash(k, n - 1) == BinHash(k, 0);
        FirstsNext(k, n - 1);
        OneBinShown(k, n - 1);
      }
    }

    /** The first `hashFns` distinct bins of the stream of one hash, whatever other hashes show. */
    method CandidateBins(k: K) returns (r: Result<seq<nat>>)
      requires hashFns > 0 && bins > 0 ==> Ends(k)
      ensures r.Ok? <==> hashFns > 0 && bins > 0
      ensures r.Ok? ==> r.value == Candidates(k)
    {
      if hashFns == 0 || bins == 0 {
        return Err(InvalidInput);
      }
      ghost var enough: nat :| |Firsts(k, enough)| >= hashFns;
      var out: seq<nat> := [];
      var nonce := 0;
      while |out| < hashFns
        invariant out == Firsts(k, nonce) && |out| <= hashFns && nonce <= enough
        decreases enough - nonce
      {
        var bin := BinHash(k, nonce);
        if bin !in out {
          out := out + [bin];
        }
        nonce := nonce + 1;
      }
      CandidatesAre(k, nonce);
      return Ok(out);
    }

    function BinOfSlot(o: nat): nat
      requires slotsPerBin > 0
    {
      o / slotsPerBin
    }
  }

  ghost function BinSet(bins: seq<nat>): (r: set<nat>)
    ensures forall bin :: bin in r <==> bin in bins
  {
    set bin | bin in bins
  }

  lemma {:induction false} DistinctCount(bins: seq<nat>)
    requires forall i, j :: 0 <= i < j < |bins| ==> bins[i] != bins[j]
    ensures |BinSet(bins)| == |bins|
  {
    if bins == [] {
      assert BinSet(bins) == {};
    } else {
      var n := |bins| - 1;
      DistinctCount(bins[..n]);
      assert BinSet(bins) == BinSet(bins[..n]) + {bins[n]};
    }
  }

  lemma {:induction false} BelowCount(bins: set<nat>, n: nat)
    requires forall bin :: bin in bins ==> bin < n
    ensures |bins| <= n
  {
    if n == 0 {
      assert bins == {};
    } else {
      BelowCount(bins - {n - 1}, n - 1);
    }
  }

  /** Number of bins for a file, the load factor taken as an exact fraction. */
  function BinCount(records: nat, slotsPerBin: nat, loadFactor: real): (bins: nat)
    requires slotsPerBin > 0 && 0.0 < loadFactor < 1.0
  {
    if records == 0 then 0
    else
      var needed := Ceiling(records as real / (slotsPerBin as real * loadFactor));
      if needed < 1 then 1 else needed
  }

  function Ceiling(x: real): int {
    -((-x).Floor)
  }

  /** The file has at least `n >= 2` bins exactly when its records overfill `n - 1` bins at the load factor. */
  lemma BinCountReaches(records: nat, slotsPerBin: nat, loadFactor: real, n: nat)
    requires slotsPerBin > 0 && 0.0 < loadFactor < 1.0 && n >= 2
    ensures BinCount(records, slotsPerBin, loadFactor) >= n <==>
            records as real > (n - 1) as real * (slotsPerBin as real * loadFactor)
  {
    var perBin := slotsPerBin as real * loadFactor;
    var quotient := records as real / perBin;
    assert perBin > 0.0 && quotient * perBin == records as real;
    if records > 0 {
      CeilingReaches(quotient, n);
      ScaleCompare(quotient, (n - 1) as real, perBin);
    } else {
      assert (n - 1) as real * perBin > 0.0;
    }
  }

  lemma CeilingReaches(x: real, n: int)
    ensures Ceiling(x) >= n <==> x > (n - 1) as real
  {
  }

  lemma ScaleCompare(x: real, y: real, scale: real)
    requires scale > 0.0
    ensures x > y <==> x * scale > y * scale
  {
  }

  /** A file whose records do not overfill `hashFns - 1` bins gets a table in which no search ends, so its
      placement never returns. */
  lemma SmallFileLoops<K(!new)>(t: Table<K>, records: nat, loadFactor: real, k: K)
    requires t.slotsPerBin > 0 && 0.0 < loadFactor < 1.0 && t.hashFns >= 2 && records > 0
    requires t.bins == BinCount(records, t.slotsPerBin, loadFactor)
    requires records as real <= (t.hashFns - 1) as real * (t.slotsPerBin as real * loadFactor)
    ensures t.bins > 0 && !t.Ends(k)
  {
    BinCountReaches(records, t.slotsPerBin, loadFactor, t.hashFns);
    if t.Ends(k) {
      t.EndsNeedsBins(k);
    }
  }

  const DEFAULT_SLOTS_PER_BIN: nat := 4
  const DEFAULT_HASH_FNS: nat := 2
  const DEFAULT_LOAD_FACTOR: real := 0.95

  /** The default table of a file of one record: one bin, two hash functions, no end. */
  lemma OneRecordLoops<K(!new)>(t: Table<K>, k: K)
    requires t.slotsPerBin == DEFAULT_SLOTS_PER_BIN && t.hashFns == DEFAULT_HASH_FNS
    requires t.bins == BinCount(1, DEFAULT_SLOTS_PER_BIN, DEFAULT_LOAD_FACTOR)
    ensures t.bins == 1 && !t.Ends(k)
  {
    BinCountReaches(1, DEFAULT_SLOTS_PER_BIN, DEFAULT_LOAD_FACTOR, 2);
    SmallFileLoops(t, 1, DEFAULT_LOAD_FACTOR, k);
  }

  ghost predicate Shaped<K(!new)>(t: Table<K>, file: seq<IndexRecord<K>>, placement: seq<nat>) {
    && t.Valid() && t.bins > 0
    && |placement| == t.bins * t.slotsPerBin
    && |file| <= EMPTY_SLOT
    && forall o :: 0 <= o < |placement| ==> placement[o] == EMPTY_SLOT || placement[o] < |file|
  }

  /** Every placed record sits in one of its own candidate bins. */
  ghost predicate WellPlaced<K(!new)>(t: Table<K>, file: seq<IndexRecord<K>>, placement: seq<nat>) {
    && Shaped(t, file, placement)
    && forall o :: 0 <= o < |placement| && placement[o] != EMPTY_SLOT ==>
         t.BinOfSlot(o) in t.Candidates(file[placement[o]].scriptHash)
  }

  ghost predicate BinFull<K(!new)>(t: Table<K>, placement: seq<nat>, bin: nat)
    requires t.slotsPerBin > 0
  {
    forall o :: 0 <= o < |placement| && t.BinOfSlot(o) == bin ==> placement[o] != EMPTY_SLOT
  }

  ghost predicate AllFull<K(!new)>(t: Table<K>, placement: seq<nat>, bins: seq<nat>)
    requires t.slotsPerBin > 0
  {
    forall i :: 0 <= i < |bins| ==> BinFull(t, placement, bins[i])
  }

  /** Slots of a bin are consecutive. */
  lemma SlotsOfBin<K(!new)>(t: Table<K>, bin: nat, o: nat)
    requires t.slotsPerBin > 0
    ensures t.BinOfSlot(o) == bin <==> bin * t.slotsPerBin <= o < bin * t.slotsPerBin + t.slotsPerBin
    ensures bin < t.bins ==> bin * t.slotsPerBin + t.slotsPerBin <= t.bins * t.slotsPerBin
  {
    var z := t.slotsPerBin;
    BinRange(o, bin, z);
    if bin < t.bins {
      MulMonotone(bin + 1, t.bins, z);
      assert (bin + 1) * z == bin * z + z;
    }
  }

  /** Scans the bin and takes its first empty slot. */
  method PlaceInEmptySlot<K(!new)>(t: Table<K>, placement: array<nat>, bin: nat, record: nat) returns (placed: bool)
    requires t.slotsPerBin > 0 && bin < t.bins && placement.Length == t.bins * t.slotsPerBin
    modifies placement
    ensures placed <==> !BinFull(t, old(placement[..]), bin)
    ensures !placed ==> placement[..] == old(placement[..])
    ensures placed ==>
              exists o :: 0 <= o < placement.Length && PlacedAt(t, old(placement[..]), placement[..], bin, record, o)
  {
    var base := bin * t.slotsPerBin;
    SlotsOfBin(t, bin, base);
    for slot := base to base + t.slotsPerBin
      invariant placement[..] == old(placement[..])
      invariant forall o :: base <= o < slot ==> placement[o] != EMPTY_SLOT
    {
      if placement[slot] == EMPTY_SLOT {
        SlotsOfBin(t, bin, slot);
        forall q | 0 <= q < slot && t.BinOfSlot(q) == bin
          ensures placement[q] != EMPTY_SLOT
        {
          SlotsOfBin(t, bin, q);
        }
        placement[slot] := record;
        assert PlacedAt(t, old(placement[..]), placement[..], bin, record, slot);
        return true;
      }
    }
    forall o | 0 <= o < placement.Length && t.BinOfSlot(o) == bin
      ensures placement[o] != EMPTY_SLOT
    {
      SlotsOfBin(t, bin, o);
    }
    return false;
  }

  /** `record` went into slot `o`, the first empty one of the bin; nothing else changed. */
  ghost predicate PlacedAt<K(!new)>(t: Table<K>, before: seq<nat>, after: seq<nat>, bin: nat, record: nat, o: nat)
    requires t.slotsPerBin > 0
  {
    && o < |before| && before[o] == EMPTY_SLOT && t.BinOfSlot(o) == bin
    && (forall q :: 0 <= q < o && t.BinOfSlot(q) == bin ==> before[q] != EMPTY_SLOT)
    && after == before[o := record]
  }

  /** `record` went into the first bin of the list with room, not counting `except`. */
  ghost predicate PlacedFirst<K(!new)>(t: Table<K>, bins: seq<nat>, except: Option<nat>, before: seq<nat>, record: nat,
                                       after: seq<nat>)
    requires t.slotsPerBin > 0
  {
    exists i, o: nat ::
      && 0 <= i < |bins| && Some(bins[i]) != except && AllFullBut(t, before, bins[..i], except)
      && PlacedAt(t, before, after, bins[i], record, o)
  }

  ghost predicate AllFullBut<K(!new)>(t: Table<K>, placement: seq<nat>, bins: seq<nat>, except: Option<nat>)
    requires t.slotsPerBin > 0
  {
    forall i :: 0 <= i < |bins| && Some(bins[i]) != except ==> BinFull(t, placement, bins[i])
  }

  /** `record` was added to the placement in a slot of one of its candidate bins. */
  lemma PlacedWell<K(!new)>(t: Table<K>, file: seq<IndexRecord<K>>, before: seq<nat>, after: seq<nat>, bin: nat,
                            record: nat, o: nat)
    requires WellPlaced(t, file, before) && record < |file|
    requires bin in t.Candidates(file[record].scriptHash) && PlacedAt(t, before, after, bin, record, o)
    ensures WellPlaced(t, file, after) && Stored(after) == Stored(before) + multiset{record}
  {
    hide Table.Candidates, Table.Ends;
    StoredUpdate(before, o, record);
  }

  /** Tries the candidate bins in order, save `except`. On failure all tried bins are full. */
  method TryPlace<K(!new)>(t: Table<K>, file: seq<IndexRecord<K>>, placement: array<nat>, record: nat,
                           except: Option<nat>)
    returns (placed: bool)
    requires WellPlaced(t, file, placement[..]) && record < |file|
    modifies placement
    ensures WellPlaced(t, file, placement[..])
    ensures placed ==> Stored(placement[..]) == Stored(old(placement[..])) + multiset{record}
    ensures placed ==>
              PlacedFirst(t, t.Candidates(file[record].scriptHash), except, old(placement[..]), record, placement[..])
    ensures !placed ==>
              && placement[..] == old(placement[..])
              && AllFullBut(t, placement[..], t.Candidates(file[record].scriptHash), except)
  {
    hide BinFull, Stored, AllFullBut, PlacedFirst, Table.Ends, Table.Candidates;
    var bins := t.CandidateBins(file[record].scriptHash);
    NoneTried(t, placement[..], bins.value, except);
    for i := 0 to |bins.value|
      invariant placement[..] == old(placement[..])
      invariant AllFullBut(t, placement[..], bins.value[..i], except)
    {
      var bin := bins.value[i];
      OneMoreTried(t, placement[..], bins.value, i, except);
      if Some(bin) != except {
        placed := PlaceInEmptySlot(t, placement, bin, record);
        if placed {
          ghost var o :| 0 <= o < placement.Length && PlacedAt(t, old(placement[..]), placement[..], bin, record, o);
          PlacedWell(t, file, old(placement[..]), placement[..], bin, record, o);
          FirstWithRoom(t, bins.value, except, old(placement[..]), record, placement[..], i, o);
          return;
        }
      }
    }
    assert bins.value[..|bins.value|] == bins.value;
    return false;
  }

  lemma NoneTried<K(!new)>(t: Table<K>, placement: seq<nat>, bins: seq<nat>, except: Option<nat>)
    requires t.slotsPerBin > 0
    ensures AllFullBut(t, placement, bins[..0], except)
  {
  }

  lemma OneMoreTried<K(!new)>(t: Table<K>, placement: seq<nat>, bins: seq<nat>, i: nat, except: Option<nat>)
    requires t.slotsPerBin > 0 && i < |bins| && AllFullBut(t, placement, bins[..i], except)
    ensures Some(bins[i]) == except || BinFull(t, placement, bins[i]) ==>
              AllFullBut(t, placement, bins[..i + 1], except)
  {
    hide BinFull;
    assert bins[..i + 1] == bins[..i] + [bins[i]];
  }

  lemma FirstWithRoom<K(!new)>(t: Table<K>, bins: seq<nat>, except: Option<nat>, before: seq<nat>, record: nat,
                               after: seq<nat>, i: nat, o: nat)
    requires t.slotsPerBin > 0 && i < |bins| && Some(bins[i]) != except && AllFullBut(t, before, bins[..i], except)
    requires PlacedAt(t, before, after, bins[i], record, o)
    ensures PlacedFirst(t, bins, except, before, record, after)
  {
  }

  ghost predicate Follows(bins: seq<nat>, i: nat, current: nat, next: nat)
    requires i < |bins|
  {
    bins[i] == current && next == bins[(i + 1) % |bins|]
  }

  /** The next candidate bin after `current`, cyclically. */
  method AlternateCandidateBin<K(!new)>(t: Table<K>, scriptHash: K, current: nat, kick: nat) returns (bin: nat)
    requires t.Valid() && t.bins > 0
    ensures bin in t.Candidates(scriptHash)
    ensures var c := t.Candidates(scriptHash);
            current in c ==> exists i :: 0 <= i < |c| && Follows(c, i, current, bin)
  {
    var bins := t.CandidateBins(scriptHash);
    for i := 0 to |bins.value|
      invariant forall j :: 0 <= j < i ==> bins.value[j] != current
    {
      if bins.value[i] == current {
        assert Follows(bins.value, i, current, bins.value[(i + 1) % |bins.value|]);
        return bins.value[(i + 1) % |bins.value|];
      }
    }
    return bins.value[kick % |bins.value|];
  }

  /** While record `current` is carried: every other record is in place, and every bin `current` may
      go to is full. */
  ghost predicate Carrying<K(!new)>(t: Table<K>, file: seq<IndexRecord<K>>, placement: seq<nat>, current: nat,
                                    currentBin: nat) {
    && WellPlaced(t, file, placement)
    && current < |file|
    && currentBin in t.Candidates(file[current].scriptHash)
    && AllFull(t, placement, t.Candidates(file[current].scriptHash))
  }

  /** A kick swaps the carried record for a real one: the slot of a full bin is never empty. */
  lemma KickSwaps<K(!new)>(t: Table<K>, file: seq<IndexRecord<K>>, placement: seq<nat>, current: nat, currentBin: nat,
                           s: nat, o: nat)
    requires Carrying(t, file, placement, current, currentBin)
    requires o == currentBin * t.slotsPerBin + s && s < t.slotsPerBin
    ensures o < |placement|
    ensures placement[o] != EMPTY_SLOT && placement[o] < |file|
    ensures WellPlaced(t, file, placement[o := current])
    ensures Stored(placement[o := current]) + multiset{placement[o]} == Stored(placement) + multiset{current}
    ensures currentBin in t.Candidates(file[placement[o]].scriptHash)
    ensures BinFull(t, placement[o := current], currentBin)
  {
    SlotsOfBin(t, currentBin, o);
    StoredUpdate(placement, o, current);
  }

  lemma SwapNothing(placement: seq<nat>, record: nat)
    ensures Swapped(placement, record, placement, record)
  {
  }

  lemma SwapOn(start: seq<nat>, record: nat, before: seq<nat>, current: nat, after: seq<nat>, evicted: nat)
    requires Swapped(start, record, before, current) && Swapped(before, current, after, evicted)
    ensures Swapped(start, record, after, evicted)
  {
  }

  lemma SwapEnds(start: seq<nat>, record: nat, before: seq<nat>, current: nat, after: seq<nat>)
    requires Swapped(start, record, before, current) && Stored(after) == Stored(before) + multiset{current}
    ensures Stored(after) == Stored(start) + multiset{record}
  {
  }

  /** Between the two, `carried` took the place of `record` outside the placement. */
  ghost predicate Swapped(before: seq<nat>, record: nat, after: seq<nat>, carried: nat) {
    Stored(after) + multiset{carried} == Stored(before) + multiset{record}
  }

  /** The table, the record outside it, and the bin that record goes to next. */
  datatype Carry = Carry(placement: seq<nat>, current: nat, bin: nat)

  /** The slot the carried record takes at a kick. */
  function KickSlot<K(!new)>(t: Table<K>, at: Carry, kick: nat): (o: nat)
    requires t.slotsPerBin > 0
    ensures at.bin * t.slotsPerBin <= o
    ensures Residue(t.slotMix(at.current, kick), o - at.bin * t.slotsPerBin, t.slotsPerBin)
  {
    at.bin * t.slotsPerBin + Reduce(t.slotMix(at.current, kick), t.slotsPerBin)
  }

  /** The kick took the slot, and what was there is carried on to the next of its bins. */
  ghost predicate Kicked<K(!new)>(t: Table<K>, file: seq<IndexRecord<K>>, at: Carry, kick: nat, next: Carry)
    requires t.Valid() && t.bins > 0
  {
    var o := KickSlot(t, at, kick);
    && o < |at.placement| && next.placement == at.placement[o := at.current] && next.current == at.placement[o]
    && next.current < |file|
    && var bins := t.Candidates(file[next.current].scriptHash);
       exists i :: 0 <= i < |bins| && Follows(bins, i, at.bin, next.bin)
  }

  /** The kick took the slot, and what was there found room in another of its bins. */
  ghost predicate KickPlaces<K(!new)>(t: Table<K>, file: seq<IndexRecord<K>>, at: Carry, kick: nat, after: seq<nat>)
    requires t.Valid() && t.bins > 0
  {
    var o := KickSlot(t, at, kick);
    && o < |at.placement| && at.placement[o] < |file|
    && PlacedFirst(t, t.Candidates(file[at.placement[o]].scriptHash), Some(at.bin), at.placement[o := at.current],
                   at.placement[o], after)
  }

  /** The kicks of an insertion: it starts with the record at its first candidate bin, and before every kick
      all bins the carried record may go to are full. */
  ghost predicate KickTrail<K(!new)>(t: Table<K>, file: seq<IndexRecord<K>>, before: seq<nat>, record: nat,
                                     trail: seq<Carry>)
    requires t.Valid() && t.bins > 0 && record < |file|
  {
    && trail != [] && trail[0] == Carry(before, record, t.Candidates(file[record].scriptHash)[0])
    && (forall k :: 0 <= k < |trail| ==> Carrying(t, file, trail[k].placement, trail[k].current, trail[k].bin))
    && forall k: nat :: k < |trail| - 1 ==> Kicked(t, file, trail[k], k, trail[k + 1])
  }

  /** One kick: the carried record takes a slot of its full bin, and the record it displaces is placed
      in another of its bins or carried on. */
  method Kick<K(!new)>(t: Table<K>, file: seq<IndexRecord<K>>, placement: array<nat>, current: nat, currentBin: nat,
                       kick: nat)
    returns (placed: bool, next: nat, nextBin: nat)
    requires Carrying(t, file, placement[..], current, currentBin)
    modifies placement
    ensures WellPlaced(t, file, placement[..])
    ensures placed ==>
              && Stored(placement[..]) == Stored(old(placement[..])) + multiset{current}
              && KickPlaces(t, file, Carry(old(placement[..]), current, currentBin), kick, placement[..])
    ensures !placed ==>
              && Carrying(t, file, placement[..], next, nextBin)
              && Swapped(old(placement[..]), current, placement[..], next)
              && Kicked(t, file, Carry(old(placement[..]), current, currentBin), kick,
                        Carry(placement[..], next, nextBin))
  {
    hide BinFull, Stored, PlacedFirst;
    ghost var before := placement[..];
    var slot := Reduce(t.slotMix(current, kick), t.slotsPerBin);
    var offset := currentBin * t.slotsPerBin + slot;
    KickSwaps(t, file, before, current, currentBin, slot, offset);
    next := placement[offset];
    placement[offset] := current;
    if next == EMPTY_SLOT {
      assert false;
    }
    ghost var kicked := placement[..];
    assert kicked == before[offset := current];
    placed := TryPlace(t, file, placement, next, Some(currentBin));
    nextBin := currentBin;
    if !placed {
      nextBin := AlternateCandidateBin(t, file[next].scriptHash, currentBin, kick + 1);
    }
  }

  /** Inserts one record, kicking others to their alternate bins. All the time the placement and the
      carried record together hold each record once; on success the record has been added. The record
      goes to its first candidate bin with room; without such a bin `trail` lists the kicks, the last of
      which found room, or 10,000 of which did not. */
  method InsertIndexRecord<K(!new)>(t: Table<K>, file: seq<IndexRecord<K>>, placement: array<nat>, record: nat)
    returns (r: Result<()>, ghost trail: seq<Carry>)
    requires WellPlaced(t, file, placement[..]) && record < |file|
    modifies placement
    ensures WellPlaced(t, file, placement[..])
    ensures r.Ok? ==> Stored(placement[..]) == Stored(old(placement[..])) + multiset{record}
    ensures trail == [] <==> !AllFull(t, old(placement[..]), t.Candidates(file[record].scriptHash))
    ensures trail == [] ==>
              && r.Ok?
              && PlacedFirst(t, t.Candidates(file[record].scriptHash), None, old(placement[..]), record, placement[..])
    ensures trail != [] ==> KickTrail(t, file, old(placement[..]), record, trail)
    ensures trail != [] && r.Ok? ==>
              && |trail| <= 10_000
              && KickPlaces(t, file, trail[|trail| - 1], |trail| - 1, placement[..])
    ensures r.Err? ==>
              && r.error == InvalidInput && |trail| == 10_001 && trail[10_000].placement == placement[..]
              && Swapped(old(placement[..]), record, placement[..], trail[10_000].current)
  {
    hide BinFull, Stored, Swapped, PlacedFirst, Kicked, KickPlaces;
    var current := record;
    var bins := t.CandidateBins(file[current].scriptHash);
    var currentBin := bins.value[0];
    trail := [];
    var placed := TryPlace(t, file, placement, current, None);
    if placed {
      HadRoom(t, bins.value, old(placement[..]), record, placement[..]);
      return Ok(()), trail;
    }
    SwapNothing(placement[..], record);
    trail := [Carry(placement[..], current, currentBin)];
    hide Carrying;
    for kick := 0 to MAX_KICKS
      invariant WellPlaced(t, file, placement[..])
      invariant |trail| == kick + 1 && KickTrail(t, file, old(placement[..]), record, trail)
      invariant trail[kick] == Carry(placement[..], current, currentBin)
      invariant Swapped(old(placement[..]), record, placement[..], current)
    {
      ghost var before, carried := placement[..], current;
      placed, current, currentBin := Kick(t, file, placement, current, currentBin, kick);
      if placed {
        SwapEnds(old(placement[..]), record, before, carried, placement[..]);
        return Ok(()), trail;
      }
      SwapOn(old(placement[..]), record, before, carried, placement[..], current);
      trail := trail + [Carry(placement[..], current, currentBin)];
    }
    return Err(InvalidInput), trail;
  }

  lemma HadRoom<K(!new)>(t: Table<K>, bins: seq<nat>, before: seq<nat>, record: nat, after: seq<nat>)
    requires t.slotsPerBin > 0 && PlacedFirst(t, bins, None, before, record, after)
    ensures !AllFull(t, before, bins)
  {
    hide AllFullBut;
    var i, o: nat :|
      && 0 <= i < |bins| && Some(bins[i]) != None && AllFullBut(t, before, bins[..i], None)
      && PlacedAt(t, before, after, bins[i], record, o);
    NotFull(t, before, after, bins[i], record, o);
  }

  lemma NotFull<K(!new)>(t: Table<K>, before: seq<nat>, after: seq<nat>, bin: nat, record: nat, o: nat)
    requires t.slotsPerBin > 0 && PlacedAt(t, before, after, bin, record, o)
    ensures !BinFull(t, before, bin)
  {
    assert before[o] == EMPTY_SLOT;
  }

  /** A placement of the records before `record` from which 10,000 kicks find no room for it. */
  ghost predicate InsertionFails<K(!new)>(t: Table<K>, file: seq<IndexRecord<K>>, record: nat, placement: seq<nat>,
                                          trail: seq<Carry>)
    requires t.Valid() && t.bins > 0
  {
    && record < |file| && WellPlaced(t, file, placement) && Stored(placement) == FirstIds(record)
    && |trail| == 10_001 && KickTrail(t, file, placement, record, trail)
  }

  /** Then all candidate bins of the record were full. */
  lemma InsertionFailed<K(!new)>(t: Table<K>, file: seq<IndexRecord<K>>, record: nat, placement: seq<nat>,
                                 trail: seq<Carry>)
    requires WellPlaced(t, file, placement) && record < |file| && Stored(placement) == FirstIds(record)
    requires |trail| == 10_001 && KickTrail(t, file, placement, record, trail)
    requires AllFull(t, placement, t.Candidates(file[record].scriptHash))
    ensures InsertionFails(t, file, record, placement, trail) && record >= t.hashFns * t.slotsPerBin
  {
    hide Stored, KickTrail, AllFull, BinFull;
    FullBinsHold(t, file, placement, t.Candidates(file[record].scriptHash));
    FirstIdsCount(record);
  }

  /** Inserts every record of the file. A finished placement holds each record exactly once, in one
      of its candidate bins. Every file that fits the bins one hash can go to gets one; a file that gets
      none is too long for 32-bit ids, or 10,000 kicks found no room for one of its records. */
  method BuildPlacement<K(!new)>(t: Table<K>, file: seq<IndexRecord<K>>) returns (r: Result<array<nat>>)
    requires t.Valid() && (file != [] ==> t.bins > 0)
    ensures |file| > U32_MAX ==> r.Err?
    ensures r.Ok? ==>
              && fresh(r.value) && r.value.Length == t.bins * t.slotsPerBin
              && Stored(r.value[..]) == FirstIds(|file|)
              && (file != [] ==> WellPlaced(t, file, r.value[..]))
    ensures |file| <= U32_MAX && |file| <= t.hashFns * t.slotsPerBin ==> r.Ok?
    ensures r.Err? ==>
              || |file| > U32_MAX
              || (t.bins > 0 && exists record, placement, trail :: InsertionFails(t, file, record, placement, trail))
  {
    hide Stored, WellPlaced, KickTrail, AllFull, PlacedFirst, InsertionFails, Table.Candidates, Table.Ends;
    if |file| > U32_MAX {
      return Err(InvalidInput);
    }
    var placement := new nat[t.bins * t.slotsPerBin](_ => EMPTY_SLOT);
    NothingStored(t, file, placement[..]);
    for record := 0 to |file|
      invariant file != [] ==> WellPlaced(t, file, placement[..])
      invariant Stored(placement[..]) == FirstIds(record)
    {
      ghost var before := placement[..];
      var inserted, trail := InsertIndexRecord(t, file, placement, record);
      if inserted.Err? {
        InsertionFailed(t, file, record, before, trail);
        return Err(inserted.error);
      }
    }
    return Ok(placement);
  }

  lemma {:induction false} FirstIdsCount(n: nat)
    ensures |FirstIds(n)| == n
  {
    if n > 0 {
      FirstIdsCount(n - 1);
      assert FirstIds(n) == FirstIds(n - 1) + multiset{n - 1} by { hide FirstIds; }
    }
  }

  ghost function Range(lo: nat, n: nat): (r: set<nat>)
  {
    if n == 0 then {} else Range(lo, n - 1) + {lo + n - 1}
  }

  lemma {:induction false} InRangeSet(lo: nat, n: nat, o: nat)
    ensures o in Range(lo, n) <==> lo <= o < lo + n
  {
    if n > 0 {
      InRangeSet(lo, n - 1, o);
    }
  }

  lemma {:induction false} RangeCount(lo: nat, n: nat)
    ensures |Range(lo, n)| == n
  {
    if n > 0 {
      RangeCount(lo, n - 1);
      InRangeSet(lo, n - 1, lo + n - 1);
    }
  }

  /** All slots of the listed bins, of `z` slots each. */
  ghost function SlotsIn(bins: seq<nat>, z: nat): (r: set<nat>) {
    if bins == [] then {} else SlotsIn(bins[..|bins| - 1], z) + Range(bins[|bins| - 1] * z, z)
  }

  /** The slots of a bin are consecutive. */
  lemma BinRange(o: nat, bin: nat, z: nat)
    requires z > 0
    ensures o / z == bin <==> bin * z <= o < bin * z + z
  {
    assert o == (o / z) * z + o % z;
    if bin * z <= o < bin * z + z {
      DivUnique(o, z, bin, o - bin * z);
    }
  }

  lemma {:induction false} SlotInBin(bins: seq<nat>, z: nat, o: nat) returns (i: nat)
    requires z > 0 && o in SlotsIn(bins, z)
    ensures i < |bins| && o / z == bins[i]
  {
    hide Range;
    i := |bins| - 1;
    if o in SlotsIn(bins[..i], z) {
      i := SlotInBin(bins[..i], z, o);
    } else {
      InRangeSet(bins[i] * z, z, o);
      BinRange(o, bins[i], z);
    }
  }

  lemma {:induction false} SlotsInCount(bins: seq<nat>, z: nat)
    requires z > 0 && forall i, j :: 0 <= i < j < |bins| ==> bins[i] != bins[j]
    ensures |SlotsIn(bins, z)| == |bins| * z
  {
    if bins != [] {
      hide Range;
      var n := |bins| - 1;
      SlotsInCount(bins[..n], z);
      BinApart(bins, z);
      RangeCount(bins[n] * z, z);
      UnionCount(SlotsIn(bins[..n], z), Range(bins[n] * z, z));
      OneMoreTimes(n, z);
    }
  }

  lemma BinApart(bins: seq<nat>, z: nat)
    requires z > 0 && bins != [] && forall i, j :: 0 <= i < j < |bins| ==> bins[i] != bins[j]
    ensures SlotsIn(bins[..|bins| - 1], z) !! Range(bins[|bins| - 1] * z, z)
  {
    hide SlotsIn, Range;
    var n := |bins| - 1;
    forall o | o in SlotsIn(bins[..n], z)
      ensures o !in Range(bins[n] * z, z)
    {
      NotInLast(bins, z, o);
    }
  }

  lemma NotInLast(bins: seq<nat>, z: nat, o: nat)
    requires z > 0 && bins != [] && forall i, j :: 0 <= i < j < |bins| ==> bins[i] != bins[j]
    requires o in SlotsIn(bins[..|bins| - 1], z)
    ensures o !in Range(bins[|bins| - 1] * z, z)
  {
    hide SlotsIn, Range;
    var n := |bins| - 1;
    var i := SlotInBin(bins[..n], z, o);
    BinRange(o, bins[n], z);
    InRangeSet(bins[n] * z, z, o);
  }

  lemma UnionCount(a: set<nat>, b: set<nat>)
    requires a !! b
    ensures |a + b| == |a| + |b|
  {
  }

  /** Slots that are not empty store something each. */
  lemma {:induction false} FilledSlots(placement: seq<nat>, slots: set<nat>)
    requires forall o :: o in slots ==> o < |placement| && placement[o] != EMPTY_SLOT
    ensures |Stored(placement)| >= |slots|
    decreases |slots|
  {
    if slots != {} {
      var o :| o in slots;
      var less := placement[o := EMPTY_SLOT];
      StoredUpdate(placement, o, EMPTY_SLOT);
      FilledSlots(less, slots - {o});
      assert |Stored(less) + multiset{placement[o]}| == |Stored(less)| + 1;
      hide Stored;
      assert Stored(less) + multiset{placement[o]} == Stored(placement) + multiset{};
    }
  }

  /** Distinct full bins store a binful each. */
  lemma FullBinsHold<K(!new)>(t: Table<K>, file: seq<IndexRecord<K>>, placement: seq<nat>, bins: seq<nat>)
    requires WellPlaced(t, file, placement) && AllFull(t, placement, bins)
    requires forall i :: 0 <= i < |bins| ==> bins[i] < t.bins
    requires forall i, j :: 0 <= i < j < |bins| ==> bins[i] != bins[j]
    ensures |Stored(placement)| >= |bins| * t.slotsPerBin
  {
    hide Stored;
    SlotsInCount(bins, t.slotsPerBin);
    var slots := SlotsIn(bins, t.slotsPerBin);
    forall o | o in slots
      ensures o < |placement| && placement[o] != EMPTY_SLOT
    {
      var i := SlotInBin(bins, t.slotsPerBin, o);
      SlotsOfBin(t, bins[i], o);
      assert BinFull(t, placement, bins[i]);
    }
    FilledSlots(placement, slots);
  }

  lemma NothingStored<K(!new)>(t: Table<K>, file: seq<IndexRecord<K>>, placement: seq<nat>)
    requires t.Valid() && |file| <= EMPTY_SLOT && |placement| == t.bins * t.slotsPerBin
    requires forall o :: 0 <= o < |placement| ==> placement[o] == EMPTY_SLOT
    ensures Stored(placement) == FirstIds(0)
    ensures t.bins > 0 ==> WellPlaced(t, file, placement)
  {
    AllEmpty(placement);
  }
}
