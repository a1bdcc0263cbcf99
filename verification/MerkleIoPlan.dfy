/** The planner of hash-store accesses (src/bin/oramctl.rs, MerkleIoPlanner) and the closed-form touch
    counts (src/ring_stress.rs, merkle_hash_touch_cost), against what the tiered store really does. */
module MerkleIoPlan {
  import opened Common
  import opened Geometry
  import opened MerkleSpec
  import opened MerkleLayout

  function PagesRead(touches: seq<Touch>): seq<nat> {
    if touches == [] then []
    else (if touches[0].HashRead? then [touches[0].page] else []) + PagesRead(touches[1..])
  }

  function PagesWritten(touches: seq<Touch>): seq<nat> {
    if touches == [] then []
    else (if touches[0].HashWrite? then [touches[0].page] else []) + PagesWritten(touches[1..])
  }

  lemma {:induction false} ReadsConcat(a: seq<Touch>, b: seq<Touch>)
    ensures PagesRead(a + b) == PagesRead(a) + PagesRead(b)
  {
    if a == [] {
      assert a + b == b;
    } else {
      var all := a + b;
      assert all[1..] == a[1..] + b && all[0] == a[0];
      ReadsConcat(a[1..], b);
    }
  }

  lemma {:induction false} WritesConcat(a: seq<Touch>, b: seq<Touch>)
    ensures PagesWritten(a + b) == PagesWritten(a) + PagesWritten(b)
  {
    if a == [] {
      assert a + b == b;
    } else {
      var all := a + b;
      assert all[1..] == a[1..] + b && all[0] == a[0];
      WritesConcat(a[1..], b);
    }
  }

  lemma PagesConcat(a: seq<Touch>, b: seq<Touch>)
    ensures PagesRead(a + b) == PagesRead(a) + PagesRead(b)
    ensures PagesWritten(a + b) == PagesWritten(a) + PagesWritten(b)
  {
    hide PagesRead, PagesWritten;
    ReadsConcat(a, b);
    WritesConcat(a, b);
  }

  lemma SingleTouch(touch: Touch)
    ensures PagesRead([touch]) == (if touch.HashRead? then [touch.page] else [])
    ensures PagesWritten([touch]) == (if touch.HashWrite? then [touch.page] else [])
  {
    var touches := [touch];
    assert touches[1..] == [];
    NoTouches();
  }

  lemma PagesOfWrite(page: nat)
    ensures PagesRead([HashRead(page), HashWrite(page)]) == [page]
    ensures PagesWritten([HashRead(page), HashWrite(page)]) == [page]
  {
    SingleTouch(HashRead(page));
    SingleTouch(HashWrite(page));
    PagesConcat([HashRead(page)], [HashWrite(page)]);
    assert [HashRead(page)] + [HashWrite(page)] == [HashRead(page), HashWrite(page)];
  }

  class PageTouchStats {
    var touches: nat
    var pages: set<nat>
    /** The touched pages in order. */
    ghost var listed: seq<nat>

    ghost predicate Valid()
      reads this
    {
      touches == |listed| && forall p :: p in pages <==> p in listed
    }

    constructor ()
      ensures Valid() && listed == []
    {
      touches, pages, listed := 0, {}, [];
    }

    method Add(page: nat)
      requires Valid()
      modifies this
      ensures Valid() && listed == old(listed) + [page]
    {
      touches := touches + 1;
      pages := pages + {page};
      listed := listed + [page];
    }
  }

  datatype MerkleIoPlanner = MerkleIoPlanner(
    leafBase: nat,
    trustedNodeLimit: nat,
    diskHashNodes: nat,
    hashesPerPage: nat)
  {
    ghost predicate Valid() {
      && leafBase >= 1 && hashesPerPage > 0
      && 2 <= trustedNodeLimit && trustedNodeLimit % 2 == 0
      && trustedNodeLimit + diskHashNodes == 2 * leafBase
    }

    static function New(pageCount: nat, trustedLevels: nat, hashPageSize: nat): (r: Result<MerkleIoPlanner>)
      ensures r.Ok? <==>
                pageCount > 0 && hashPageSize >= HASH_BYTES && 1 <= trustedLevels <= TreeLevels(LeafBase(pageCount))
      ensures r.Ok? ==>
                && r.value.Valid()
                && r.value.leafBase == LeafBase(pageCount)
                && TrustedNodeLimit(LeafBase(pageCount), trustedLevels) == Ok(r.value.trustedNodeLimit)
                && HashesPerPage(hashPageSize) == Ok(r.value.hashesPerPage)
    {
      if pageCount == 0 || hashPageSize < HASH_BYTES then Err(InvalidInput)
      else
        var leafBase := LeafBase(pageCount);
        if trustedLevels == 0 || trustedLevels > TreeLevels(leafBase) then Err(InvalidInput)
        else
          var limit := TrustedNodeLimit(leafBase, trustedLevels).value;
          Ok(MerkleIoPlanner(leafBase, limit, leafBase * 2 - limit, hashPageSize / HASH_BYTES))
    }

    function DiskHashPage(node: nat): (r: Result<Option<nat>>)
      requires hashesPerPage > 0
      ensures r.Ok? <==> node < trustedNodeLimit + diskHashNodes
      ensures r.Ok? ==> r.value.Some? == DiskHashPosition(trustedNodeLimit, diskHashNodes, hashesPerPage, node).Ok?
    {
      if node < trustedNodeLimit then Ok(None)
      else if node - trustedNodeLimit >= diskHashNodes then Err(InvalidInput)
      else Ok(Some((node - trustedNodeLimit) / hashesPerPage))
    }

    method AddHashRead(node: nat, hashReads: PageTouchStats) returns (r: Result<()>)
      requires Valid() && hashReads.Valid()
      modifies hashReads
      ensures hashReads.Valid()
      ensures r.Ok? <==> node < 2 * leafBase
      ensures hashReads.listed ==
              old(hashReads.listed) +
              if r.Ok? then PagesRead(ReadTouches(trustedNodeLimit, hashesPerPage, node)) else []
    {
      var page := DiskHashPage(node);
      if page.Err? {
        return Err(page.error);
      }
      if page.value.Some? {
        hashReads.Add(page.value.value);
      }
      return Ok(());
    }

    method AddHashWrite(node: nat, hashReads: PageTouchStats, hashWrites: PageTouchStats) returns (r: Result<()>)
      requires Valid() && hashReads.Valid() && hashWrites.Valid() && hashReads != hashWrites
      modifies hashReads, hashWrites
      ensures hashReads.Valid() && hashWrites.Valid()
      ensures r.Ok? <==> node < 2 * leafBase
      ensures hashReads.listed ==
              old(hashReads.listed) +
              if r.Ok? then PagesRead(WriteTouches(trustedNodeLimit, hashesPerPage, node)) else []
      ensures hashWrites.listed ==
              old(hashWrites.listed) +
              if r.Ok? then PagesWritten(WriteTouches(trustedNodeLimit, hashesPerPage, node)) else []
    {
      var page := DiskHashPage(node);
      if page.Err? {
        return Err(page.error);
      }
      if page.value.Some? {
        hashReads.Add(page.value.value);
        hashWrites.Add(page.value.value);
        PagesOfWrite(page.value.value);
      }
      return Ok(());
    }

    /** Lists exactly the hash pages the store reads to verify the page, in order. */
    method AddRead(pageIdx: nat, hashReads: PageTouchStats) returns (r: Result<()>)
      requires Valid() && hashReads.Valid()
      modifies hashReads
      ensures hashReads.Valid()
      ensures r.Ok? <==> pageIdx < leafBase
      ensures hashReads.listed == old(hashReads.listed) + if r.Ok?
              then PagesRead(VerifyTouches(trustedNodeLimit, hashesPerPage, leafBase + pageIdx)) else []
    {
      hide PagesRead, ReadTouches;
      var node := leafBase + pageIdx;
      if pageIdx >= leafBase {
        r := AddHashRead(SiblingNode(node), hashReads);
        return;
      }
      ghost var all := PagesRead(VerifyTouches(trustedNodeLimit, hashesPerPage, node));
      while node >= trustedNodeLimit
        invariant 1 <= node < 2 * leafBase && hashReads.Valid()
        invariant hashReads.listed + PagesRead(VerifyTouches(trustedNodeLimit, hashesPerPage, node)) ==
                  old(hashReads.listed) + all
      {
        SiblingRange(trustedNodeLimit, leafBase, node);
        PagesConcat(ReadTouches(trustedNodeLimit, hashesPerPage, SiblingNode(node)),
          VerifyTouches(trustedNodeLimit, hashesPerPage, node / 2));
        r := AddHashRead(SiblingNode(node), hashReads);
        node := node / 2;
      }
      NoTouches();
      return Ok(());
    }

    /** Lists exactly the hash pages the store reads and writes to update the page, in order. */
    method AddWrite(pageIdx: nat, hashReads: PageTouchStats, hashWrites: PageTouchStats) returns (r: Result<()>)
      requires Valid() && hashReads.Valid() && hashWrites.Valid() && hashReads != hashWrites
      modifies hashReads, hashWrites
      ensures hashReads.Valid() && hashWrites.Valid()
      ensures r.Ok? <==> pageIdx < leafBase
      ensures hashReads.listed == old(hashReads.listed) + if r.Ok?
              then PagesRead(UpdateTouches(trustedNodeLimit, hashesPerPage, leafBase + pageIdx)) else []
      ensures hashWrites.listed == old(hashWrites.listed) + if r.Ok?
              then PagesWritten(UpdateTouches(trustedNodeLimit, hashesPerPage, leafBase + pageIdx)) else []
    {
      hide PagesRead, PagesWritten, ReadTouches, WriteTouches, SiblingNode;
      var node := leafBase + pageIdx;
      r := AddHashWrite(node, hashReads, hashWrites);
      if r.Err? {
        return;
      }
      UpdateSplit(node);
      while node > 1
        invariant 1 <= node < 2 * leafBase && hashReads.Valid() && hashWrites.Valid()
        invariant hashReads.listed + PagesRead(AfterWrite(node)) ==
                  old(hashReads.listed) + PagesRead(UpdateTouches(trustedNodeLimit, hashesPerPage, leafBase + pageIdx))
        invariant hashWrites.listed + PagesWritten(AfterWrite(node)) ==
                  old(hashWrites.listed) +
                  PagesWritten(UpdateTouches(trustedNodeLimit, hashesPerPage, leafBase + pageIdx))
      {
        SiblingRange(trustedNodeLimit, leafBase, node);
        PagesConcat(ReadTouches(trustedNodeLimit, hashesPerPage, SiblingNode(node)),
          UpdateTouches(trustedNodeLimit, hashesPerPage, node / 2));
        UpdateSplit(node / 2);
        NoWrites(SiblingNode(node));
        r := AddHashRead(SiblingNode(node), hashReads);
        node := node / 2;
        r := AddHashWrite(node, hashReads, hashWrites);
      }
      NoTouches();
      return Ok(());
    }

    /** What an update still touches once the digest of `node` is written. */
    ghost function AfterWrite(node: nat): seq<Touch>
      requires hashesPerPage > 0 && node >= 1
    {
      if node == 1 then []
      else
        ReadTouches(trustedNodeLimit, hashesPerPage, SiblingNode(node)) +
        UpdateTouches(trustedNodeLimit, hashesPerPage, node / 2)
    }

    lemma UpdateSplit(node: nat)
      requires hashesPerPage > 0 && node >= 1
      ensures PagesRead(UpdateTouches(trustedNodeLimit, hashesPerPage, node)) ==
              PagesRead(WriteTouches(trustedNodeLimit, hashesPerPage, node)) + PagesRead(AfterWrite(node))
      ensures PagesWritten(UpdateTouches(trustedNodeLimit, hashesPerPage, node)) ==
              PagesWritten(WriteTouches(trustedNodeLimit, hashesPerPage, node)) + PagesWritten(AfterWrite(node))
    {
      var write := WriteTouches(trustedNodeLimit, hashesPerPage, node);
      PagesConcat(write, AfterWrite(node));
      assert UpdateTouches(trustedNodeLimit, hashesPerPage, node) == write + AfterWrite(node);
    }

    lemma NoWrites(node: nat)
      requires hashesPerPage > 0
      ensures PagesWritten(ReadTouches(trustedNodeLimit, hashesPerPage, node)) == []
    {
    }
  }

  lemma NoTouches()
    ensures PagesRead([]) == [] && PagesWritten([]) == []
  {
  }

  datatype MerkleHashTouchCost = MerkleHashTouchCost(perRead: nat, perWrite: nat)

  function MerkleHashTouchCostOf(pageCount: nat, trustedLevels: nat): Result<MerkleHashTouchCost> {
    var leafBase := if pageCount == 0 then 1 else LeafBase(pageCount);
    var levels := TrailingZeros(leafBase) + 1;
    if trustedLevels == 0 || trustedLevels > levels then Err(InvalidInput)
    else
      var diskLevels := levels - trustedLevels;
      Ok(MerkleHashTouchCost(diskLevels, diskLevels * 3))
  }

  /** A node at depth `h` is one climb step per level from the trusted frontier: reads one page per
      level to verify, reads two and writes one to update. */
  lemma {:induction false} TouchCounts(h: nat, t: nat, perPage: nat, n: nat)
    requires perPage > 0 && 1 <= t <= h + 1 && Pow2(h) <= n < Pow2(h + 1)
    ensures |VerifyTouches(Pow2(t), perPage, n)| == h + 1 - t
    ensures |UpdateTouches(Pow2(t), perPage, n)| == 3 * (h + 1 - t)
    decreases h
  {
    hide VerifyTouches, UpdateTouches, SiblingNode;
    Pow2Monotone(t, h + 1);
    if t <= h {
      Pow2Monotone(t, h);
      LevelTouches(Pow2(t), perPage, n);
      TouchCounts(h - 1, t, perPage, n / 2);
    } else {
      TrustedUpdate(Pow2(t), perPage, n);
    }
  }

  lemma LevelTouches(limit: nat, perPage: nat, n: nat)
    requires perPage > 0 && n >= 2 && n >= limit && limit % 2 == 0
    ensures |VerifyTouches(limit, perPage, n)| == 1 + |VerifyTouches(limit, perPage, n / 2)|
    ensures |UpdateTouches(limit, perPage, n)| == 3 + |UpdateTouches(limit, perPage, n / 2)|
  {
    SiblingRange(limit, n, n);
    assert |ReadTouches(limit, perPage, SiblingNode(n))| == 1 && |WriteTouches(limit, perPage, n)| == 2;
    hide ReadTouches, WriteTouches, SiblingNode;
  }

  lemma {:induction false} TrustedUpdate(limit: nat, perPage: nat, n: nat)
    requires perPage > 0 && 1 <= n < limit && limit % 2 == 0
    ensures UpdateTouches(limit, perPage, n) == [] && VerifyTouches(limit, perPage, n) == []
  {
    if n > 1 {
      TrustedUpdate(limit, perPage, n / 2);
      SiblingRange(limit, n, n);
    }
  }

  /** The closed forms are what the store does: `cost.perRead` accesses for every page read and
      `cost.perWrite` for every page write. */
  lemma TouchCostIsExact(pageCount: nat, trustedLevels: nat, perPage: nat, pageIdx: nat)
    requires perPage > 0 && pageIdx < pageCount && MerkleHashTouchCostOf(pageCount, trustedLevels).Ok?
    ensures var cost := MerkleHashTouchCostOf(pageCount, trustedLevels).value;
            var leafBase := LeafBase(pageCount);
            var limit := TrustedNodeLimit(leafBase, trustedLevels);
            && limit.Ok?
            && |VerifyTouches(limit.value, perPage, leafBase + pageIdx)| == cost.perRead
            && |UpdateTouches(limit.value, perPage, leafBase + pageIdx)| == cost.perWrite
  {
    TouchCounts(TrailingZeros(LeafBase(pageCount)), trustedLevels, perPage, LeafBase(pageCount) + pageIdx);
  }
}
