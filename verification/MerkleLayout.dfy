/** Where the tiered tree keeps each digest (src/merkle.rs): nodes below `limit` in trusted memory,
    the others packed into hash-store pages. */
module MerkleLayout {
  import opened Common
  import opened Geometry
  import opened MerkleSpec

  const HASH_BYTES: nat := 32

  function TreeLevels(leafBase: nat): nat {
    TrailingZeros(leafBase) + 1
  }

  function TrustedNodeLimit(leafBase: nat, trustedLevels: nat): (r: Result<nat>)
    ensures r.Ok? <==> 1 <= trustedLevels <= TreeLevels(leafBase)
    ensures r.Ok? ==> r.value == Pow2(trustedLevels) && r.value >= 2 && r.value % 2 == 0
    ensures r.Ok? && IsPowerOfTwo(leafBase) ==> r.value <= 2 * leafBase
  {
    if trustedLevels == 0 || trustedLevels > TreeLevels(leafBase) then Err(InvalidInput)
    else
      Pow2Monotone(trustedLevels, TreeLevels(leafBase));
      Ok(Pow2(trustedLevels))
  }

  function HashesPerPage(pageSize: nat): (r: Result<nat>)
    ensures r.Ok? <==> pageSize >= HASH_BYTES
    ensures r.Ok? ==> r.value >= 1 && r.value * HASH_BYTES <= pageSize < (r.value + 1) * HASH_BYTES
  {
    if pageSize < HASH_BYTES then Err(InvalidInput) else Ok(pageSize / HASH_BYTES)
  }

  /** Quotient rounded up: the least number of pages that hold the digests. */
  function PagesForHashNodes(hashNodes: nat, perPage: nat): (r: nat)
    requires perPage > 0
  {
    (hashNodes + perPage - 1) / perPage
  }

  /** Page and slot of a disk-backed node. */
  function DiskHashPosition(limit: nat, diskHashNodes: nat, perPage: nat, node: nat): (r: Result<(nat, nat)>)
    requires perPage > 0
    ensures r.Ok? <==> limit <= node < limit + diskHashNodes
  {
    if node < limit then Err(InvalidInput)
    else if node - limit >= diskHashNodes then Err(InvalidInput)
    else Ok(((node - limit) / perPage, (node - limit) % perPage))
  }

  /** Packed positions are in range, and the position determines the node. */
  lemma PositionsInRange(limit: nat, diskHashNodes: nat, perPage: nat, node: nat)
    requires perPage > 0 && limit <= node < limit + diskHashNodes
    ensures var (page, slot) := DiskHashPosition(limit, diskHashNodes, perPage, node).value;
            && page < PagesForHashNodes(diskHashNodes, perPage) && slot < perPage
            && node == limit + page * perPage + slot
  {
    var x := node - limit;
    var q, pages := x / perPage, PagesForHashNodes(diskHashNodes, perPage);
    assert x == q * perPage + x % perPage;
    var total := diskHashNodes + perPage - 1;
    assert total == pages * perPage + total % perPage;
    if pages <= q {
      MulMonotone(pages, q, perPage);
      assert false;
    }
  }

  lemma PositionsDisjoint(limit: nat, diskHashNodes: nat, perPage: nat, a: nat, b: nat)
    requires perPage > 0 && limit <= a < limit + diskHashNodes && limit <= b < limit + diskHashNodes
    requires DiskHashPosition(limit, diskHashNodes, perPage, a) == DiskHashPosition(limit, diskHashNodes, perPage, b)
    ensures a == b
  {
    PositionsInRange(limit, diskHashNodes, perPage, a);
    PositionsInRange(limit, diskHashNodes, perPage, b);
  }

  /** The least number of pages: one page fewer cannot hold the digests. */
  lemma PagesAreLeast(hashNodes: nat, perPage: nat)
    requires perPage > 0
    ensures var pages := PagesForHashNodes(hashNodes, perPage);
            hashNodes <= pages * perPage && (pages > 0 ==> (pages - 1) * perPage < hashNodes)
  {
    var pages := PagesForHashNodes(hashNodes, perPage);
    var total := hashNodes + perPage - 1;
    assert total == pages * perPage + total % perPage;
    assert (pages - 1) * perPage == pages * perPage - perPage;
  }

  lemma InnerNode<P>(hs: Hasher<P>, pages: seq<P>, leafBase: nat, n: nat)
    requires 1 <= n < leafBase
    ensures NodeHash(hs, pages, leafBase, n) ==
            hs.node(n, NodeHash(hs, pages, leafBase, 2 * n), NodeHash(hs, pages, leafBase, 2 * n + 1))
  {
  }

  lemma LeafNodes<P>(hs: Hasher<P>, pages: seq<P>, leafBase: nat, view: seq<Hash>)
    requires leafBase >= 1 && |view| == 2 * leafBase
    requires forall k :: 0 <= k < leafBase ==> view[leafBase + k] == LeafHash(hs, pages, k)
    ensures forall n :: leafBase <= n < 2 * leafBase ==> view[n] == NodeHash(hs, pages, leafBase, n)
  {
    forall n | leafBase <= n < 2 * leafBase
      ensures view[n] == NodeHash(hs, pages, leafBase, n)
    {
      assert view[leafBase + (n - leafBase)] == LeafHash(hs, pages, n - leafBase);
    }
  }

  /** The stores have the shape the layout asks for. */
  ghost predicate Fits(trusted: seq<Hash>, disk: seq<seq<Hash>>, leafBase: nat, limit: nat, perPage: nat) {
    && |trusted| == limit <= 2 * leafBase && perPage > 0
    && PagesForHashNodes(2 * leafBase - limit, perPage) <= |disk|
    && forall p :: 0 <= p < |disk| ==> |disk[p]| == perPage
  }

  /** The digest of node `n`, wherever it is kept. */
  ghost function StoredHash(trusted: seq<Hash>, disk: seq<seq<Hash>>, leafBase: nat, limit: nat, perPage: nat, n: nat)
    : Hash
    requires Fits(trusted, disk, leafBase, limit, perPage) && n < 2 * leafBase
  {
    if n < limit then trusted[n]
    else
      var (page, slot) := DiskHashPosition(limit, 2 * leafBase - limit, perPage, n).value;
      PositionsInRange(limit, 2 * leafBase - limit, perPage, n);
      disk[page][slot]
  }

  /** The whole tree as one array of digests. */
  ghost function TieredView(trusted: seq<Hash>, disk: seq<seq<Hash>>, leafBase: nat, limit: nat, perPage: nat)
    : (r: seq<Hash>)
    requires Fits(trusted, disk, leafBase, limit, perPage)
    ensures |r| == 2 * leafBase
    ensures forall n :: 0 <= n < |r| ==> r[n] == StoredHash(trusted, disk, leafBase, limit, perPage, n)
  {
    seq(2 * leafBase, n requires 0 <= n < 2 * leafBase => StoredHash(trusted, disk, leafBase, limit, perPage, n))
  }

  lemma WriteTrusted(trusted: seq<Hash>, disk: seq<seq<Hash>>, leafBase: nat, limit: nat, perPage: nat, n: nat,
                     hash: Hash)
    requires Fits(trusted, disk, leafBase, limit, perPage) && n < limit
    ensures Fits(trusted[n := hash], disk, leafBase, limit, perPage)
    ensures TieredView(trusted[n := hash], disk, leafBase, limit, perPage) ==
            TieredView(trusted, disk, leafBase, limit, perPage)[n := hash]
  {
  }

  /** Writing one packed slot changes one node of the tree. */
  lemma WriteSlot(trusted: seq<Hash>, disk: seq<seq<Hash>>, leafBase: nat, limit: nat, perPage: nat, n: nat, hash: Hash)
    requires Fits(trusted, disk, leafBase, limit, perPage) && limit <= n < 2 * leafBase
    ensures var (page, slot) := DiskHashPosition(limit, 2 * leafBase - limit, perPage, n).value;
            && page < |disk| && slot < perPage
            && Fits(trusted, disk[page := disk[page][slot := hash]], leafBase, limit, perPage)
            && TieredView(trusted, disk[page := disk[page][slot := hash]], leafBase, limit, perPage) ==
               TieredView(trusted, disk, leafBase, limit, perPage)[n := hash]
  {
    hide PagesForHashNodes, DiskHashPosition;
    var diskNodes := 2 * leafBase - limit;
    PositionsInRange(limit, diskNodes, perPage, n);
    var (page, slot) := DiskHashPosition(limit, diskNodes, perPage, n).value;
    var after := disk[page := disk[page][slot := hash]];
    forall m | 0 <= m < 2 * leafBase
      ensures StoredHash(trusted, after, leafBase, limit, perPage, m) ==
              TieredView(trusted, disk, leafBase, limit, perPage)[n := hash][m]
    {
      if m >= limit {
        PositionsInRange(limit, diskNodes, perPage, m);
        var (p, s) := DiskHashPosition(limit, diskNodes, perPage, m).value;
        if p == page && s == slot {
          PositionsDisjoint(limit, diskNodes, perPage, m, n);
        }
      }
    }
  }

  /** One access to a page of the hash store. */
  datatype Touch = HashRead(page: nat) | HashWrite(page: nat)

  lemma SiblingRange(limit: nat, leafBase: nat, n: nat)
    requires limit % 2 == 0 && 2 <= n < 2 * leafBase
    ensures 1 <= SiblingNode(n) < 2 * leafBase && SiblingNode(n) / 2 == n / 2 < leafBase
    ensures n >= limit <==> SiblingNode(n) >= limit
    ensures IsLeftChild(n) ==> n == 2 * (n / 2) && SiblingNode(n) == 2 * (n / 2) + 1
    ensures !IsLeftChild(n) ==> n == 2 * (n / 2) + 1 && SiblingNode(n) == 2 * (n / 2)
  {
  }

  /** Hash-store accesses of reading and of writing one digest: a packed write reads its page first. */
  function ReadTouches(limit: nat, perPage: nat, n: nat): seq<Touch>
    requires perPage > 0
  {
    if n < limit then [] else [HashRead((n - limit) / perPage)]
  }

  function WriteTouches(limit: nat, perPage: nat, n: nat): seq<Touch>
    requires perPage > 0
  {
    if n < limit then [] else [HashRead((n - limit) / perPage), HashWrite((n - limit) / perPage)]
  }

  /** Accesses of the climb from `n` to the trusted frontier. */
  function VerifyTouches(limit: nat, perPage: nat, n: nat): seq<Touch>
    requires perPage > 0 && n >= 1
  {
    if n < limit || n == 1 then []
    else ReadTouches(limit, perPage, SiblingNode(n)) + VerifyTouches(limit, perPage, n / 2)
  }

  /** Accesses of the update from `n` to the root. */
  function UpdateTouches(limit: nat, perPage: nat, n: nat): seq<Touch>
    requires perPage > 0 && n >= 1
  {
    if n == 1 then WriteTouches(limit, perPage, n)
    else
      WriteTouches(limit, perPage, n) + ReadTouches(limit, perPage, SiblingNode(n)) +
      UpdateTouches(limit, perPage, n / 2)
  }
}
