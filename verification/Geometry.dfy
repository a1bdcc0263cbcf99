/** Heap-ordered bucket tree of src/params.rs: node numbering, paths and their nesting. */
module Geometry {
  import opened Common

  function Pow2(n: nat): (r: nat)
    ensures r >= 1
  {
    if n == 0 then 1 else 2 * Pow2(n - 1)
  }

  function TrailingZeros(n: nat): nat {
    if n > 0 && n % 2 == 0 then 1 + TrailingZeros(n / 2) else 0
  }

  predicate IsPowerOfTwo(n: nat) {
    n == Pow2(TrailingZeros(n))
  }

  lemma {:induction false} TrailingZerosOfPow2(k: nat)
    ensures TrailingZeros(Pow2(k)) == k && IsPowerOfTwo(Pow2(k))
  {
    if k > 0 {
      TrailingZerosOfPow2(k - 1);
    }
  }

  /** The least power of two that is at least `n` and at least `2^k`. */
  function NextPowerOfTwo(n: nat, k: nat): (r: nat)
    ensures exists h :: k <= h && r == Pow2(h)
    ensures n <= r && (r == Pow2(k) || r < 2 * n)
    decreases n - Pow2(k)
  {
    if n <= Pow2(k) then Pow2(k) else NextPowerOfTwo(n, k + 1)
  }

  const DEFAULT_BUCKET_SIZE: nat := 4
  const DEFAULT_STASH_CAPACITY: nat := 512

  /** Public sizing of one ORAM. `Valid` is what the checked constructors establish. */
  datatype OramParams = OramParams(
    logicalBlocks: nat,
    bucketSize: nat,
    leaves: nat,
    stashCapacity: nat)
  {
    ghost predicate Valid() {
      && logicalBlocks > 0
      && bucketSize > 0
      && IsPowerOfTwo(leaves)
      && 2 <= leaves <= U32_MAX
    }

    /** Parameters with an explicit leaf count; the defaults are always usable. */
    static function WithLeaves(logicalBlocks: nat, blockSize: nat, leaves: nat): (r: Result<OramParams>)
      ensures r.Ok? <==> logicalBlocks > 0 && blockSize > 0 && IsPowerOfTwo(leaves) && 2 <= leaves <= U32_MAX
      ensures r.Ok? ==> r.value.Valid() && r.value == OramParams(logicalBlocks, 4, leaves, 512)
    {
      if logicalBlocks == 0 || blockSize == 0 || !IsPowerOfTwo(leaves) || leaves < 2 || leaves > U32_MAX
      then Err(InvalidInput)
      else Ok(OramParams(logicalBlocks, DEFAULT_BUCKET_SIZE, leaves, DEFAULT_STASH_CAPACITY))
    }

    /** One leaf per logical block, rounded up to a power of two. */
    static function New(logicalBlocks: nat, blockSize: nat): (r: Result<OramParams>)
      ensures r.Ok? ==>
                && r.value.Valid() && r.value.logicalBlocks == logicalBlocks
                && r.value.bucketSize == 4 && r.value.stashCapacity == 512
                && logicalBlocks <= r.value.leaves && (r.value.leaves == 2 || r.value.leaves < 2 * logicalBlocks)
    {
      WithLeaves(logicalBlocks, blockSize, NextPowerOfTwo(if logicalBlocks < 2 then 2 else logicalBlocks, 0))
    }

    function WithBucketSize(z: nat): (r: Result<OramParams>)
      ensures r.Ok? <==> z > 0
      ensures r.Ok? ==> r.value == OramParams(logicalBlocks, z, leaves, stashCapacity) && r.value.Height() == Height()
      ensures r.Ok? && Valid() ==> r.value.Valid()
    {
      if z == 0 then Err(InvalidInput) else Ok(this.(bucketSize := z))
    }

    /** A stash must hold the blocks of one whole path. */
    function WithStashCapacity(capacity: nat): (r: Result<OramParams>)
      ensures r.Ok? <==> bucketSize * Height() <= capacity
      ensures r.Ok? ==> r.value == OramParams(logicalBlocks, bucketSize, leaves, capacity)
      ensures r.Ok? && Valid() ==> r.value.Valid() && r.value.bucketSize * r.value.Height() <= r.value.stashCapacity
    {
      if capacity < bucketSize * Height() then Err(InvalidInput) else Ok(this.(stashCapacity := capacity))
    }

    function LeafBits(): nat {
      TrailingZeros(leaves)
    }

    function Height(): (h: nat)
      ensures h >= 1
    {
      LeafBits() + 1
    }

    function BucketCount(): int {
      leaves * 2 - 1
    }

    /** Heap index of the bucket at `depth` on the path to `leaf`. */
    function NodeIndex(depth: nat, leaf: nat): nat
      requires depth < Height()
    {
      if depth == 0 then
        0
      else
        Pow2(depth) - 1 + (leaf / Pow2(LeafBits() - depth)) % Pow2(depth)
    }

    function PathNodes(leaf: nat): (path: seq<nat>)
      ensures |path| == Height()
      ensures forall d {:trigger path[d]} :: 0 <= d < Height() ==> path[d] == NodeIndex(d, leaf)
    {
      seq(Height(), d requires 0 <= d < Height() => NodeIndex(d, leaf))
    }
  }

  lemma {:induction false} Pow2Monotone(a: nat, b: nat)
    requires a <= b
    ensures Pow2(a) <= Pow2(b)
    decreases b
  {
    if a < b {
      Pow2Monotone(a, b - 1);
    }
  }

  lemma {:induction false} Pow2Adds(a: nat, b: nat)
    ensures Pow2(a + b) == Pow2(a) * Pow2(b)
    decreases a
  {
    if a > 0 {
      Pow2Adds(a - 1, b);
      assert a + b - 1 == (a - 1) + b;
      assert 2 * (Pow2(a - 1) * Pow2(b)) == (2 * Pow2(a - 1)) * Pow2(b);
    }
  }

  lemma LeavesArePow2(p: OramParams)
    requires p.Valid()
    ensures p.leaves == Pow2(p.LeafBits())
    ensures p.LeafBits() >= 1
    ensures p.BucketCount() == Pow2(p.Height()) - 1
  {
  }

  lemma NonzeroMultiple(k: int, m: nat)
    ensures k >= 1 ==> k * m >= m
    ensures k <= -1 ==> k * m <= -(m as int)
  {
    if k >= 1 {
      MulMonotone(1, k, m);
    } else if k <= -1 {
      MulMonotone(1, -k, m);
      assert (-k) * m == -(k * m);
    }
  }

  lemma OneMoreTimes(n: nat, z: nat)
    ensures (n + 1) * z == n * z + z
  {
  }

  lemma {:induction false} MulMonotone(a: nat, b: nat, m: nat)
    requires a <= b
    ensures a * m <= b * m
    decreases b
  {
    if a < b {
      MulMonotone(a, b - 1, m);
      assert b * m == (b - 1) * m + m;
    }
  }

  lemma DivUnique(x: nat, m: nat, q: nat, r: nat)
    requires m > 0 && x == q * m + r && r < m
    ensures x / m == q && x % m == r
  {
    var k := x / m - q;
    assert k * m == (x / m) * m - q * m;
    NonzeroMultiple(k, m);
  }

  lemma QuotientBound(x: nat, a: nat, b: nat)
    requires a > 0 && b > 0 && x < a * b
    ensures x / b < a
    ensures (x / b) % a == x / b
  {
    var q := x / b;
    if a <= q {
      MulMonotone(a, q, b);
      assert false;
    }
    DivUnique(q, a, 0, q);
  }

  lemma Pow2Of32()
    ensures Pow2(32) == U32_MAX + 1 && Pow2(31) * 2 == Pow2(32)
  {
    assert Pow2(4) == 16;
    Pow2Adds(4, 4);
    Pow2Adds(8, 8);
    Pow2Adds(16, 16);
  }

  /** The default sizing accepts exactly the block counts up to 2^31: from there on the leaves would not
      fit 32-bit labels. */
  lemma DefaultSizing(logicalBlocks: nat, blockSize: nat)
    ensures OramParams.New(logicalBlocks, blockSize).Ok? <==> 0 < logicalBlocks <= Pow2(31) && blockSize > 0
  {
    var n := if logicalBlocks < 2 then 2 else logicalBlocks;
    var leaves := NextPowerOfTwo(n, 0);
    var h :| 0 <= h && leaves == Pow2(h);
    TrailingZerosOfPow2(h);
    Pow2Of32();
    if h <= 31 {
      Pow2Monotone(h, 31);
    } else {
      Pow2Monotone(32, h);
    }
  }

  /** The node at a depth is the level offset plus the leading bits of the leaf label. */
  lemma NodeIndexIsPrefix(p: OramParams, depth: nat, leaf: nat)
    requires p.Valid() && depth < p.Height() && leaf < p.leaves
    ensures leaf / Pow2(p.LeafBits() - depth) < Pow2(depth)
    ensures p.NodeIndex(depth, leaf) == Pow2(depth) - 1 + leaf / Pow2(p.LeafBits() - depth)
  {
    var low := p.LeafBits() - depth;
    assert leaf < Pow2(depth) * Pow2(low) by {
      Pow2Adds(depth, low);
    }
    QuotientBound(leaf, Pow2(depth), Pow2(low));
  }

  lemma NodeIndexRange(p: OramParams, depth: nat, leaf: nat)
    requires p.Valid() && depth < p.Height() && leaf < p.leaves
    ensures Pow2(depth) - 1 <= p.NodeIndex(depth, leaf) < Pow2(depth + 1) - 1
    ensures p.NodeIndex(depth, leaf) < p.BucketCount()
  {
    NodeIndexIsPrefix(p, depth, leaf);
    Pow2Monotone(depth + 1, p.Height());
  }

  lemma DivHalves(x: nat, m: nat)
    requires m > 0
    ensures x / (2 * m) == (x / m) / 2
  {
    var q := x / m;
    var h, c := q / 2, q % 2;
    assert x == (2 * h + c) * m + x % m;
    assert (2 * h + c) * m == h * (2 * m) + c * m;
    assert 0 <= c * m <= m;
    DivUnique(x, 2 * m, h, c * m + x % m);
  }

  /** Consecutive path nodes are parent and child in the heap numbering. */
  lemma PathParent(p: OramParams, depth: nat, leaf: nat)
    requires p.Valid() && depth + 1 < p.Height() && leaf < p.leaves
    ensures p.NodeIndex(depth + 1, leaf) ==
            2 * p.NodeIndex(depth, leaf) + 1 + (leaf / Pow2(p.LeafBits() - depth - 1)) % 2
  {
    NodeIndexIsPrefix(p, depth, leaf);
    NodeIndexIsPrefix(p, depth + 1, leaf);
    DivHalves(leaf, Pow2(p.LeafBits() - depth - 1));
  }

  /** Legality is nested: a bucket fit for a leaf at one depth is fit at every shallower depth. */
  lemma {:induction false} PathNesting(p: OramParams, shallow: nat, deep: nat, a: nat, b: nat)
    requires p.Valid() && shallow <= deep < p.Height() && a < p.leaves && b < p.leaves
    requires p.NodeIndex(deep, a) == p.NodeIndex(deep, b)
    ensures p.NodeIndex(shallow, a) == p.NodeIndex(shallow, b)
    decreases deep
  {
    if shallow < deep {
      PathParent(p, deep - 1, a);
      PathParent(p, deep - 1, b);
      PathNesting(p, shallow, deep - 1, a, b);
    }
  }

  /** A bucket belongs to exactly one depth, so one path meets it at most once. */
  lemma NodeDepthUnique(p: OramParams, d: nat, e: nat, a: nat, b: nat)
    requires p.Valid() && d < p.Height() && e < p.Height() && a < p.leaves && b < p.leaves
    requires p.NodeIndex(d, a) == p.NodeIndex(e, b)
    ensures d == e
  {
    NodeIndexRange(p, d, a);
    NodeIndexRange(p, e, b);
    if d < e {
      Pow2Monotone(d + 1, e);
    } else if e < d {
      Pow2Monotone(e + 1, d);
    }
  }

  /** A path lists distinct in-range buckets, root first. */
  lemma PathNodesDistinct(p: OramParams, leaf: nat)
    requires p.Valid() && leaf < p.leaves
    ensures p.PathNodes(leaf)[0] == 0
    ensures forall d :: 0 <= d < p.Height() ==> p.PathNodes(leaf)[d] < p.BucketCount()
    ensures forall d, e :: 0 <= d < e < p.Height() ==> p.PathNodes(leaf)[d] != p.PathNodes(leaf)[e]
  {
    var path := p.PathNodes(leaf);
    forall d | 0 <= d < p.Height()
      ensures path[d] < p.BucketCount()
    {
      NodeIndexRange(p, d, leaf);
    }
    forall d, e | 0 <= d < e < p.Height()
      ensures path[d] != path[e]
    {
      if path[d] == path[e] {
        NodeDepthUnique(p, d, e, leaf, leaf);
      }
    }
  }

  /** `r` is below `m` and differs from `x` by a multiple of `m`. */
  predicate Residue(x: nat, r: nat, m: nat)
    requires m > 0
  {
    r < m && (x - r) % m == 0
  }

  function Reduce(x: nat, m: nat): (r: nat)
    requires m > 0
    ensures Residue(x, r, m)
  {
    ReducedIsResidue(x, m);
    x % m
  }

  lemma ReducedIsResidue(x: nat, m: nat)
    requires m > 0
    ensures Residue(x, x % m, m)
  {
    var q := x / m;
    DivUnique(q * m, m, q, 0);
  }

  /** There is only one residue. */
  lemma ResidueUnique(x: nat, a: nat, b: nat, m: nat)
    requires m > 0 && Residue(x, a, m) && Residue(x, b, m)
    ensures a == b
  {
    var q, r := (x - a) / m, (x - b) / m;
    assert x == q * m + a && x == r * m + b;
    assert (q - r) * m == b - a;
    NonzeroMultiple(q - r, m);
  }
}
