/** Deterministic reverse-bit eviction schedule (src/circuit.rs, CircuitEvictionSchedule). */
module Schedule {
  import opened Common
  import opened Geometry

  /** The `n`-bit word read backwards. */
  function ReverseBits(n: nat, x: nat): (r: nat)
    ensures r < Pow2(n)
  {
    if n == 0 then 0 else (x % 2) * Pow2(n - 1) + ReverseBits(n - 1, x / 2)
  }

  function Quotient(x: nat, m: nat): nat
    requires m > 0
  {
    x / m
  }

  function Remainder(x: nat, m: nat): nat
    requires m > 0
  {
    x % m
  }

  /** The low `n` bits. */
  function LowBitsOf(x: nat, n: nat): nat {
    Remainder(x, Pow2(n))
  }

  function ShiftRight(x: nat, n: nat): nat {
    Quotient(x, Pow2(n))
  }

  /** Truncation to 32 bits, mask, 32-bit reversal, shift back down. */
  function ReverseBitsMod(index: nat, leafBits: nat): nat
    requires 0 < leafBits <= 32
  {
    ShiftRight(ReverseBits(32, LowBitsOf(LowBitsOf(index, 32), leafBits)), 32 - leafBits)
  }

  function EvictionLeafAt(p: OramParams, index: nat): nat
    requires 0 < p.LeafBits() <= 32
  {
    ReverseBitsMod(index, p.LeafBits())
  }

  lemma {:induction false} LeafBitsFit(p: OramParams)
    requires p.Valid()
    ensures 1 <= p.LeafBits() <= 31
  {
    Pow2Of32();
    if p.LeafBits() >= 32 {
      Pow2Monotone(32, p.LeafBits());
    }
  }

  lemma Regroup(q: int, n: int, m: int, s: int)
    ensures (q * n + s) * m == q * (m * n) + s * m
    ensures (q * n + s) * m == q * (n * m) + s * m
  {
    assert (q * n) * m == q * (n * m);
  }

  lemma DivMod(x: nat, m: nat)
    requires m > 0
    ensures x == (x / m) * m + x % m
  {
  }

  lemma RemainderOfSum(x: nat, m: nat, n: nat, q: nat, h: nat, c: nat)
    requires c < m && x == q * (m * n) + (h * m + c)
    ensures x % m == c
  {
    Regroup(q, n, m, h);
    DivUnique(x, m, q * n + h, c);
  }

  lemma ModOfMod(x: nat, m: nat, n: nat)
    requires m > 0 && n > 0 && m * n > 0
    ensures (x % (m * n)) % m == x % m
  {
    var big := m * n;
    var q, r := x / big, x % big;
    DivMod(x, big);
    DivMod(r, m);
    RemainderOfSum(x, m, n, q, r / m, r % m);
  }

  lemma Pow2Mod(x: nat, small: nat, large: nat)
    requires small <= large
    ensures (x % Pow2(large)) % Pow2(small) == x % Pow2(small)
  {
    Pow2Adds(small, large - small);
    ModOfMod(x, Pow2(small), Pow2(large - small));
  }

  lemma {:induction false} ReverseOfShortWord(n: nat, pad: nat, x: nat)
    requires x < Pow2(n)
    ensures ReverseBits(n + pad, x) == ReverseBits(n, x) * Pow2(pad)
    decreases n
  {
    if n == 0 {
      ReverseOfZero(pad);
    } else {
      ReverseOfShortWord(n - 1, pad, x / 2);
      Pow2Adds(n - 1, pad);
      assert (n - 1) + pad == n + pad - 1;
      Regroup(x % 2, Pow2(n - 1), Pow2(pad), ReverseBits(n - 1, x / 2));
    }
  }

  lemma {:induction false} ReverseOfZero(n: nat)
    ensures ReverseBits(n, 0) == 0
  {
    if n > 0 {
      ReverseOfZero(n - 1);
    }
  }

  /** The 32-bit computation is the reversal of the low `leafBits` bits of the index. */
  lemma ReverseBitsModMeaning(index: nat, leafBits: nat)
    requires 0 < leafBits <= 32
    ensures ReverseBitsMod(index, leafBits) == ReverseBits(leafBits, index % Pow2(leafBits))
  {
    Pow2Mod(index, leafBits, 32);
    var low := index % Pow2(leafBits);
    ReverseOfShortWord(leafBits, 32 - leafBits, low);
    DivUnique(ReverseBits(32, low), Pow2(32 - leafBits), ReverseBits(leafBits, low), 0);
  }

  /** The leading bits of a reversed word are the reversed trailing bits. */
  lemma {:induction false} ReversePrefix(bits: nat, d: nat, x: nat)
    requires d <= bits
    ensures ReverseBits(bits, x) / Pow2(bits - d) == ReverseBits(d, x % Pow2(d))
    decreases d
  {
    var m := Pow2(bits - d);
    if d == 0 {
      DivUnique(ReverseBits(bits, x), m, 0, ReverseBits(bits, x));
    } else {
      ReversePrefix(bits - 1, d - 1, x / 2);
      LowBits(x, d);
      Pow2Adds(d - 1, bits - d);
      ReversePrefixStep(bits, d, x, m);
    }
  }

  lemma ReversePrefixStep(bits: nat, d: nat, x: nat, m: nat)
    requires 0 < d <= bits && m == Pow2(bits - d) && Pow2(bits - 1) == Pow2(d - 1) * m
    requires ReverseBits(bits - 1, x / 2) / m == ReverseBits(d - 1, (x / 2) % Pow2(d - 1))
    requires (x % Pow2(d)) % 2 == x % 2 && (x % Pow2(d)) / 2 == (x / 2) % Pow2(d - 1)
    ensures ReverseBits(bits, x) / m == ReverseBits(d, x % Pow2(d))
  {
    hide Pow2;
    var r, b := ReverseBits(bits - 1, x / 2), x % 2;
    Regroup(b, Pow2(d - 1), m, r / m);
    QuotientOfSum(ReverseBits(bits, x), b * Pow2(bits - 1), r / m, b * Pow2(d - 1) + r / m, m, r);
  }

  lemma QuotientOfSum(v: nat, top: nat, low: nat, q: nat, m: nat, r: nat)
    requires m > 0 && v == top + r && low == r / m
    requires q * m == top + low * m
    ensures v / m == q
  {
    DivMod(r, m);
    DivUnique(v, m, q, r % m);
  }

  lemma LowBits(x: nat, d: nat)
    requires d > 0
    ensures (x % Pow2(d)) % 2 == x % 2
    ensures (x % Pow2(d)) / 2 == (x / 2) % Pow2(d - 1)
  {
    LowBitsModulo(x, Pow2(d - 1));
  }

  lemma LowBitsModulo(x: nat, m: nat)
    requires m > 0
    ensures (x % (2 * m)) % 2 == x % 2
    ensures (x % (2 * m)) / 2 == (x / 2) % m
  {
    var h, b := x / 2, x % 2;
    var q, r := h / m, h % m;
    DivMod(h, m);
    assert 2 * (q * m) == q * (2 * m);
    DivUnique(x, 2 * m, q, 2 * r + b);
  }

  lemma {:induction false} ReverseInjective(n: nat, x: nat, y: nat)
    requires x < Pow2(n) && y < Pow2(n)
    requires ReverseBits(n, x) == ReverseBits(n, y)
    ensures x == y
  {
    if n > 0 {
      ReverseInjective(n - 1, x / 2, y / 2);
    }
  }

  function Unreverse(n: nat, t: nat): (x: nat)
    requires t < Pow2(n)
    ensures x < Pow2(n)
  {
    if n == 0 then 0
    else if t < Pow2(n - 1) then 2 * Unreverse(n - 1, t)
    else 2 * Unreverse(n - 1, t - Pow2(n - 1)) + 1
  }

  lemma {:induction false} UnreverseInverts(n: nat, t: nat)
    requires t < Pow2(n)
    ensures ReverseBits(n, Unreverse(n, t)) == t
  {
    if n > 0 {
      var bit := if t < Pow2(n - 1) then 0 else 1;
      var rest := if t < Pow2(n - 1) then t else t - Pow2(n - 1);
      UnreverseInverts(n - 1, rest);
      var x := Unreverse(n, t);
      assert x == 2 * Unreverse(n - 1, rest) + bit && x / 2 == Unreverse(n - 1, rest) && x % 2 == bit;
    }
  }

  /** The bucket an eviction visits at depth `d` is the reversal of the low `d` bits of its index. */
  lemma EvictionNode(p: OramParams, d: nat, index: nat)
    requires p.Valid() && d < p.Height()
    ensures 1 <= p.LeafBits() <= 31
    ensures EvictionLeafAt(p, index) < p.leaves
    ensures p.NodeIndex(d, EvictionLeafAt(p, index)) == Pow2(d) - 1 + ReverseBits(d, index % Pow2(d))
  {
    LeafBitsFit(p);
    var bits := p.LeafBits();
    ReverseBitsModMeaning(index, bits);
    NodeIndexIsPrefix(p, d, EvictionLeafAt(p, index));
    ReversePrefix(bits, d, index % Pow2(bits));
    Pow2Mod(index, d, bits);
  }

  lemma WindowResidue(k: nat, m: nat, q: nat, r: nat)
    requires r < m && q * m <= k < q * m + 2 * m
    ensures k % m == r <==> k == q * m + r || k == q * m + m + r
  {
    if k < q * m + m {
      DivUnique(k, m, q, k - q * m);
    } else {
      assert (q + 1) * m == q * m + m;
      DivUnique(k, m, q + 1, k - (q + 1) * m);
    }
  }

  /** Any window of `m` consecutive integers holds exactly one of each residue modulo `m`. */
  lemma ResidueInWindow(start: nat, m: nat, r: nat) returns (i: nat)
    requires r < m
    ensures start <= i < start + m
    ensures forall k {:trigger k % m} :: start <= k < start + m ==> (k % m == r <==> k == i)
  {
    var q, s := start / m, start % m;
    var base := q * m;
    assert start == base + s;
    i := if s <= r then base + r else base + m + r;
    forall k | start <= k < start + m
      ensures k % m == r <==> k == i
    {
      WindowResidue(k, m, q, r);
    }
  }

  /** Any 2^d consecutive scheduled evictions visit each bucket of depth d exactly once. */
  lemma WindowVisitsEachBucketOnce(p: OramParams, d: nat, start: nat, node: nat) returns (i: nat)
    requires p.Valid() && d < p.Height()
    requires Pow2(d) - 1 <= node < Pow2(d + 1) - 1
    ensures start <= i < start + Pow2(d)
    ensures 1 <= p.LeafBits() <= 31
    ensures forall k :: start <= k < start + Pow2(d) ==>
              (p.NodeIndex(d, EvictionLeafAt(p, k)) == node <==> k == i)
  {
    LeafBitsFit(p);
    var target := node - (Pow2(d) - 1);
    var r := Unreverse(d, target);
    UnreverseInverts(d, target);
    i := ResidueInWindow(start, Pow2(d), r);
    forall k | start <= k < start + Pow2(d)
      ensures p.NodeIndex(d, EvictionLeafAt(p, k)) == node <==> k == i
    {
      EvictionNode(p, d, k);
      if ReverseBits(d, k % Pow2(d)) == target {
        ReverseInjective(d, k % Pow2(d), r);
      }
      assert k % Pow2(d) == r <==> k == i;
    }
  }

  /** Evictions scheduled per access unless a rate is given. */
  const DEFAULT_EVICTIONS_PER_ACCESS: nat := 2

  /** Public counters of one schedule. */
  datatype Counters = Counters(leafBits: nat, rate: nat, issued: nat, completed: nat)
  {
    predicate Valid() {
      && 0 < leafBits <= 32
      && rate <= U64_MAX && issued <= U64_MAX && completed <= U64_MAX
    }

    /** Scheduled but not yet processed evictions; both checked operations can fail. */
    function Pending(): Result<nat> {
      if issued * rate > U64_MAX then Err(InvalidInput)
      else if completed > issued * rate then Err(InvalidInput)
      else Ok(issued * rate - completed)
    }

    function Record(): Result<Counters> {
      if issued == U64_MAX then Err(InvalidInput) else Ok(this.(issued := issued + 1))
    }

    /** The next `n` evictions are completed. */
    function Advance(n: nat): Counters {
      this.(completed := completed + n)
    }

    /** No more evictions were completed than scheduled. */
    predicate Sound() {
      completed <= issued * rate
    }

    /** The counters can hold `n` more accesses and the evictions they schedule. */
    predicate Room(n: nat) {
      issued + n <= U64_MAX && (issued + n) * rate <= U64_MAX
    }

    function NextLeaf(): nat
      requires 0 < leafBits <= 32
    {
      ReverseBitsMod(completed, leafBits)
    }
  }

  /** How many evictions a drain completes: the budget, or the debt if that is less. */
  function DrainedFrom(k: Counters, budget: nat): int {
    if budget < k.issued * k.rate - k.completed then budget else k.issued * k.rate - k.completed
  }

  lemma PendingIsDebt(k: Counters, budget: nat)
    ensures k.Pending().Ok? ==>
              DrainedFrom(k, budget) == if budget < k.Pending().value then budget else k.Pending().value
  {
  }

  /** `n` accesses were recorded between the two, and some scheduled evictions perhaps completed. */
  ghost predicate Recorded(before: Counters, after: Counters, n: nat) {
    && after.issued == before.issued + n && after.rate == before.rate
    && (before.Sound() ==> after.Sound())
  }

  lemma RecordedMore(a: Counters, n: nat)
    ensures Recorded(a, a.(issued := a.issued + n), n)
  {
    MulMonotone(a.issued, a.issued + n, a.rate);
  }

  lemma RecordedDrain(a: Counters, n: nat)
    requires a.Pending().Ok? && n <= a.Pending().value
    ensures Recorded(a, a.Advance(n), 0)
  {
  }

  lemma RecordedJoin(a: Counters, b: Counters, c: Counters, m: nat, n: nat)
    requires Recorded(a, b, m) && Recorded(b, c, n)
    ensures Recorded(a, c, m + n)
  {
  }

  /** With room for what is still to come, the checked operations of the schedule succeed. */
  lemma RoomNow(a: Counters, n: nat)
    requires a.Sound() && a.Room(n)
    ensures a.Pending().Ok?
  {
    MulMonotone(a.issued, a.issued + n, a.rate);
  }

  /** Leaves of the evictions numbered `from` to `from + n - 1`. */
  function LeafRun(leafBits: nat, from: nat, n: nat): (leaves: seq<nat>)
    requires 0 < leafBits <= 32
    ensures |leaves| == n
    ensures forall i :: 0 <= i < n ==> leaves[i] == ReverseBitsMod(from + i, leafBits)
  {
    seq<nat>(n, (i: int) requires 0 <= i < n => ReverseBitsMod(from + i, leafBits))
  }

  lemma LeafRunConcat(leafBits: nat, from: nat, m: nat, n: nat)
    requires 0 < leafBits <= 32
    ensures LeafRun(leafBits, from, m) + LeafRun(leafBits, from + m, n) == LeafRun(leafBits, from, m + n)
  {
  }

  class CircuitEvictionSchedule {
    const leafBits: nat
    const evictionsPerAccess: nat
    var issuedAccesses: nat
    var completedEvictions: nat

    ghost predicate Valid()
      reads this
    {
      View().Valid()
    }

    function View(): Counters
      reads this
    {
      Counters(leafBits, evictionsPerAccess, issuedAccesses, completedEvictions)
    }

    constructor WithRate(p: OramParams, rate: nat)
      requires p.Valid() && rate <= U64_MAX
      ensures View() == Counters(p.LeafBits(), rate, 0, 0)
      ensures Valid()
    {
      LeafBitsFit(p);
      leafBits := p.LeafBits();
      evictionsPerAccess := rate;
      issuedAccesses := 0;
      completedEvictions := 0;
    }

    method RecordAccess() returns (r: Result<()>)
      requires Valid()
      modifies this
      ensures Valid()
      ensures r.Ok? <==> old(View()).Record().Ok?
      ensures r.Err? ==> r.error == old(View()).Record().error
      ensures View() == if r.Ok? then old(View()).Record().value else old(View())
    {
      if issuedAccesses == U64_MAX {
        return Err(InvalidInput);
      }
      issuedAccesses := issuedAccesses + 1;
      return Ok(());
    }

    /** Pops one scheduled path, in index order, while debt remains. */
    method CompleteOneEviction() returns (r: Result<Option<nat>>)
      requires Valid()
      modifies this
      ensures Valid()
      ensures r.Err? <==> old(View()).Pending().Err?
      ensures r.Err? ==> r.error == old(View()).Pending().error
      ensures r.Ok? ==> (r.value.Some? <==> old(View()).Pending().value > 0)
      ensures View() == if r.Ok? && r.value.Some? then old(View()).Advance(1) else old(View())
      ensures r.Ok? && r.value.Some? ==> r.value.value == old(View()).NextLeaf()
    {
      var pending := View().Pending();
      if pending.Err? {
        return Err(pending.error);
      }
      if pending.value == 0 {
        return Ok(None);
      }
      var leaf := ReverseBitsMod(completedEvictions, leafBits);
      completedEvictions := completedEvictions + 1;
      return Ok(Some(leaf));
    }

    method DrainEvictions(budget: nat) returns (r: Result<seq<nat>>)
      requires Valid()
      modifies this
      ensures Valid()
      ensures r.Err? <==> budget > 0 && old(View()).Pending().Err?
      ensures r.Err? ==> View() == old(View())
      ensures r.Ok? ==> var n := Drainable(old(View()), budget);
                View() == old(View()).Advance(n) && r.value == LeafRun(leafBits, old(completedEvictions), n)
    {
      var leaves := [];
      var i := 0;
      while i < budget
        invariant 0 <= i <= budget && Valid() && |leaves| == i
        invariant View() == old(View()).Advance(i)
        invariant leaves == LeafRun(leafBits, old(completedEvictions), i)
        invariant i > 0 ==> old(View()).Pending().Ok? && i <= old(View()).Pending().value
      {
        var step := CompleteOneEviction();
        match step {
          case Err(e) => return Err(e);
          case Ok(None) => break;
          case Ok(Some(leaf)) =>
            leaves := leaves + [leaf];
            i := i + 1;
        }
      }
      return Ok(leaves);
    }
  }

  /** How many evictions a drain with this budget completes. */
  function Drainable(c: Counters, budget: nat): nat {
    if budget == 0 || c.Pending().Err? then 0
    else if c.Pending().value < budget then c.Pending().value
    else budget
  }

  datatype ScheduleOp = IssueAccess | DrainUpTo(budget: nat)

  /** One successful schedule operation and the leaves it emits. */
  function ScheduleStep(c: Counters, op: ScheduleOp): Result<(Counters, seq<nat>)>
    requires c.Valid()
  {
    match op
    case IssueAccess => if c.Record().Err? then Err(InvalidInput) else Ok((c.Record().value, []))
    case DrainUpTo(budget) =>
      if budget > 0 && c.Pending().Err? then Err(InvalidInput)
      else
        var n := Drainable(c, budget);
        Ok((c.Advance(n), LeafRun(c.leafBits, c.completed, n)))
  }

  function ScheduleRun(c: Counters, ops: seq<ScheduleOp>): Result<(Counters, seq<nat>)>
    requires c.Valid()
    decreases |ops|
  {
    if ops == [] then Ok((c, []))
    else
      match ScheduleStep(c, ops[0])
      case Err(e) => Err(e)
      case Ok((next, emitted)) =>
        if next.Valid() then
          (match ScheduleRun(next, ops[1..])
           case Err(e) => Err(e)
           case Ok((last, rest)) => Ok((last, emitted + rest)))
        else Err(InvalidInput)
  }

  /** However accesses and drains interleave, the emitted leaves are consecutive schedule entries
      and completed evictions never exceed the scheduled ones. */
  lemma {:induction false} RunEmitsScheduleOrder(c: Counters, ops: seq<ScheduleOp>)
    requires c.Valid() && c.completed <= c.issued * c.rate
    requires ScheduleRun(c, ops).Ok?
    ensures var last := ScheduleRun(c, ops).value.0;
            && last.Valid() && last.leafBits == c.leafBits && last.rate == c.rate
            && c.completed <= last.completed <= last.issued * last.rate
            && ScheduleRun(c, ops).value.1 == LeafRun(c.leafBits, c.completed, last.completed - c.completed)
    decreases |ops|
  {
    if ops != [] {
      var (next, emitted) := ScheduleStep(c, ops[0]).value;
      assert next.completed <= next.issued * next.rate by {
        if ops[0].IssueAccess? { MulMonotone(c.issued, c.issued + 1, c.rate); }
      }
      assert next.Valid();
      RunEmitsScheduleOrder(next, ops[1..]);
      var last := ScheduleRun(next, ops[1..]).value.0;
      LeafRunConcat(c.leafBits, c.completed, next.completed - c.completed, last.completed - next.completed);
    }
  }
}
