/** Tables of slots that hold ids or a sentinel (src/direct.rs and the simulators): what a table stores,
    as a multiset. */
module SlotTable {
  import opened Common

  /** The sentinel is the largest 32-bit value. */
  const EMPTY_SLOT: nat := U32_MAX

  /** How often each id sits in the table; empty slots do not count. */
  ghost function Stored(slots: seq<nat>): multiset<nat> {
    multiset(slots)[EMPTY_SLOT := 0]
  }

  /** Ids `0..n`, each once. */
  ghost function FirstIds(n: nat): (r: multiset<nat>)
    ensures forall x: nat :: r[x] == if x < n then 1 else 0
  {
    if n == 0 then multiset{} else FirstIds(n - 1) + multiset{n - 1}
  }

  /** What one slot contributes. */
  ghost function SlotContent(id: nat): multiset<nat> {
    if id == EMPTY_SLOT then multiset{} else multiset{id}
  }

  /** Overwriting one slot trades its content for the new one. */
  lemma StoredUpdate(slots: seq<nat>, o: nat, id: nat)
    requires o < |slots|
    ensures Stored(slots[o := id]) + SlotContent(slots[o]) == Stored(slots) + SlotContent(id)
  {
    assert slots == slots[..o] + [slots[o]] + slots[o + 1..];
    assert slots[o := id] == slots[..o] + [id] + slots[o + 1..];
    assert multiset(slots[o := id]) + multiset{slots[o]} == multiset(slots) + multiset{id};
  }

  lemma AllEmpty(slots: seq<nat>)
    requires forall o :: 0 <= o < |slots| ==> slots[o] == EMPTY_SLOT
    ensures Stored(slots) == multiset{}
  {
    assert forall x :: x in multiset(slots) ==> x in slots;
  }

  /** Stored exactly once: every one of the first `n` ids has one slot. */
  lemma StoredOnce(slots: seq<nat>, n: nat, id: nat)
    requires Stored(slots) == FirstIds(n) && id < n <= EMPTY_SLOT
    ensures exists o :: 0 <= o < |slots| && slots[o] == id
    ensures forall o, q :: 0 <= o < q < |slots| && slots[o] == id ==> slots[q] != id
  {
    assert Stored(slots)[id] == 1;
    assert id in multiset(slots);
    forall o, q | 0 <= o < q < |slots| && slots[o] == id
      ensures slots[q] != id
    {
      if slots[q] == id {
        SlotsCounted(slots, o, q);
      }
    }
  }

  lemma SlotsCounted(slots: seq<nat>, o: nat, q: nat)
    requires o < q < |slots| && slots[o] == slots[q]
    ensures multiset(slots)[slots[o]] >= 2
  {
    assert slots == slots[..o] + [slots[o]] + slots[o + 1..q] + [slots[q]] + slots[q + 1..];
    assert multiset(slots) >= multiset{slots[o], slots[q]};
  }
}
