/**
  Counter slots: where each value of each tripwire key lives in a CPU's row.
 */
module TripwireSlots {
  import opened Basics
  import opened TripwireKeys

  /** The slots of the keys before key n, all together. */
  function SlotsBelow(n: nat): nat
    requires n <= KEY_COUNT
  {
    if n == 0 then 0 else SlotsBelow(n - 1) + WidthOf(n - 1).Slots()
  }

  /** The first slot of each key. */
  method SlotBases() returns (bases: seq<nat>, total: nat)
    ensures |bases| == KEY_COUNT && total == SlotsBelow(|bases|)
    ensures forall k: Key :: bases[k] == SlotsBelow(k)
  {
    var out := new nat[KEY_COUNT](_ => 0);
    total := 0;
    for i := 0 to out.Length
      invariant total == SlotsBelow(i)
      invariant forall k :: 0 <= k < i ==> out[k] == SlotsBelow(k)
    {
      out[i] := total;
      total := total + WidthOf(i).Slots();
    }
    bases := out[..];
  }

  function Slot(k: Key, idx: nat): Option<nat> {
    if idx >= WidthOf(k).Slots() then None else Some(SlotsBelow(k) + idx)
  }

  lemma {:induction false} BelowGrows(m: nat, n: nat)
    requires m <= n <= KEY_COUNT
    ensures SlotsBelow(m) <= SlotsBelow(n)
    decreases n
  {
    if n <= m {
    } else {
      BelowGrows(m, n - 1);
    }
  }

  lemma SlotWithin(k: Key, idx: nat)
    requires Slot(k, idx).Some?
    ensures SlotsBelow(k) <= Slot(k, idx).value < SlotsBelow(k + 1)
  {
  }

  /** No two values share a slot. */
  lemma SlotsAreDistinct(j: Key, a: nat, k: Key, b: nat)
    requires Slot(j, a).Some? && Slot(j, a) == Slot(k, b)
    ensures j == k && a == b
  {
    SlotWithin(j, a);
    SlotWithin(k, b);
    if j < k {
      BelowGrows(j + 1, k);
    } else if k < j {
      BelowGrows(k + 1, j);
    }
  }

  /** Every slot of a row belongs to a value of one of the first n keys. */
  lemma {:induction false} SlotOwner(s: nat, n: nat) returns (k: Key, idx: nat)
    requires n <= KEY_COUNT && s < SlotsBelow(n)
    ensures Slot(k, idx) == Some(s)
    decreases n
  {
    if s < SlotsBelow(n - 1) {
      k, idx := SlotOwner(s, n - 1);
    } else {
      k, idx := n - 1, s - SlotsBelow(n - 1);
    }
  }

  /** The slots of a row are exactly the values of all keys: inside the row, and each slot some value's. */
  lemma SlotsFillRow(s: nat)
    ensures s < SlotsBelow(KEY_COUNT) <==> exists k: Key, idx: nat :: Slot(k, idx) == Some(s)
  {
    if s < SlotsBelow(KEY_COUNT) {
      var k, idx := SlotOwner(s, KEY_COUNT);
      assert Slot(k, idx) == Some(s);
    }
    if k: Key, idx: nat :| Slot(k, idx) == Some(s) {
      SlotWithin(k, idx);
      BelowGrows(k + 1, KEY_COUNT);
    }
  }
}
