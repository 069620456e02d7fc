/**
  Thread masks: bit t of a 64-bit word stands for thread slot t.
 */
module Masks {
  import opened Basics
  import opened Bits

  const MASK_TIDS: nat := 64

  type Mask = m: nat | m < Pow2(MASK_TIDS) witness 0

  function TidsBelow(m: nat, n: nat): set<nat> {
    set t: nat | t < n && Bit(m, t)
  }

  function Tids(m: Mask): set<nat> {
    TidsBelow(m, MASK_TIDS)
  }

  function MaskBit(tid: nat): Option<nat> {
    if tid < MASK_TIDS then Some(Shl(1, tid)) else None
  }

  predicate MaskTest(m: Mask, tid: nat) {
    match MaskBit(tid)
    case Some(bit) => And(m, bit) != 0
    case None => false
  }

  lemma MaskBitIsPow2(tid: nat)
    ensures Shl(1, tid) == Pow2(tid)
  {
    ShlIsMul(1, tid);
  }

  lemma MaskTestIsMember(m: Mask, tid: nat)
    ensures MaskTest(m, tid) <==> tid in Tids(m)
  {
    if tid < MASK_TIDS {
      MaskBitIsPow2(tid);
      AndSingleBit(m, tid);
    }
  }

  lemma AndIsIntersection(x: Mask, y: Mask)
    ensures And(x, y) < Pow2(MASK_TIDS) && Tids(And(x, y)) == Tids(x) * Tids(y)
  {
    AndBelow(x, y);
    forall t: nat { BitOfAnd(x, y, t); }
  }

  lemma {:induction false} AndBelow(x: nat, y: nat)
    ensures And(x, y) <= x
  {
    if x == 0 || y == 0 {
    } else {
      AndBelow(x / 2, y / 2);
    }
  }

  lemma {:induction false} OrBelow(x: nat, y: nat, n: nat)
    requires x < Pow2(n) && y < Pow2(n)
    ensures Or(x, y) < Pow2(n)
    decreases n
  {
    if n == 0 || x == 0 || y == 0 {
    } else {
      OrBelow(x / 2, y / 2, n - 1);
    }
  }

  /** Adding thread t to a mask. */
  lemma OrAddsTid(m: Mask, t: nat)
    requires t < MASK_TIDS
    ensures Or(m, Shl(1, t)) < Pow2(MASK_TIDS) && Tids(Or(m, Shl(1, t))) == Tids(m) + {t}
  {
    MaskBitIsPow2(t);
    OrAddsBit(m, t, MASK_TIDS);
  }

  lemma OrAddsBit(m: nat, t: nat, n: nat)
    requires m < Pow2(n) && t < n
    ensures Or(m, Pow2(t)) < Pow2(n) && TidsBelow(Or(m, Pow2(t)), n) == TidsBelow(m, n) + {t}
  {
    Pow2Monotone(t + 1, n);
    OrBelow(m, Pow2(t), n);
    forall u: nat ensures Bit(Or(m, Pow2(t)), u) == (Bit(m, u) || u == t) {
      BitOfOr(m, Pow2(t), u);
      BitOfPow2(t, u);
    }
  }

  datatype SetResult = New | Dup | BadTid

  /** mask_set: says whether the thread was new to the mask, already there, or out of range, and adds it only if new. */
  method SetTid(mask: Mask, tid: nat) returns (result: SetResult, now: Mask)
    ensures result == if tid >= MASK_TIDS then BadTid else if tid in Tids(mask) then Dup else New
    ensures Tids(now) == if result.New? then Tids(mask) + {tid} else Tids(mask)
    ensures !result.New? ==> now == mask
  {
    MaskTestIsMember(mask, tid);
    var bit := MaskBit(tid);
    match bit
    case None =>
      return BadTid, mask;
    case Some(b) =>
      if And(mask, b) != 0 {
        return Dup, mask;
      }
      OrAddsTid(mask, tid);
      return New, Or(mask, b);
  }

  lemma EmptyMask(m: Mask)
    ensures Tids(m) == {} <==> m == 0
  {
    if m == 0 {
      forall t: nat { BitOfZero(t); }
    } else {
      LowestIsSet(m);
      if MASK_TIDS <= TrailingZeros(m) { NoHighBit(m, MASK_TIDS, TrailingZeros(m)); }
      assert TrailingZeros(m) in Tids(m);
    }
  }

  // pop_lowest -------------------------------------------------------------------

  function TrailingZeros(m: nat): nat
    requires m > 0
  {
    if m % 2 == 1 then 0 else 1 + TrailingZeros(m / 2)
  }

  lemma {:induction false} LowestIsSet(m: nat)
    requires m > 0
    ensures Bit(m, TrailingZeros(m))
  {
    if m % 2 == 1 {
    } else {
      LowestIsSet(m / 2);
    }
  }

  lemma {:induction false} BelowLowestIsClear(m: nat, t: nat)
    requires m > 0 && t < TrailingZeros(m)
    ensures !Bit(m, t)
    decreases t
  {
    if t == 0 {
    } else {
      BelowLowestIsClear(m / 2, t - 1);
    }
  }

  /** m & (m - 1) has the bits of m but the lowest. */
  lemma {:induction false} ClearLowest(m: nat, t: nat)
    requires m > 0
    ensures Bit(And(m, m - 1), t) == (Bit(m, t) && t != TrailingZeros(m))
    decreases t
  {
    BitOfAnd(m, m - 1, t);
    if m % 2 == 1 {
      if t > 0 { assert (m - 1) / 2 == m / 2; }
    } else if t > 0 {
      BitOfAnd(m / 2, m / 2 - 1, t - 1);
      ClearLowest(m / 2, t - 1);
      assert (m - 1) / 2 == m / 2 - 1;
    }
  }

  /** Returns the lowest thread of the mask, and the mask without it; None exactly for the empty mask. */
  method PopLowest(mask: Mask) returns (tid: Option<nat>, rest: Mask)
    ensures tid.None? ==> mask == 0 && rest == 0
    ensures tid.Some? ==>
      && tid.value in Tids(mask) && Tids(rest) == Tids(mask) - {tid.value} && rest < mask
      && forall t :: t in Tids(mask) ==> tid.value <= t
  {
    if mask == 0 {
      return None, 0;
    }
    PopFacts(mask, MASK_TIDS);
    tid := Some(TrailingZeros(mask));
    rest := And(mask, mask - 1);
  }

  lemma PopFacts(m: nat, n: nat)
    requires 0 < m < Pow2(n)
    ensures And(m, m - 1) < m
    ensures TrailingZeros(m) in TidsBelow(m, n)
    ensures TidsBelow(And(m, m - 1), n) == TidsBelow(m, n) - {TrailingZeros(m)}
    ensures forall t :: t in TidsBelow(m, n) ==> TrailingZeros(m) <= t
  {
    var z, rest := TrailingZeros(m), And(m, m - 1);
    LowestIsSet(m);
    if n <= z { NoHighBit(m, n, z); }
    forall t: nat ensures Bit(rest, t) == (Bit(m, t) && t != z) { ClearLowest(m, t); }
    forall t | t in TidsBelow(m, n) ensures z <= t {
      if t < z { BelowLowestIsClear(m, t); }
    }
    AndBelow(m - 1, m);
    AndCommutes(m, m - 1);
  }

  lemma {:induction false} AndCommutes(x: nat, y: nat)
    ensures And(x, y) == And(y, x)
  {
    if x == 0 || y == 0 {
    } else {
      AndCommutes(x / 2, y / 2);
    }
  }

  // count_tids ---------------------------------------------------------------------

  function CountBelow(m: nat, n: nat): nat {
    if n == 0 then 0 else CountBelow(m, n - 1) + if Bit(m, n - 1) then 1 else 0
  }

  lemma {:induction false} CountIsCardinality(m: nat, n: nat)
    ensures |TidsBelow(m, n)| == CountBelow(m, n)
  {
    if n == 0 {
    } else {
      CountIsCardinality(m, n - 1);
      assert TidsBelow(m, n) == TidsBelow(m, n - 1) + if Bit(m, n - 1) then {n - 1} else {};
    }
  }

  lemma {:induction false} CountShift(m: nat, n: nat)
    requires n > 0
    ensures CountBelow(m, n) == m % 2 + CountBelow(m / 2, n - 1)
    decreases n
  {
    if n <= 1 {
    } else {
      CountShift(m, n - 1);
    }
  }

  lemma {:induction false} CountOfZero(n: nat)
    ensures CountBelow(0, n) == 0
  {
    if n == 0 {
    } else {
      CountOfZero(n - 1);
      BitOfZero(n - 1);
    }
  }

  /** The set bits in each 4-bit value. */
  const NIBBLE_BITS: seq<nat> := [0, 1, 1, 2, 1, 2, 2, 3, 1, 2, 2, 3, 2, 3, 3, 4]

  lemma NibbleTable(d0: nat, d1: nat, d2: nat, d3: nat)
    requires d0 < 2 && d1 < 2 && d2 < 2 && d3 < 2
    ensures NIBBLE_BITS[d0 + 2 * d1 + 4 * d2 + 8 * d3] == d0 + d1 + d2 + d3
  {
  }

  lemma CountNibble(m: nat, n: nat)
    requires n >= 4
    ensures CountBelow(m, n) == NIBBLE_BITS[m % 16] + CountBelow(m / 16, n - 4)
  {
    var m1 := m / 2;
    var m2 := m1 / 2;
    var m3 := m2 / 2;
    NibbleDigits(m, m1, m2, m3);
    CountShift(m, n);
    CountShift(m1, n - 1);
    CountShift(m2, n - 2);
    CountShift(m3, n - 3);
  }

  lemma NibbleDigits(m: nat, m1: nat, m2: nat, m3: nat)
    requires m1 == m / 2 && m2 == m1 / 2 && m3 == m2 / 2
    ensures m / 16 == m3 / 2
    ensures NIBBLE_BITS[m % 16] == m % 2 + m1 % 2 + m2 % 2 + m3 % 2
  {
    var r := m % 2 + 2 * (m1 % 2) + 4 * (m2 % 2) + 8 * (m3 % 2);
    DivModUnique(m, 16, m3 / 2, r);
    NibbleTable(m % 2, m1 % 2, m2 % 2, m3 % 2);
  }

  lemma NibbleStep(rest: nat, n: nat)
    requires n % 4 == 0 && 0 < rest < Pow2(n)
    ensures n >= 4 && And(rest, 0xF) < 16 && Shr(rest, 4) < rest && Shr(rest, 4) < Pow2(n - 4)
    ensures CountBelow(rest, n) == NIBBLE_BITS[And(rest, 0xF)] + CountBelow(Shr(rest, 4), n - 4)
  {
    assert Pow2(4) == 16;
    AndLowMask(rest, 4);
    ShrIsDiv(rest, 4);
    Pow2Add(4, n - 4);
    CountNibble(rest, n);
  }

  /** count_tids: the number of threads in the mask, a nibble at a time. */
  method CountTids(mask: Mask) returns (count: nat)
    ensures count == |Tids(mask)|
  {
    count := CountNibbles(mask, MASK_TIDS);
    CountIsCardinality(mask, MASK_TIDS);
  }

  method CountNibbles(mask: nat, ghost width: nat) returns (count: nat)
    requires width % 4 == 0 && mask < Pow2(width)
    ensures count == CountBelow(mask, width)
  {
    var rest: nat := mask;
    count := 0;
    ghost var n := width;
    while rest != 0
      invariant n % 4 == 0 && rest < Pow2(n)
      invariant CountBelow(mask, width) == count + CountBelow(rest, n)
      decreases rest
    {
      NibbleStep(rest, n);
      count := count + NIBBLE_BITS[And(rest, 0xF)];
      rest := Shr(rest, 4);
      n := n - 4;
    }
    CountOfZero(n);
  }
}
