/**
  Bit operations of an unsigned machine word, as functions on natural numbers.
  A word of n bits is a natural below Pow2(n); And and Or are defined bit by
  bit, so the laws below are statements about `&`, `|` and `!` as the hardware
  computes them.
 */
module Bits {

  function Pow2(k: nat): (p: nat)
    ensures p >= 1
  {
    if k == 0 then 1 else 2 * Pow2(k - 1)
  }

  function And(x: nat, y: nat): nat {
    if x == 0 || y == 0 then 0
    else 2 * And(x / 2, y / 2) + (x % 2) * (y % 2)
  }

  function Or(x: nat, y: nat): nat
    decreases x + y
  {
    if x == 0 then y
    else if y == 0 then x
    else 2 * Or(x / 2, y / 2) + (if x % 2 == 1 || y % 2 == 1 then 1 else 0)
  }

  /** The complement of an n-bit word. */
  function Not(x: nat, n: nat): nat
    requires x < Pow2(n)
  {
    Pow2(n) - 1 - x
  }

  function Shl(x: nat, k: nat): nat {
    if k == 0 then x else 2 * Shl(x, k - 1)
  }

  function Shr(x: nat, k: nat): nat {
    if k == 0 then x else Shr(x / 2, k - 1)
  }

  /** Bit t of x, counted from the least significant one. */
  predicate Bit(x: nat, t: nat)
    decreases t
  {
    if t == 0 then x % 2 == 1 else Bit(x / 2, t - 1)
  }

  lemma {:induction false} BitOfZero(t: nat)
    ensures !Bit(0, t)
  {
    if t == 0 {
    } else {
      BitOfZero(t - 1);
    }
  }

  lemma {:induction false} BitOfAnd(x: nat, y: nat, t: nat)
    ensures Bit(And(x, y), t) == (Bit(x, t) && Bit(y, t))
    decreases t
  {
    BitOfZero(t);
    if x == 0 || y == 0 || t == 0 {
    } else {
      assert And(x, y) / 2 == And(x / 2, y / 2);
      BitOfAnd(x / 2, y / 2, t - 1);
    }
  }

  lemma {:induction false} BitOfOr(x: nat, y: nat, t: nat)
    ensures Bit(Or(x, y), t) == (Bit(x, t) || Bit(y, t))
    decreases t
  {
    BitOfZero(t);
    if x == 0 || y == 0 || t == 0 {
    } else {
      assert Or(x, y) / 2 == Or(x / 2, y / 2);
      BitOfOr(x / 2, y / 2, t - 1);
    }
  }

  /** A word below Pow2(n) has no bit at or above n. */
  lemma {:induction false} NoHighBit(x: nat, n: nat, t: nat)
    requires x < Pow2(n) && n <= t
    ensures !Bit(x, t)
    decreases t
  {
    if n == 0 {
      BitOfZero(t);
    } else {
      NoHighBit(x / 2, n - 1, t - 1);
    }
  }

  lemma {:induction false} BitOfPow2(k: nat, t: nat)
    ensures Bit(Pow2(k), t) == (t == k)
    decreases k
  {
    if k == 0 {
      if t > 0 { BitOfZero(t - 1); }
    } else if t > 0 {
      BitOfPow2(k - 1, t - 1);
    }
  }

  lemma {:induction false} Pow2Monotone(j: nat, k: nat)
    requires j <= k
    ensures Pow2(j) <= Pow2(k)
    decreases k
  {
    if k <= j {
    } else {
      Pow2Monotone(j, k - 1);
    }
  }

  lemma {:induction false} Pow2Add(j: nat, k: nat)
    ensures Pow2(j + k) == Pow2(j) * Pow2(k)
    decreases j
  {
    if j == 0 {
    } else {
      Pow2Add(j - 1, k);
    }
  }

  // Division facts -----------------------------------------------------------

  lemma DivModUnique(x: int, d: int, q: int, r: int)
    requires d > 0 && x == q * d + r && 0 <= r < d
    ensures x / d == q && x % d == r
  {
    var e := q - x / d;
    assert e * d == x % d - r;
    if e != 0 { MultipleIsFar(e, d); }
  }

  /** A non-zero multiple of d is at least d away from 0. */
  lemma MultipleIsFar(e: int, d: int)
    requires d > 0 && e != 0
    ensures e * d >= d || e * d <= -d
  {
    if e > 0 { MulAtLeast(e, d); } else { MulAtLeast(-e, d); }
  }

  lemma {:induction false} MulAtLeast(e: nat, d: nat)
    requires e > 0
    ensures e * d >= d
    decreases e
  {
    if e <= 1 {
    } else {
      MulAtLeast(e - 1, d);
    }
  }

  /** The low k bits of x, halved: they are bit 0 and the low k-1 bits of x/2. */
  lemma LowBitsStep(x: nat, k: nat)
    requires k > 0
    ensures x % Pow2(k) == 2 * ((x / 2) % Pow2(k - 1)) + x % 2
    ensures x / Pow2(k) == (x / 2) / Pow2(k - 1)
  {
    var h, p := x / 2, Pow2(k - 1);
    var q, r := h / p, h % p;
    assert h == q * p + r;
    assert x == q * Pow2(k) + (2 * r + x % 2) by {
      assert q * (2 * p) == 2 * (q * p);
    }
    DivModUnique(x, Pow2(k), q, 2 * r + x % 2);
  }

  // Shifts -------------------------------------------------------------------

  lemma {:induction false} ShlIsMul(x: nat, k: nat)
    ensures Shl(x, k) == x * Pow2(k)
  {
    if k == 0 {
    } else {
      ShlIsMul(x, k - 1);
      Double(x, Pow2(k - 1));
    }
  }

  lemma {:induction false} ShrIsDiv(x: nat, k: nat)
    ensures Shr(x, k) == x / Pow2(k)
    decreases k
  {
    if k == 0 {
    } else {
      LowBitsStep(x, k);
      ShrIsDiv(x / 2, k - 1);
    }
  }

  lemma Double(a: nat, p: nat)
    ensures a * (2 * p) == 2 * (a * p)
  {
  }

  // Masks --------------------------------------------------------------------

  /** Masking with 2^k - 1 keeps the remainder modulo 2^k. */
  lemma {:induction false} AndLowMask(x: nat, k: nat)
    ensures And(x, Pow2(k) - 1) == x % Pow2(k)
    decreases k
  {
    if k == 0 {
    } else {
      LowBitsStep(x, k);
      assert (Pow2(k) - 1) / 2 == Pow2(k - 1) - 1;
      AndLowMask(x / 2, k - 1);
    }
  }

  lemma {:induction false} AndHighMask(x: nat, k: nat, n: nat)
    requires k <= n && x < Pow2(n)
    ensures Pow2(k) - 1 < Pow2(n)
    ensures And(x, Not(Pow2(k) - 1, n)) == Shl(Shr(x, k), k)
    decreases k
  {
    if k == 0 {
      AndLowMask(x, n);
      Small(x, Pow2(n));
    } else {
      NotLowMask(k, n);
      AndHighMask(x / 2, k - 1, n - 1);
      AndEven(x, Not(Pow2(k - 1) - 1, n - 1));
    }
  }

  lemma ShrThenShl(x: nat, k: nat)
    ensures Shl(Shr(x, k), k) == x - x % Pow2(k)
  {
    ShrIsDiv(x, k);
    ShlIsMul(x / Pow2(k), k);
  }

  /** Masking an n-bit word with !(2^k - 1) rounds it down to a multiple of 2^k. */
  lemma AndNotLowMask(x: nat, k: nat, n: nat)
    requires k <= n && x < Pow2(n)
    ensures Pow2(k) - 1 < Pow2(n)
    ensures And(x, Not(Pow2(k) - 1, n)) == x - x % Pow2(k)
  {
    AndHighMask(x, k, n);
    ShrThenShl(x, k);
  }

  lemma NotLowMask(k: nat, n: nat)
    requires 0 < k <= n
    ensures Pow2(k) <= Pow2(n) && Pow2(k - 1) <= Pow2(n - 1)
    ensures Not(Pow2(k) - 1, n) == 2 * Not(Pow2(k - 1) - 1, n - 1)
  {
    Pow2Monotone(k - 1, n - 1);
  }

  lemma AndEven(x: nat, y: nat)
    ensures And(x, 2 * y) == 2 * And(x / 2, y)
  {
    assert (2 * y) / 2 == y && (2 * y) % 2 == 0;
  }

  lemma Small(x: nat, d: nat)
    requires x < d
    ensures x % d == x && x / d == 0
  {
    DivModUnique(x, d, 0, x);
  }

  /** Or of a multiple of 2^k with a word below 2^k is their sum. */
  lemma {:induction false} OrDisjoint(a: nat, k: nat, b: nat)
    requires b < Pow2(k)
    ensures Or(a * Pow2(k), b) == a * Pow2(k) + b
    decreases k
  {
    if k == 0 || a == 0 || b == 0 {
    } else {
      var h := a * Pow2(k - 1);
      assert a * Pow2(k) == 2 * h;
      OrDisjoint(a, k - 1, b / 2);
    }
  }

  /** Masking with a shifted mask masks the shifted word. */
  lemma {:induction false} AndShifted(x: nat, m: nat, k: nat)
    ensures And(x, Shl(m, k)) == Shl(And(Shr(x, k), m), k)
    decreases k
  {
    if k == 0 {
    } else {
      AndEven(x, Shl(m, k - 1));
      AndShifted(x / 2, m, k - 1);
    }
  }

  lemma {:induction false} AndSingleBit(x: nat, t: nat)
    ensures And(x, Pow2(t)) == if Bit(x, t) then Pow2(t) else 0
    decreases t
  {
    BitOfZero(t);
    if t > 0 {
      AndSingleBit(x / 2, t - 1);
    } else {
      assert And(x / 2, 0) == 0;
    }
  }

  lemma {:induction false} BitIsDigit(x: nat, t: nat)
    ensures Bit(x, t) == (Shr(x, t) % 2 == 1)
    decreases t
  {
    if t == 0 {
    } else {
      BitIsDigit(x / 2, t - 1);
    }
  }
}
