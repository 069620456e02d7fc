/**
  Exclusive or of unsigned machine words, as a function on natural numbers.
 */
module ExclusiveOr {
  import opened Bits

  /** The lowest bit of the exclusive or. */
  function Odd(x: nat, y: nat): (d: nat)
    ensures d < 2
  {
    if x % 2 == y % 2 then 0 else 1
  }

  function Xor(x: nat, y: nat): nat
    decreases x + y
  {
    if x == 0 && y == 0 then 0 else 2 * Xor(x / 2, y / 2) + Odd(x, y)
  }

  lemma Digits(z: nat, a: nat, d: nat)
    requires z == 2 * a + d && d < 2
    ensures z % 2 == d && z / 2 == a
  {
  }

  lemma {:induction false} XorDigits(x: nat, y: nat)
    ensures Xor(x, y) == 2 * Xor(x / 2, y / 2) + Odd(x, y)
    ensures Xor(x, y) % 2 == Odd(x, y) && Xor(x, y) / 2 == Xor(x / 2, y / 2)
  {
    Digits(Xor(x, y), Xor(x / 2, y / 2), Odd(x, y));
  }

  lemma {:induction false} XorZero(x: nat)
    ensures Xor(x, 0) == x && Xor(0, x) == x
  {
    if x == 0 {
    } else {
      XorZero(x / 2);
    }
  }

  lemma {:induction false} XorSelf(x: nat)
    ensures Xor(x, x) == 0
  {
    if x == 0 {
    } else {
      XorSelf(x / 2);
    }
  }

  lemma {:induction false} XorComm(x: nat, y: nat)
    ensures Xor(x, y) == Xor(y, x)
    decreases x + y
  {
    if x + y == 0 {
    } else {
      XorComm(x / 2, y / 2);
    }
  }

  lemma {:induction false} XorAssoc(x: nat, y: nat, z: nat)
    ensures Xor(Xor(x, y), z) == Xor(x, Xor(y, z))
    decreases x + y + z
  {
    if x + y + z == 0 {
    } else {
      XorAssoc(x / 2, y / 2, z / 2);
      XorDigits(x, y);
      XorDigits(y, z);
      XorDigits(Xor(x, y), z);
      XorDigits(x, Xor(y, z));
    }
  }

  lemma XorCancel(x: nat, y: nat, z: nat)
    requires Xor(x, z) == Xor(y, z)
    ensures x == y
  {
    XorAssoc(x, z, z);
    XorAssoc(y, z, z);
    XorSelf(z);
    XorZero(x);
    XorZero(y);
  }

  /** Two pairs may be mixed in any grouping. */
  lemma XorSwap(a: nat, b: nat, c: nat, d: nat)
    ensures Xor(Xor(a, b), Xor(c, d)) == Xor(Xor(a, c), Xor(b, d))
  {
    XorAssoc(a, b, Xor(c, d));
    XorAssoc(b, c, d);
    XorComm(b, c);
    XorAssoc(c, b, d);
    XorAssoc(a, c, Xor(b, d));
  }

  lemma {:induction false} XorBound(x: nat, y: nat, n: nat)
    requires x < Pow2(n) && y < Pow2(n)
    ensures Xor(x, y) < Pow2(n)
    decreases n
  {
    if n == 0 {
    } else {
      XorBound(x / 2, y / 2, n - 1);
    }
  }

  /** The highest set bit survives a smaller number. */
  lemma {:induction false} XorTop(x: nat, y: nat, n: nat)
    requires x < Pow2(n) <= y < Pow2(n + 1)
    ensures Xor(x, y) >= Pow2(n)
    decreases n
  {
    if n == 0 {
      assert x == 0 && y == 1;
    } else {
      XorTop(x / 2, y / 2, n - 1);
    }
  }

  lemma {:induction false} XorDisjoint(q: nat, b: nat, n: nat)
    requires b < Pow2(n)
    ensures Xor(q * Pow2(n), b) == q * Pow2(n) + b
    decreases n
  {
    if n == 0 {
      XorZero(q);
    } else {
      var a := q * Pow2(n - 1);
      Double(q, Pow2(n - 1));
      XorDisjoint(q, b / 2, n - 1);
      XorOntoEven(a, b);
    }
  }

  lemma {:induction false} XorOntoEven(a: nat, b: nat)
    ensures Xor(2 * a, b) == 2 * Xor(a, b / 2) + b % 2
  {
    XorDigits(2 * a, b);
    Digits(2 * a, a, 0);
  }

  lemma {:induction false} XorEven(a: nat, d: nat)
    requires d < 2
    ensures Xor(d, 2 * a) == 2 * a + d
  {
    XorDigits(d, 2 * a);
    Digits(2 * a, a, 0);
    Digits(d, 0, d);
    XorZero(a);
  }
}
