/**
  CRC-32C: the table-driven checksum against the bit-at-a-time definition of
  section 12.1 of RFC 3720, and which changes it always detects.
 */
module Crc32c {
  import opened Basics
  import opened Bits
  import opened ExclusiveOr

  const POLY: nat := 0x82F6_3B78
  const GENERATOR: nat := 0x1EDC_6F41
  const ALL_ONES: nat := 0xFFFF_FFFF

  // The reference: division by the generator over the message bits ---------------------

  /** The low n bits of x, lowest first. */
  function LowFirst(x: nat, n: nat): (bits: seq<bool>)
    ensures |bits| == n
    decreases n, x
  {
    if n == 0 then [] else [x % 2 == 1] + LowFirst(x / 2, n - 1)
  }

  /** The low n bits of x, highest first. */
  function HighFirst(x: nat, n: nat): (bits: seq<bool>)
    ensures |bits| == n
    decreases n, x
  {
    if n == 0 then [] else HighFirst(x / 2, n - 1) + [x % 2 == 1]
  }

  function Mix(a: seq<bool>, b: seq<bool>): (c: seq<bool>)
    requires |a| == |b|
    ensures |c| == |a|
  {
    seq(|a|, i requires 0 <= i < |a| => a[i] != b[i])
  }

  /** One step of long division; r holds the coefficients of x^31 down to 1. */
  function DivideBit(r: seq<bool>, bit: bool): (next: seq<bool>)
    requires |r| > 0
    ensures |next| == |r|
  {
    var shifted := r[1..] + [false];
    if r[0] != bit then Mix(shifted, HighFirst(GENERATOR, |r|)) else shifted
  }

  function Divide(r: seq<bool>, bits: seq<bool>): (next: seq<bool>)
    requires |r| > 0
    ensures |next| == |r|
    decreases |bits|
  {
    if bits == [] then r else Divide(DivideBit(r, bits[0]), bits[1..])
  }

  /** Each byte is sent lowest bit first. */
  function MessageBits(data: seq<Byte>): seq<bool> {
    if data == [] then [] else LowFirst(data[0], 8) + MessageBits(data[1..])
  }

  function Complement(bits: seq<bool>): (c: seq<bool>)
    ensures |c| == |bits|
  {
    seq(|bits|, i requires 0 <= i < |bits| => !bits[i])
  }

  /** The remainder from an all-ones start, complemented, highest coefficient first. */
  function Remainder(data: seq<Byte>): (r: seq<bool>)
    ensures |r| == 32
  {
    Complement(Divide(seq(32, _ => true), MessageBits(data)))
  }

  /** The checksum word carries the remainder's highest coefficient in its lowest bit. */
  predicate IsCrc32c(crc: nat, data: seq<Byte>) {
    crc <= ALL_ONES && LowFirst(crc, 32) == Remainder(data)
  }

  // Bits of words ------------------------------------------------------------------------

  lemma {:induction false} SameWord(x: nat, y: nat, n: nat)
    requires x < Pow2(n) && y < Pow2(n) && LowFirst(x, n) == LowFirst(y, n)
    ensures x == y
    decreases n
  {
    if n == 0 {
    } else {
      assert LowFirst(x, n)[0] == LowFirst(y, n)[0];
      assert LowFirst(x, n)[1..] == LowFirst(x / 2, n - 1) && LowFirst(y, n)[1..] == LowFirst(y / 2, n - 1);
      SameWord(x / 2, y / 2, n - 1);
    }
  }

  lemma {:induction false} HalfBits(x: nat, n: nat)
    requires n > 0 && x < Pow2(n)
    ensures LowFirst(x / 2, n) == LowFirst(x, n)[1..] + [false]
    decreases n
  {
    var h := x / 2;
    BitsCons(x, n);
    BitsCons(h, n);
    if n == 1 {
      assert h == 0 && LowFirst(h / 2, 0) == [];
    } else {
      var q, b := h / 2, h % 2 == 1;
      HalfBits(h, n - 1);
      BitsCons(h, n - 1);
      Regrouped(b, LowFirst(q, n - 2));
    }
  }

  lemma BitsCons(x: nat, n: nat)
    requires n > 0
    ensures LowFirst(x, n) == [x % 2 == 1] + LowFirst(x / 2, n - 1)
    ensures LowFirst(x, n)[1..] == LowFirst(x / 2, n - 1)
  {
  }

  lemma Regrouped(b: bool, rest: seq<bool>)
    ensures [b] + (rest + [false]) == ([b] + rest) + [false]
  {
  }

  lemma {:induction false} XorBits(x: nat, y: nat, n: nat)
    ensures LowFirst(Xor(x, y), n) == Mix(LowFirst(x, n), LowFirst(y, n))
    decreases n
  {
    if n == 0 {
    } else {
      XorDigits(x, y);
      XorBits(x / 2, y / 2, n - 1);
      assert Mix(LowFirst(x, n), LowFirst(y, n))
          == [(x % 2 == 1) != (y % 2 == 1)] + Mix(LowFirst(x / 2, n - 1), LowFirst(y / 2, n - 1));
    }
  }

  // The register kept bit-reversed -----------------------------------------------------------

  function Step(x: nat): nat {
    if x % 2 != 0 then Xor(x / 2, POLY) else x / 2
  }

  function Steps(x: nat, n: nat): nat
    decreases n, x
  {
    if n == 0 then x else Steps(Step(x), n - 1)
  }

  function Feed(x: nat, bits: seq<bool>): nat
    decreases |bits|
  {
    if bits == [] then x else Feed(Step(Xor(x, Digit(bits[0]))), bits[1..])
  }

  function Digit(bit: bool): nat {
    if bit then 1 else 0
  }

  function Fold(x: nat, data: seq<Byte>): nat
    decreases |data|
  {
    if data == [] then x else Fold(Steps(Xor(x, data[0]), 8), data[1..])
  }

  // Linearity -------------------------------------------------------------------------------

  lemma StepXor(x: nat, y: nat)
    ensures Step(Xor(x, y)) == Xor(Step(x), Step(y))
  {
    XorDigits(x, y);
    var a, b := x / 2, y / 2;
    if x % 2 != 0 && y % 2 != 0 {
      XorSwap(a, POLY, b, POLY);
      XorSelf(POLY);
      XorZero(Xor(a, b));
    } else if x % 2 != 0 {
      XorAssoc(a, POLY, b);
      XorComm(POLY, b);
      XorAssoc(a, b, POLY);
    } else if y % 2 != 0 {
      XorAssoc(a, b, POLY);
    }
  }

  lemma StepEven(a: nat)
    ensures Step(2 * a) == a
  {
    Digits(2 * a, a, 0);
  }

  lemma {:induction false} StepsXor(x: nat, y: nat, n: nat)
    ensures Steps(Xor(x, y), n) == Xor(Steps(x, n), Steps(y, n))
    decreases n
  {
    if n == 0 {
    } else {
      StepXor(x, y);
      StepsXor(Step(x), Step(y), n - 1);
    }
  }

  lemma {:induction false} StepsOfMultiple(q: nat, n: nat)
    ensures Steps(q * Pow2(n), n) == q
    decreases n
  {
    if n == 0 {
    } else {
      Double(q, Pow2(n - 1));
      StepEven(q * Pow2(n - 1));
      StepsOfMultiple(q, n - 1);
    }
  }

  /** n steps mix the low n bits through the table and bring the rest down. */
  lemma StepsSplit(h: nat, q: nat, b: nat, n: nat)
    requires b < Pow2(n) && h == q * Pow2(n)
    ensures Steps(h + b, n) == Xor(Steps(b, n), q)
  {
    XorDisjoint(q, b, n);
    StepsXor(h, b, n);
    StepsOfMultiple(q, n);
    XorComm(q, Steps(b, n));
  }

  lemma FeedStep(x: nat, a: nat, d: nat)
    requires d < 2
    ensures Step(Xor(x, 2 * a + d)) == Xor(Step(Xor(x, d)), a)
  {
    XorEven(a, d);
    XorAssoc(x, d, 2 * a);
    StepXor(Xor(x, d), 2 * a);
    StepEven(a);
  }

  /** Mixing a number in at once and stepping is feeding its bits one at a time. */
  lemma {:induction false} FeedIsSteps(x: nat, b: nat, n: nat)
    requires b < Pow2(n)
    ensures Feed(x, LowFirst(b, n)) == Steps(Xor(x, b), n)
    decreases n
  {
    if n == 0 {
      XorZero(x);
    } else {
      FeedStep(x, b / 2, b % 2);
      FeedIsSteps(Step(Xor(x, b % 2)), b / 2, n - 1);
      assert LowFirst(b, n)[1..] == LowFirst(b / 2, n - 1);
    }
  }

  // The register against the division ---------------------------------------------------------

  /** The low n bits of x in reverse order, above those of `high`. */
  function Reflect(x: nat, n: nat, high: nat): nat
    decreases n, x, high
  {
    if n == 0 then high else Reflect(x / 2, n - 1, 2 * high + x % 2)
  }

  lemma {:induction false} ReflectBits(x: nat, n: nat, high: nat, m: nat)
    ensures LowFirst(Reflect(x, n, high), n + m) == HighFirst(x, n) + LowFirst(high, m)
    decreases n
  {
    if n == 0 {
    } else {
      ReflectBits(x / 2, n - 1, 2 * high + x % 2, m + 1);
      Digits(2 * high + x % 2, high, x % 2);
    }
  }

  lemma ReflectBit(x: nat, n: nat, high: nat, half: nat, d: nat)
    requires n > 0 && d < 2 && x == 2 * half + d
    ensures Reflect(x, n, high) == Reflect(half, n - 1, 2 * high + d)
  {
    Digits(x, half, d);
  }

  lemma ReflectNibble(x: nat, n: nat, high: nat, q: nat, a: nat, b: nat, c: nat, d: nat)
    requires n >= 4 && a < 2 && b < 2 && c < 2 && d < 2
    requires x == 16 * q + 8 * a + 4 * b + 2 * c + d
    ensures Reflect(x, n, high) == Reflect(q, n - 4, 16 * high + 8 * d + 4 * c + 2 * b + a)
  {
    var high1 := 2 * high + d;
    var high2 := 2 * high1 + c;
    var high3 := 2 * high2 + b;
    ReflectBit(x, n, high, 8 * q + 4 * a + 2 * b + c, d);
    ReflectBit(8 * q + 4 * a + 2 * b + c, n - 1, high1, 4 * q + 2 * a + b, c);
    ReflectBit(4 * q + 2 * a + b, n - 2, high2, 2 * q + a, b);
    ReflectBit(2 * q + a, n - 3, high3, q, a);
  }

  lemma LowHalfReflected(g: nat, n: nat, high: nat, g4: nat, p4: nat)
    requires g == 0x1EDC_6F41 && n >= 16 && high == 0 && g4 == 0x1EDC && p4 == 0x82F6
    ensures Reflect(g, n, high) == Reflect(g4, n - 16, p4)
  {
    ReflectNibble(g, n, high, 0x1EDC6F4, 0, 0, 0, 1);
    ReflectNibble(0x1EDC6F4, n - 4, 0x8, 0x1EDC6F, 0, 1, 0, 0);
    ReflectNibble(0x1EDC6F, n - 8, 0x82, 0x1EDC6, 1, 1, 1, 1);
    ReflectNibble(0x1EDC6, n - 12, 0x82F, g4, 0, 1, 1, 0);
  }

  lemma HighHalfReflected(g4: nat, n: nat, p4: nat, p8: nat)
    requires g4 == 0x1EDC && n >= 16 && p4 == 0x82F6 && p8 == 0x82F6_3B78
    ensures Reflect(g4, n, p4) == Reflect(0, n - 16, p8)
  {
    ReflectNibble(g4, n, p4, 0x1ED, 1, 1, 0, 0);
    ReflectNibble(0x1ED, n - 4, 0x82F63, 0x1E, 1, 1, 0, 1);
    ReflectNibble(0x1E, n - 8, 0x82F63B, 0x1, 1, 1, 1, 0);
    ReflectNibble(0x1, n - 12, 0x82F63B7, 0, 0, 0, 0, 1);
  }

  lemma PolyIsReflected(n: nat)
    requires n == 32
    ensures Reflect(GENERATOR, n, 0) == POLY
  {
    LowHalfReflected(GENERATOR, n, 0, 0x1EDC, 0x82F6);
    HighHalfReflected(0x1EDC, n - 16, 0x82F6, POLY);
  }

  lemma GeneratorBits(n: nat)
    requires n == 32
    ensures LowFirst(POLY, n) == HighFirst(GENERATOR, n)
  {
    PolyIsReflected(n);
    ReflectBits(GENERATOR, n, 0, 0);
  }

  lemma StepBound(x: nat, n: nat)
    requires n > 0 && x < Pow2(n) && POLY < Pow2(n)
    ensures Step(x) < Pow2(n)
  {
    XorBound(x / 2, POLY, n);
  }

  lemma HalfWordBound(n: nat)
    requires n == 16
    ensures Pow2(n) == 0x1_0000 && Pow2(n - 1) == 0x8000
  {
    Pow2Add(7, 8);
    Pow2Add(8, 8);
  }

  lemma WordBound(n: nat)
    requires n == 32
    ensures Pow2(n) == ALL_ONES + 1 && Pow2(n - 1) == 0x8000_0000
  {
    HalfWordBound(16);
    Pow2Add(n - 17, n - 16);
    Pow2Add(n - 16, n - 16);
  }

  lemma OddBit(x: nat, bit: bool)
    ensures Xor(x, Digit(bit)) / 2 == x / 2
    ensures Xor(x, Digit(bit)) % 2 == 1 <==> (x % 2 == 1) != bit
  {
    XorDigits(x, Digit(bit));
    XorZero(x / 2);
  }

  /** A register of n bits holds the polynomial, and the polynomial is the generator reflected in it. */
  predicate IsRegister(n: nat) {
    n > 0 && POLY < Pow2(n) && LowFirst(POLY, n) == HighFirst(GENERATOR, n)
  }

  lemma WordIsRegister(n: nat)
    requires n == 32
    ensures IsRegister(n) && Pow2(n) == ALL_ONES + 1
  {
    WordBound(n);
    GeneratorBits(n);
  }

  lemma StepBits(y: nat, n: nat)
    requires IsRegister(n) && y < Pow2(n)
    ensures LowFirst(Step(y), n)
         == if y % 2 == 1 then Mix(LowFirst(y, n)[1..] + [false], HighFirst(GENERATOR, n))
             else LowFirst(y, n)[1..] + [false]
  {
    HalfBits(y, n);
    XorBits(y / 2, POLY, n);
  }

  lemma RestBits(x: nat, y: nat, n: nat)
    requires n > 0 && x / 2 == y / 2
    ensures LowFirst(x, n)[1..] == LowFirst(y, n)[1..]
    ensures LowFirst(x, n)[0] == (x % 2 == 1)
  {
    assert LowFirst(x, n)[1..] == LowFirst(x / 2, n - 1);
    assert LowFirst(y, n)[1..] == LowFirst(y / 2, n - 1);
  }

  /** One step of the reversed register is one step of the division. */
  lemma StepDivides(x: nat, bit: bool, n: nat)
    requires IsRegister(n) && x < Pow2(n)
    ensures Step(Xor(x, Digit(bit))) < Pow2(n)
    ensures LowFirst(Step(Xor(x, Digit(bit))), n) == DivideBit(LowFirst(x, n), bit)
  {
    var y := Xor(x, Digit(bit));
    OddBit(x, bit);
    XorBound(x, Digit(bit), n);
    StepBound(y, n);
    StepBits(y, n);
    RestBits(x, y, n);
  }

  lemma {:induction false} FeedDivides(x: nat, bits: seq<bool>, n: nat)
    requires IsRegister(n) && x < Pow2(n)
    ensures Feed(x, bits) < Pow2(n)
    ensures LowFirst(Feed(x, bits), n) == Divide(LowFirst(x, n), bits)
    decreases |bits|
  {
    if bits == [] {
    } else {
      StepDivides(x, bits[0], n);
      FeedDivides(Step(Xor(x, Digit(bits[0]))), bits[1..], n);
    }
  }

  lemma {:induction false} FeedAppend(x: nat, a: seq<bool>, b: seq<bool>)
    ensures Feed(x, a + b) == Feed(Feed(x, a), b)
    decreases |a|
  {
    if a == [] {
      assert a + b == b;
    } else {
      assert (a + b)[1..] == a[1..] + b;
      FeedAppend(Step(Xor(x, Digit(a[0]))), a[1..], b);
    }
  }

  lemma {:induction false} FoldIsFeed(x: nat, data: seq<Byte>)
    ensures Fold(x, data) == Feed(x, MessageBits(data))
    decreases |data|
  {
    if data == [] {
    } else {
      ByteBound(data[0], 8);
      FeedIsSteps(x, data[0], 8);
      FeedAppend(x, LowFirst(data[0], 8), MessageBits(data[1..]));
      FoldIsFeed(Steps(Xor(x, data[0]), 8), data[1..]);
    }
  }

  lemma ByteBound(b: Byte, n: nat)
    requires n == 8
    ensures b < Pow2(n) == 256
  {
    Pow2Add(4, 4);
  }

  lemma {:induction false} OnesBits(x: nat, n: nat)
    requires x + 1 == Pow2(n)
    ensures LowFirst(x, n) == seq(n, _ => true)
    decreases n
  {
    if n == 0 {
    } else {
      Digits(x, Pow2(n - 1) - 1, 1);
      OnesBits(x / 2, n - 1);
    }
  }

  lemma ComplementCons(bit: bool, rest: seq<bool>)
    ensures Complement([bit] + rest) == [!bit] + Complement(rest)
  {
  }

  lemma {:induction false} ComplementBits(x: nat, n: nat)
    requires x < Pow2(n)
    ensures LowFirst(Pow2(n) - 1 - x, n) == Complement(LowFirst(x, n))
    decreases n
  {
    if n == 0 {
    } else {
      Digits(Pow2(n) - 1 - x, Pow2(n - 1) - 1 - x / 2, 1 - x % 2);
      ComplementBits(x / 2, n - 1);
      ComplementCons(x % 2 == 1, LowFirst(x / 2, n - 1));
    }
  }

  lemma FoldBound(data: seq<Byte>)
    ensures Fold(ALL_ONES, data) <= ALL_ONES
  {
    WordIsRegister(32);
    FoldBits(data, 32);
  }

  lemma FoldBits(data: seq<Byte>, n: nat)
    requires IsRegister(n) && Pow2(n) == ALL_ONES + 1
    ensures Fold(ALL_ONES, data) <= ALL_ONES
    ensures LowFirst(ALL_ONES - Fold(ALL_ONES, data), n) == Complement(Divide(seq(n, _ => true), MessageBits(data)))
  {
    FoldIsFeed(ALL_ONES, data);
    FeedDivides(ALL_ONES, MessageBits(data), n);
    OnesBits(ALL_ONES, n);
    ComplementBits(Fold(ALL_ONES, data), n);
  }

  /** Folding the message into an all-ones register and complementing is the CRC. */
  lemma FoldIsCrc(data: seq<Byte>, crc: nat)
    requires crc == ALL_ONES - Fold(ALL_ONES, data)
    ensures IsCrc32c(crc, data)
  {
    WordIsRegister(32);
    FoldBits(data, 32);
  }

  // The program -----------------------------------------------------------------------------

  method BuildTable() returns (table: seq<nat>)
    ensures |table| == 256
    ensures forall i :: 0 <= i < 256 ==> table[i] == Steps(i, 8)
  {
    var entries := new nat[256](_ => 0);
    for i := 0 to 256
      invariant forall k :: 0 <= k < i ==> entries[k] == Steps(k, 8)
    {
      var crc := TableEntry(i);
      entries[i] := crc;
    }
    return entries[..];
  }

  method TableEntry(i: nat) returns (crc: nat)
    ensures crc == Steps(i, 8)
  {
    crc := i;
    for j := 0 to 8
      invariant Steps(crc, 8 - j) == Steps(i, 8)
    {
      if crc % 2 != 0 {
        crc := Xor(crc / 2, POLY);
      } else {
        crc := crc / 2;
      }
    }
  }

  /** A table entry and a shift do the work of eight steps. */
  lemma TableStep(crc: nat, b: Byte, n: nat)
    requires n == 8
    ensures Steps(Xor(crc, b), n) == Xor(Steps(Xor(crc, b) % 256, n), crc / 256)
  {
    ByteBound(b, n);
    XorHigh(crc, b, n, 256);
    LowByteFirst(Xor(crc, b), crc / 256, n);
  }

  lemma LowByteFirst(x: nat, high: nat, n: nat)
    requires Pow2(n) == 256 && x / 256 == high
    ensures Steps(x, n) == Xor(Steps(x % 256, n), high)
  {
    StepsSplit(256 * high, high, x % 256, n);
  }

  lemma {:induction false} XorHigh(x: nat, b: nat, n: nat, p: nat)
    requires b < p == Pow2(n)
    ensures Xor(x, b) / p == x / p
    decreases n
  {
    if n == 0 {
      XorZero(x);
    } else {
      XorDigits(x, b);
      XorHigh(x / 2, b / 2, n - 1, Pow2(n - 1));
      LowBitsStep(x, n);
      LowBitsStep(Xor(x, b), n);
    }
  }

  lemma {:induction false} FoldSnoc(x: nat, data: seq<Byte>, n: nat)
    requires n < |data|
    ensures Fold(x, data[..n + 1]) == Steps(Xor(Fold(x, data[..n]), data[n]), 8)
    decreases n
  {
    if n == 0 {
      assert data[..1][1..] == [] && data[..0] == [];
    } else {
      FoldSnoc(Steps(Xor(x, data[0]), 8), data[1..], n - 1);
      assert data[..n + 1][1..] == data[1..][..n] && data[..n][1..] == data[1..][..n - 1];
    }
  }

  method TableFold(data: seq<Byte>) returns (crc: nat)
    ensures crc == Fold(ALL_ONES, data)
  {
    var table := BuildTable();
    crc := ALL_ONES;
    for k := 0 to |data|
      invariant crc == Fold(ALL_ONES, data[..k])
    {
      FoldSnoc(ALL_ONES, data, k);
      TableStep(crc, data[k], 8);
      var i := Xor(crc, data[k]) % 256;
      crc := Xor(table[i], crc / 256);
    }
    assert data[..|data|] == data;
  }

  /** The table-driven checksum is the CRC-32C of every byte string. */
  method Checksum(data: seq<Byte>) returns (crc: nat)
    ensures IsCrc32c(crc, data)
  {
    var folded := TableFold(data);
    FoldBound(data);
    crc := ALL_ONES - folded;
    FoldIsCrc(data, crc);
  }
}
