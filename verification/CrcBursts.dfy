/**
  Which changes to a message CRC-32C always detects: any within four
  consecutive bytes, and not always five. Write-ahead-log entries rest on it.
 */
module CrcBursts {
  import opened Basics
  import opened Bits
  import opened ExclusiveOr
  import opened Crc32c

  // A message as one number ----------------------------------------------------------

  function Number(data: seq<Byte>): nat {
    if data == [] then 0 else 256 * Number(data[1..]) + data[0]
  }

  lemma {:induction false} NumberBound(data: seq<Byte>)
    ensures Number(data) < Pow2(8 * |data|)
    decreases |data|
  {
    if data == [] {
    } else {
      NumberBound(data[1..]);
      ByteBound(data[0], 8);
      Pow2Add(8, 8 * |data[1..]|);
      assert 8 * |data| == 8 + 8 * |data[1..]|;
    }
  }

  lemma {:induction false} NumberInjective(a: seq<Byte>, b: seq<Byte>)
    requires |a| == |b| && Number(a) == Number(b)
    ensures a == b
    decreases |a|
  {
    if a == [] {
    } else {
      DivModUnique(Number(a), 256, Number(a[1..]), a[0]);
      DivModUnique(Number(b), 256, Number(b[1..]), b[0]);
      NumberInjective(a[1..], b[1..]);
      assert a == [a[0]] + a[1..] && b == [b[0]] + b[1..];
    }
  }

  /** Eight steps of a byte under a larger number bring the number down. */
  lemma FoldByte(x: nat, b: Byte, rest: nat, n: nat)
    requires n == 8
    ensures Steps(Xor(x, 256 * rest + b), n) == Xor(Steps(Xor(x, b), n), rest)
  {
    ByteBound(b, n);
    XorDisjoint(rest, b, n);
    XorComm(rest * Pow2(n), b);
    XorAssoc(x, b, rest * Pow2(n));
    StepsXor(Xor(x, b), rest * Pow2(n), n);
    StepsOfMultiple(rest, n);
  }

  lemma {:induction false} StepsAdd(x: nat, m: nat, n: nat)
    ensures Steps(x, m + n) == Steps(Steps(x, m), n)
    decreases m
  {
    if m == 0 {
    } else {
      StepsAdd(Step(x), m - 1, n);
    }
  }

  /** Folding a message in byte by byte is mixing its number in once and stepping. */
  lemma {:induction false} FoldIsSteps(x: nat, data: seq<Byte>)
    ensures Fold(x, data) == Steps(Xor(x, Number(data)), 8 * |data|)
    decreases |data|
  {
    if data == [] {
      XorZero(x);
    } else {
      var y, m := Steps(Xor(x, data[0]), 8), 8 * |data[1..]|;
      FoldIsSteps(y, data[1..]);
      FoldThenSteps(x, data[0], Number(data[1..]), m);
      assert 8 * |data| == 8 + m;
    }
  }

  lemma FoldThenSteps(x: nat, b: Byte, rest: nat, m: nat)
    ensures Steps(Xor(Steps(Xor(x, b), 8), rest), m) == Steps(Xor(x, 256 * rest + b), 8 + m)
  {
    FoldByte(x, b, rest, 8);
    StepsAdd(Xor(x, 256 * rest + b), 8, m);
  }

  /** A register of n bits: it holds a byte, and the polynomial's highest bit is its highest. */
  predicate IsWidth(n: nat) {
    n >= 8 && Pow2(n - 1) <= POLY < Pow2(n)
  }

  lemma WordWidth(n: nat)
    requires n == 32
    ensures IsWidth(n) && Pow2(n) == ALL_ONES + 1
  {
    WordBound(n);
  }

  // Nothing is lost in the register ---------------------------------------------------------

  /** The highest bit of a step tells whether the polynomial was mixed in. */
  lemma StepTop(x: nat, n: nat)
    requires IsWidth(n) && x < Pow2(n)
    ensures Step(x) < Pow2(n)
    ensures x % 2 == 1 <==> Step(x) >= Pow2(n - 1)
  {
    StepBound(x, n);
    if x % 2 == 1 {
      XorTop(x / 2, POLY, n - 1);
    }
  }

  lemma StepInjective(x: nat, y: nat, n: nat)
    requires IsWidth(n) && x < Pow2(n) && y < Pow2(n) && Step(x) == Step(y)
    ensures x == y
  {
    StepTop(x, n);
    StepTop(y, n);
    if x % 2 == 1 {
      XorCancel(x / 2, y / 2, POLY);
    }
  }

  lemma {:induction false} StepsInjective(x: nat, y: nat, k: nat, n: nat)
    requires IsWidth(n) && x < Pow2(n) && y < Pow2(n) && Steps(x, k) == Steps(y, k)
    ensures x == y
    decreases k
  {
    if k == 0 {
    } else {
      StepTop(x, n);
      StepTop(y, n);
      StepsInjective(Step(x), Step(y), k - 1, n);
      StepInjective(x, y, n);
    }
  }

  lemma {:induction false} StepsBound(x: nat, k: nat, n: nat)
    requires IsWidth(n) && x < Pow2(n)
    ensures Steps(x, k) < Pow2(n)
    decreases k
  {
    if k == 0 {
    } else {
      StepTop(x, n);
      StepsBound(Step(x), k - 1, n);
    }
  }

  lemma ShortNumber(data: seq<Byte>, n: nat)
    requires 8 * |data| <= n
    ensures Number(data) < Pow2(n)
  {
    NumberBound(data);
    Pow2Monotone(8 * |data|, n);
  }

  /** Up to four bytes are recovered from the register before and after them. */
  lemma ShortFoldInjective(x: nat, a: seq<Byte>, b: seq<Byte>, n: nat)
    requires IsWidth(n) && x < Pow2(n) && 8 * |a| == 8 * |b| <= n && Fold(x, a) == Fold(x, b)
    ensures a == b
  {
    ShortNumber(a, n);
    ShortNumber(b, n);
    FoldIsSteps(x, a);
    FoldIsSteps(x, b);
    XorBound(x, Number(a), n);
    XorBound(x, Number(b), n);
    StepsInjective(Xor(x, Number(a)), Xor(x, Number(b)), 8 * |a|, n);
    XorComm(x, Number(a));
    XorComm(x, Number(b));
    XorCancel(Number(a), Number(b), x);
    NumberInjective(a, b);
  }

  lemma {:induction false} FoldBounded(x: nat, data: seq<Byte>, n: nat)
    requires IsWidth(n) && x < Pow2(n)
    ensures Fold(x, data) < Pow2(n)
    decreases |data|
  {
    if data == [] {
    } else {
      ShortNumber([data[0]], n);
      XorBound(x, data[0], n);
      StepsBound(Xor(x, data[0]), 8, n);
      FoldBounded(Steps(Xor(x, data[0]), 8), data[1..], n);
    }
  }

  lemma {:induction false} FoldRegisterInjective(x: nat, y: nat, data: seq<Byte>, n: nat)
    requires IsWidth(n) && x < Pow2(n) && y < Pow2(n) && Fold(x, data) == Fold(y, data)
    ensures x == y
    decreases |data|
  {
    if data == [] {
    } else {
      ShortNumber([data[0]], n);
      XorBound(x, data[0], n);
      XorBound(y, data[0], n);
      StepsBound(Xor(x, data[0]), 8, n);
      StepsBound(Xor(y, data[0]), 8, n);
      FoldRegisterInjective(Steps(Xor(x, data[0]), 8), Steps(Xor(y, data[0]), 8), data[1..], n);
      StepsInjective(Xor(x, data[0]), Xor(y, data[0]), 8, n);
      XorCancel(x, y, data[0]);
    }
  }

  lemma {:induction false} FoldAppend(x: nat, a: seq<Byte>, b: seq<Byte>)
    ensures Fold(x, a + b) == Fold(Fold(x, a), b)
    decreases |a|
  {
    if a == [] {
      assert a + b == b;
    } else {
      assert (a + b)[1..] == a[1..] + b;
      FoldAppend(Steps(Xor(x, a[0]), 8), a[1..], b);
    }
  }

  // Bursts ---------------------------------------------------------------------------------

  lemma SameCrc(data: seq<Byte>, a: nat, b: nat)
    requires IsCrc32c(a, data) && IsCrc32c(b, data)
    ensures a == b
  {
    var n := 32;
    WordBound(n);
    SameWord(a, b, n);
  }

  /** The one word that is the CRC-32C of a message. */
  lemma CrcUnique(data: seq<Byte>, crc: nat)
    requires IsCrc32c(crc, data)
    ensures crc == ALL_ONES - Fold(ALL_ONES, data)
  {
    FoldBound(data);
    var folded := ALL_ONES - Fold(ALL_ONES, data);
    FoldIsCrc(data, folded);
    SameCrc(data, crc, folded);
  }

  /** Messages that differ, and only within four consecutive bytes, have different checksums. */
  lemma BurstDetected(before: seq<Byte>, a: seq<Byte>, b: seq<Byte>, after: seq<Byte>, crc: nat)
    requires |a| == |b| <= 4 && a != b
    requires IsCrc32c(crc, before + a + after)
    ensures !IsCrc32c(crc, before + b + after)
  {
    if IsCrc32c(crc, before + b + after) {
      var n := 32;
      WordWidth(n);
      CrcUnique(before + a + after, crc);
      CrcUnique(before + b + after, crc);
      var x := Fold(ALL_ONES, before);
      FoldBounded(ALL_ONES, before, n);
      FoldInParts(before, a, after);
      FoldInParts(before, b, after);
      FoldBounded(x, a, n);
      FoldBounded(x, b, n);
      FoldRegisterInjective(Fold(x, a), Fold(x, b), after, n);
      ShortFoldInjective(x, a, b, n);
    }
  }

  lemma FoldInParts(before: seq<Byte>, a: seq<Byte>, after: seq<Byte>)
    ensures Fold(ALL_ONES, before + a + after) == Fold(Fold(Fold(ALL_ONES, before), a), after)
  {
    FoldAppend(ALL_ONES, before + a, after);
    FoldAppend(ALL_ONES, before, a);
  }

  // Five bytes are too many ------------------------------------------------------------------

  function XorBytes(a: seq<Byte>, b: seq<Byte>): (c: seq<Byte>)
    requires |a| == |b|
    ensures |c| == |a|
  {
    if a == [] then [] else [XorByte(a[0], b[0])] + XorBytes(a[1..], b[1..])
  }

  function XorByte(a: Byte, b: Byte): Byte {
    var n := 8;
    ByteBound(a, n);
    ByteBound(b, n);
    XorBound(a, b, n);
    Xor(a, b)
  }

  /** A byte below a number of whole bytes. */
  lemma XorByteBelow(p: nat, a: nat, n: nat)
    requires n == 8 && a < 256
    ensures Xor(256 * p, a) == 256 * p + a
  {
    ByteBound(a, n);
    XorDisjoint(p, a, n);
  }

  lemma XorWholeBytes(p: nat, q: nat, n: nat)
    requires n == 8
    ensures Xor(256 * p, 256 * q) == 256 * Xor(p, q)
  {
    ByteBound(0, n);
    XorShifted(p, q, n);
  }

  lemma NumberXorStep(a: Byte, b: Byte, p: nat, q: nat, n: nat)
    requires n == 8
    ensures Xor(256 * p + a, 256 * q + b) == 256 * Xor(p, q) + XorByte(a, b)
  {
    XorByteBelow(p, a, n);
    XorByteBelow(q, b, n);
    XorSwap(256 * p, a, 256 * q, b);
    XorWholeBytes(p, q, n);
    XorByteBelow(Xor(p, q), XorByte(a, b), n);
  }

  lemma {:induction false} XorShl(p: nat, q: nat, n: nat)
    ensures Xor(Shl(p, n), Shl(q, n)) == Shl(Xor(p, q), n)
    decreases n
  {
    if n == 0 {
    } else {
      XorShl(p, q, n - 1);
      XorDoubled(Shl(p, n - 1), Shl(q, n - 1), Shl(Xor(p, q), n - 1));
    }
  }

  lemma XorShifted(p: nat, q: nat, n: nat)
    ensures Xor(p * Pow2(n), q * Pow2(n)) == Xor(p, q) * Pow2(n)
  {
    XorShl(p, q, n);
    ShlIsMul(p, n);
    ShlIsMul(q, n);
    ShlIsMul(Xor(p, q), n);
  }

  lemma XorDoubled(a: nat, b: nat, c: nat)
    requires Xor(a, b) == c
    ensures Xor(2 * a, 2 * b) == 2 * c
  {
    XorOntoEven(a, 2 * b);
    Digits(2 * b, b, 0);
  }

  lemma {:induction false} NumberXor(a: seq<Byte>, b: seq<Byte>)
    requires |a| == |b|
    ensures Number(XorBytes(a, b)) == Xor(Number(a), Number(b))
    decreases |a|
  {
    if a == [] {
    } else {
      NumberXor(a[1..], b[1..]);
      NumberXorStep(a[0], b[0], Number(a[1..]), Number(b[1..]), 8);
      assert XorBytes(a, b)[1..] == XorBytes(a[1..], b[1..]);
    }
  }

  /** The generator itself, as a five-byte change. */
  const GENERATOR_BYTES: seq<Byte> := [0xF1, 0x76, 0xEC, 0x05, 0x01]

  lemma GeneratorNumber(g: seq<Byte>)
    requires g == GENERATOR_BYTES
    ensures Number(g) == 2 * POLY + 1
  {
    assert g[1..] == [0x76, 0xEC, 0x05, 0x01];
    assert g[1..][1..] == [0xEC, 0x05, 0x01];
    assert g[1..][1..][1..] == [0x05, 0x01];
    assert g[1..][1..][1..][1..] == [0x01];
    assert g[1..][1..][1..][1..][1..] == [];
  }

  lemma {:induction false} StepsOfZero(n: nat)
    ensures Steps(0, n) == 0
  {
    if n == 0 {
    } else {
      StepEven(0);
      StepsOfZero(n - 1);
    }
  }

  lemma GeneratorVanishes(k: nat)
    requires k > 0
    ensures Steps(2 * POLY + 1, k) == 0
  {
    Digits(2 * POLY + 1, POLY, 1);
    XorSelf(POLY);
    StepsOfZero(k - 1);
  }

  lemma SameFold(x: nat, a: seq<Byte>)
    requires |a| == 5
    ensures Fold(x, XorBytes(a, GENERATOR_BYTES)) == Fold(x, a)
  {
    var b, g := XorBytes(a, GENERATOR_BYTES), Number(GENERATOR_BYTES);
    FoldIsSteps(x, a);
    FoldIsSteps(x, b);
    NumberXor(a, GENERATOR_BYTES);
    GeneratorNumber(GENERATOR_BYTES);
    XorAssoc(x, Number(a), g);
    StepsXor(Xor(x, Number(a)), g, 8 * |a|);
    GeneratorVanishes(8 * |a|);
    XorZero(Steps(Xor(x, Number(a)), 8 * |a|));
  }

  /** Four is the limit: anywhere in any message, one five-byte change goes unseen. */
  lemma FiveByteChangeUnseen(before: seq<Byte>, a: seq<Byte>, after: seq<Byte>, crc: nat)
    requires |a| == 5 && IsCrc32c(crc, before + a + after)
    ensures XorBytes(a, GENERATOR_BYTES) != a
    ensures IsCrc32c(crc, before + XorBytes(a, GENERATOR_BYTES) + after)
  {
    var b := XorBytes(a, GENERATOR_BYTES);
    if b == a {
      NumberXor(a, GENERATOR_BYTES);
      GeneratorNumber(GENERATOR_BYTES);
      XorZero(Number(a));
      XorComm(Number(a), 0);
      XorComm(Number(a), 2 * POLY + 1);
      XorCancel(0, 2 * POLY + 1, Number(a));
    }
    CrcUnique(before + a + after, crc);
    FoldInParts(before, a, after);
    FoldInParts(before, b, after);
    SameFold(Fold(ALL_ONES, before), a);
    FoldIsCrc(before + b + after, crc);
  }
}
