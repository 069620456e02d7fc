/**
  Cache geometry from CTR_EL0, and the addresses that reach every data cache
  line of a range.
 */
module CacheLines {
  import opened Bits

  const DMINLINE_SHIFT: nat := 16
  const DMINLINE_MASK: nat := 0xF
  const IDC_BIT: nat := 28
  const DIC_BIT: nat := 29

  datatype CacheType = CacheType(dcacheLineBytes: nat, idc: bool, dic: bool)

  function FromCtrEl0(ctr: nat): CacheType {
    var dminline := And(Shr(ctr, DMINLINE_SHIFT), DMINLINE_MASK);
    CacheType(Shl(4, dminline), HasBit(ctr, IDC_BIT), HasBit(ctr, DIC_BIT))
  }

  predicate HasBit(ctr: nat, t: nat) {
    And(ctr, Pow2(t)) != 0
  }

  lemma LineField(ctr: nat, shift: nat, four: nat)
    requires four == 4
    ensures And(Shr(ctr, shift), 0xF) == ctr / Pow2(shift) % 16
  {
    assert Pow2(four) == 16;
    ShrIsDiv(ctr, shift);
    AndLowMask(ctr / Pow2(shift), four);
  }

  lemma FourShifted(d: nat, two: nat)
    requires two == 2
    ensures Shl(4, d) == Pow2(two + d)
  {
    ShlIsMul(4, d);
    Pow2Add(two, d);
  }

  /** Bits 19 to 16 give the line's size: a power of two from 4 bytes to 128 KiB. */
  lemma DecodesLineSize(ctr: nat)
    ensures FromCtrEl0(ctr).dcacheLineBytes == Pow2(2 + ctr / Pow2(DMINLINE_SHIFT) % 16)
    ensures 4 <= FromCtrEl0(ctr).dcacheLineBytes <= 0x2_0000
  {
    var d := ctr / Pow2(DMINLINE_SHIFT) % 16;
    LineField(ctr, DMINLINE_SHIFT, 4);
    FourShifted(d, 2);
    LineSizes(d);
  }

  /** The coherence flags are bits 28 and 29. */
  lemma DecodesFlags(ctr: nat)
    ensures FromCtrEl0(ctr).idc == Bit(ctr, IDC_BIT) && FromCtrEl0(ctr).dic == Bit(ctr, DIC_BIT)
  {
    AndSingleBit(ctr, IDC_BIT);
    AndSingleBit(ctr, DIC_BIT);
  }

  lemma LineSizes(d: nat)
    requires d < 16
    ensures 4 <= Pow2(2 + d) <= 0x2_0000
  {
    var two, top := 2, 17;
    Pow2Monotone(two, 2 + d);
    Pow2Monotone(2 + d, top);
    SeventeenBits(top);
    assert Pow2(two) == 4;
  }

  lemma SeventeenBits(n: nat)
    requires n == 17
    ensures Pow2(n) == 0x2_0000
  {
    Pow2Add(8, 9);
  }

  // One address per line -----------------------------------------------------------------

  /** The start of the next line, unless it lies beyond the last address. */
  function NextLine(addr: nat, k: nat, width: nat): (next: nat)
    requires addr < Pow2(width) && k <= width
  {
    Pow2Monotone(k, width);
    And(addr, Not(Pow2(k) - 1, width)) + Pow2(k)
  }

  lemma NextMultiple(addr: nat, p: nat)
    requires p > 0
    ensures addr - addr % p + p == (addr / p + 1) * p > addr
    ensures (addr / p + 1) * p / p == addr / p + 1
  {
    var q := addr / p;
    assert (q + 1) * p == q * p + p;
    DivModUnique((q + 1) * p, p, q + 1, 0);
  }

  lemma NextLineIs(addr: nat, k: nat, width: nat)
    requires addr < Pow2(width) && k <= width
    ensures NextLine(addr, k, width) == (addr / Pow2(k) + 1) * Pow2(k) > addr
    ensures NextLine(addr, k, width) / Pow2(k) == addr / Pow2(k) + 1
  {
    AndNotLowMask(addr, k, width);
    NextMultiple(addr, Pow2(k));
  }

  /** The addresses after one of them: stop at the end of the range, or of the address space. */
  function From(addr: nat, end: nat, k: nat, width: nat): (a: seq<nat>)
    requires addr < end < Pow2(width) && k <= width
    ensures a != [] && a[0] == addr
    decreases end - addr
  {
    NextLineIs(addr, k, width);
    var next := NextLine(addr, k, width);
    [addr] + if next < Pow2(width) && next < end then From(next, end, k, width) else []
  }

  function LineAddresses(start: nat, end: nat, k: nat, width: nat): seq<nat>
    requires start < Pow2(width) && end < Pow2(width) && k <= width
  {
    if start < end then From(start, end, k, width) else []
  }

  /** The i-th address lies in the i-th line from the start's, and the last in the line of the range's last byte. */
  lemma {:induction false} FromLines(addr: nat, end: nat, k: nat, width: nat, i: nat)
    requires addr < end < Pow2(width) && k <= width && i < |From(addr, end, k, width)|
    ensures var a := From(addr, end, k, width);
      && |a| == (end - 1) / Pow2(k) - addr / Pow2(k) + 1
      && a[i] / Pow2(k) == addr / Pow2(k) + i
      && addr <= a[i] < end && (i > 0 ==> a[i] == (addr / Pow2(k) + i) * Pow2(k))
    decreases end - addr
  {
    var p := Pow2(k);
    var next := NextLine(addr, k, width);
    NextLineIs(addr, k, width);
    if next < end {
      FromLines(next, end, k, width, if i > 0 then i - 1 else 0);
    } else {
      SameLine(addr, end - 1, p);
    }
  }

  lemma SameLine(a: nat, b: nat, p: nat)
    requires p > 0 && a <= b < (a / p + 1) * p
    ensures a / p == b / p
  {
    var q := a / p;
    assert (q + 1) * p == q * p + p;
    DivModUnique(b, p, q, b - q * p);
  }

  /** The addresses run through consecutive lines. */
  predicate Consecutive(a: seq<nat>, first: int, p: nat)
    requires p > 0
  {
    forall i :: 0 <= i < |a| ==> a[i] / p == first + i
  }

  lemma LinesConsecutive(start: nat, end: nat, k: nat, width: nat, p: nat, a: seq<nat>)
    requires start < end < Pow2(width) && k <= width && p == Pow2(k) && a == From(start, end, k, width)
    ensures |a| == (end - 1) / p - start / p + 1 && Consecutive(a, start / p, p)
    ensures forall i :: 0 <= i < |a| ==> start <= a[i] < end
  {
    forall i | 0 <= i < |a| ensures a[i] / p == start / p + i && start <= a[i] < end {
      FromLines(start, end, k, width, i);
    }
    FromLines(start, end, k, width, 0);
  }

  lemma ConsecutiveRises(a: seq<nat>, first: int, p: nat)
    requires p > 0 && Consecutive(a, first, p)
    ensures forall i, j :: 0 <= i < j < |a| ==> a[i] < a[j] && a[i] / p != a[j] / p
  {
    forall i, j | 0 <= i < j < |a| ensures a[i] < a[j] && a[i] / p != a[j] / p {
      if a[j] <= a[i] {
        DivMonotone(a[j], a[i], p);
      }
    }
  }

  lemma ConsecutiveCovers(a: seq<nat>, start: nat, end: nat, p: nat, x: nat)
    requires p > 0 && start <= x < end && Consecutive(a, start / p, p) && |a| == (end - 1) / p - start / p + 1
    ensures exists i :: 0 <= i < |a| && a[i] / p == x / p
  {
    DivMonotone(start, x, p);
    DivMonotone(x, end - 1, p);
    var i := x / p - start / p;
    assert a[i] / p == start / p + i;
  }

  /** Rising addresses of the range, from its start, one in each line of p bytes that overlaps it. */
  ghost predicate OneInEachLine(a: seq<nat>, start: nat, end: nat, p: nat)
    requires p > 0
  {
    && (forall i :: 0 <= i < |a| ==> start <= a[i] < end)
    && (forall i, j :: 0 <= i < j < |a| ==> a[i] < a[j] && a[i] / p != a[j] / p)
    && (forall x: nat :: start <= x < end ==> exists i :: 0 <= i < |a| && a[i] / p == x / p)
    && (start < end ==> a != [] && a[0] == start)
  }

  lemma ConsecutiveSuffices(a: seq<nat>, start: nat, end: nat, p: nat)
    requires p > 0 && start < end && a != [] && a[0] == start
    requires Consecutive(a, start / p, p) && |a| == (end - 1) / p - start / p + 1
    requires forall i :: 0 <= i < |a| ==> start <= a[i] < end
    ensures OneInEachLine(a, start, end, p)
  {
    ConsecutiveRises(a, start / p, p);
    forall x: nat | start <= x < end ensures exists i :: 0 <= i < |a| && a[i] / p == x / p {
      ConsecutiveCovers(a, start, end, p, x);
    }
  }

  /**
    For every line size and every range, up to the top of the address space, each
    overlapping line gets its one address.
   */
  lemma OnePerLine(start: nat, end: nat, k: nat, width: nat)
    requires start < Pow2(width) && end < Pow2(width) && k <= width
    ensures OneInEachLine(LineAddresses(start, end, k, width), start, end, Pow2(k))
  {
    if start < end {
      var a := From(start, end, k, width);
      LinesConsecutive(start, end, k, width, Pow2(k), a);
      ConsecutiveSuffices(a, start, end, Pow2(k));
    }
  }

  /** The base-2 logarithm of the line size that a register value announces. */
  function LineShift(ctr: nat): nat {
    2 + And(Shr(ctr, DMINLINE_SHIFT), DMINLINE_MASK)
  }

  lemma LineShiftIs(ctr: nat)
    ensures LineShift(ctr) <= 17 && FromCtrEl0(ctr).dcacheLineBytes == Pow2(LineShift(ctr))
  {
    LineField(ctr, DMINLINE_SHIFT, 4);
    FourShifted(And(Shr(ctr, DMINLINE_SHIFT), 0xF), 2);
  }

  /** Every register value gives a line size for which each line of every range gets its one address. */
  lemma EveryRegisterValue(ctr: nat, k: nat, start: nat, end: nat, width: nat)
    requires start < Pow2(width) && end < Pow2(width) && width >= 17 && k == LineShift(ctr)
    ensures k <= width && Pow2(k) == FromCtrEl0(ctr).dcacheLineBytes
    ensures OneInEachLine(LineAddresses(start, end, k, width), start, end, Pow2(k))
  {
    LineShiftIs(ctr);
    OnePerLine(start, end, k, width);
  }

  lemma DivMonotone(a: nat, b: nat, p: nat)
    requires p > 0 && a <= b
    ensures a / p <= b / p
  {
    var q, r := a / p, b / p;
    if q > r {
      MulAtLeast(q - r, p);
    }
  }
}
