/**
  The owner stamp in a held lock word, and what a contended acquirer learns
  from it.

      bit 63 HELD | bit 62 IRQS_ON | bits 54..=61 cpu | bits 0..=53 generation

  Stamps are modelled twice: as the 64-bit word the lock stores, built and read
  with the bit operations of module Bits, and as a Stamp with a generation that
  never wraps, which is what the protocol argument is about.
 */
module OwnerStamp {
  import opened Basics
  import opened Bits

  const P54: nat := 0x40_0000_0000_0000  // 1 << CPU_SHIFT
  const HELD: nat := 512 * P54
  const IRQS_ON: nat := 256 * P54
  const CPU_MASK: nat := 0xFF * P54
  const GEN_MASK: nat := P54 - 1

  // The word codec -----------------------------------------------------------

  function New(cpu: nat, gen: nat, irqsOn: bool): nat
    requires cpu < 256
  {
    var irqs := if irqsOn then IRQS_ON else 0;
    Or(Or(Or(HELD, irqs), cpu * P54), And(gen, GEN_MASK))
  }

  function FromWord(word: nat): Option<nat> {
    if And(word, HELD) == 0 then None else Some(word)
  }

  function Cpu(stamp: nat): nat {
    And(stamp, CPU_MASK) / P54
  }

  function Gen(stamp: nat): nat {
    And(stamp, GEN_MASK)
  }

  predicate IrqsOn(stamp: nat) {
    And(stamp, IRQS_ON) != 0
  }

  predicate GenMatches(stamp: nat, gen: nat) {
    Gen(stamp) == And(gen, GEN_MASK)
  }

  // Reading fields out of a word ----------------------------------------------

  lemma Powers()
    ensures Pow2(8) == 256
    ensures Pow2(54) == P54 && Pow2(62) == IRQS_ON && Pow2(63) == HELD && Pow2(64) == 1024 * P54
  {
    assert Pow2(8) == 256;
    assert Pow2(18) == 0x4_0000;
    Pow2Add(18, 18);
    Pow2Add(18, 36);
    Pow2Add(8, 54);
  }

  /** The word New builds, as a number: the four fields side by side. */
  lemma NewIsSum(cpu: nat, gen: nat, irqsOn: bool)
    requires cpu < 256
    ensures New(cpu, gen, irqsOn) == (512 + (if irqsOn then 256 else 0) + cpu) * P54 + gen % P54
  {
    var irqs := if irqsOn then IRQS_ON else 0;
    var top := if irqsOn then 3 else 2;
    OrFlags(irqs);
    OrCpu(top, cpu);
    OrGen(256 * top + cpu, gen);
  }

  lemma OrFlags(irqs: nat)
    requires irqs == IRQS_ON || irqs == 0
    ensures Or(HELD, irqs) == HELD + irqs
  {
    Powers();
    OrSum(HELD, 1, 63, irqs);
  }

  lemma OrCpu(top: nat, cpu: nat)
    requires cpu < 256
    ensures Or(top * IRQS_ON, cpu * P54) == (256 * top + cpu) * P54
  {
    Powers();
    OrSum(top * IRQS_ON, top, 62, cpu * P54);
  }

  lemma OrGen(fields: nat, gen: nat)
    ensures Or(fields * P54, And(gen, GEN_MASK)) == fields * P54 + gen % P54
  {
    Powers();
    AndLowMask(gen, 54);
    OrSum(fields * P54, fields, 54, gen % P54);
  }

  lemma OrSum(x: nat, a: nat, k: nat, b: nat)
    requires x == a * Pow2(k) && b < Pow2(k)
    ensures Or(x, b) == x + b
  {
    OrDisjoint(a, k, b);
  }

  /** The fields of a word, as digits of the number. */
  lemma FieldsAreDigits(w: nat)
    ensures FromWord(w).Some? <==> (w / HELD) % 2 == 1
    ensures IrqsOn(w) <==> (w / IRQS_ON) % 2 == 1
    ensures Cpu(w) == (w / P54) % 256
    ensures Gen(w) == w % P54
  {
    Powers();
    ShrIsDiv(w, 63); AndSingleBit(w, 63); BitIsDigit(w, 63);
    ShrIsDiv(w, 62); AndSingleBit(w, 62); BitIsDigit(w, 62);
    AndLowMask(w, 54);
    var field := And(Shr(w, 54), 255);
    ShrIsDiv(w, 54); AndShifted(w, 255, 54); AndLowMask(Shr(w, 54), 8);
    ShlIsMul(255, 54); ShlIsMul(field, 54);
  }

  /** Digits of a number given as two fields around bit 54. */
  lemma SplitAt54(w: nat, top: nat, low: nat)
    requires w == top * P54 + low && low < P54 && top < 1024
    ensures w / P54 == top && w % P54 == low
    ensures (w / HELD) % 2 == top / 512
    ensures (w / IRQS_ON) % 2 == (top / 256) % 2
  {
  }

  lemma DecodeSum(w: nat, cpu: nat, irqsOn: bool, low: nat)
    requires cpu < 256 && low < P54
    requires w == (512 + (if irqsOn then 256 else 0) + cpu) * P54 + low
    ensures FromWord(w).Some? && Cpu(w) == cpu && Gen(w) == low && IrqsOn(w) == irqsOn
  {
    var top := 512 + (if irqsOn then 256 else 0) + cpu;
    SplitAt54(w, top, low);
    FieldsAreDigits(w);
  }

  /**
    Decoding inverts encoding for every CPU, every u64 generation and both IRQ
    states; only the generation loses anything, its bits above the low 54.
   */
  lemma StampRoundTrip(cpu: nat, gen: nat, irqsOn: bool)
    requires cpu < 256
    ensures New(cpu, gen, irqsOn) < Pow2(64)
    ensures FromWord(New(cpu, gen, irqsOn)) == Some(New(cpu, gen, irqsOn))
    ensures Cpu(New(cpu, gen, irqsOn)) == cpu
    ensures Gen(New(cpu, gen, irqsOn)) == gen % P54
    ensures IrqsOn(New(cpu, gen, irqsOn)) == irqsOn
  {
    Powers();
    NewIsSum(cpu, gen, irqsOn);
    DecodeSum(New(cpu, gen, irqsOn), cpu, irqsOn, gen % P54);
  }

  /** Encoding inverts decoding: every held 64-bit word is the stamp of its own fields. */
  lemma WordRoundTrip(word: nat)
    requires word < Pow2(64)
    ensures FromWord(word).Some? <==> HELD <= word
    ensures Cpu(word) < 256
    ensures FromWord(word).Some? ==> New(Cpu(word), Gen(word), IrqsOn(word)) == word
  {
    Powers();
    FieldsAreDigits(word);
    var top := word / P54;
    SplitAt54(word, top, word % P54);
    TopDigits(top);
    if FromWord(word).Some? {
      NewIsSum(Cpu(word), Gen(word), IrqsOn(word));
      Small(Gen(word), P54);
    }
  }

  lemma TopDigits(top: nat)
    requires top < 1024
    ensures top == 512 * (top / 512) + 256 * ((top / 256) % 2) + top % 256
    ensures top / 512 <= 1
  {
  }

  // Contention ----------------------------------------------------------------

  datatype Contention = Free | OtherCpu | OtherCpuSwitched | Reentry | PreemptedHolder

  /** classify: `switchGen` is the SWITCH_GEN array at the read after `observed` was loaded. */
  function Classify(observed: nat, me: nat, switchGen: nat -> nat): Contention {
    match FromWord(observed)
    case None => Free
    case Some(owner) =>
      var ownerCpu := Cpu(owner);
      var now := switchGen(ownerCpu);
      var ownerCurrent := GenMatches(owner, now);
      if ownerCpu == Cpu(me) && GenMatches(me, now) then
        if ownerCurrent then Reentry else PreemptedHolder
      else if ownerCurrent then OtherCpu
      else OtherCpuSwitched
  }

  /** A stamp whose generation does not wrap. */
  datatype Stamp = Stamp(cpu: nat, gen: nat)

  /** classify on stamps; `now` is the generation of the owner's CPU. */
  function Judge(owner: Stamp, me: Stamp, now: nat): Contention {
    if owner.cpu == me.cpu && me.gen == now then
      if owner.gen == now then Reentry else PreemptedHolder
    else if owner.gen == now then OtherCpu
    else OtherCpuSwitched
  }

  function WordOf(s: Stamp, irqsOn: bool): nat
    requires s.cpu < 256
  {
    New(s.cpu, s.gen, irqsOn)
  }

  /** Two generations less than 2^54 apart are told apart by their low 54 bits. */
  lemma NearGenerationsDiffer(g: nat, now: nat)
    requires g <= now < g + P54
    ensures g % P54 == now % P54 <==> g == now
  {
    var e := now / P54 - g / P54;
    assert now - g == e * P54 + now % P54 - g % P54;
    if e != 0 { MultipleIsFar(e, P54); }
  }

  lemma StampMatches(s: Stamp, irqsOn: bool, now: nat)
    requires s.cpu < 256
    ensures FromWord(WordOf(s, irqsOn)).Some? && Cpu(WordOf(s, irqsOn)) == s.cpu
    ensures GenMatches(WordOf(s, irqsOn), now) <==> s.gen % P54 == now % P54
  {
    StampRoundTrip(s.cpu, s.gen, irqsOn);
    Powers();
    AndLowMask(now, 54);
  }

  function Low54(s: Stamp): Stamp {
    Stamp(s.cpu, s.gen % P54)
  }

  /** The exact table on words: classify is the verdict of the generations modulo 2^54, whatever the IRQ bits. */
  lemma ClassifyExactly(owner: Stamp, me: Stamp, ownerIrqs: bool, meIrqs: bool, switchGen: nat -> nat)
    requires owner.cpu < 256 && me.cpu < 256
    ensures Classify(WordOf(owner, ownerIrqs), WordOf(me, meIrqs), switchGen)
         == Judge(Low54(owner), Low54(me), switchGen(owner.cpu) % P54)
  {
    StampMatches(owner, ownerIrqs, switchGen(owner.cpu));
    StampMatches(me, meIrqs, switchGen(owner.cpu));
  }

  /**
    On 64-bit words classify gives the verdict of the unbounded generations,
    whatever the IRQ bits, as long as neither compared stamp is 2^54 or more
    dispatches old.
   */
  lemma ClassifyRefinesJudge(owner: Stamp, me: Stamp, ownerIrqs: bool, meIrqs: bool, switchGen: nat -> nat)
    requires owner.cpu < 256 && me.cpu < 256
    requires owner.gen <= switchGen(owner.cpu) < owner.gen + P54
    requires me.cpu == owner.cpu ==> me.gen <= switchGen(owner.cpu) < me.gen + P54
    ensures Classify(WordOf(owner, ownerIrqs), WordOf(me, meIrqs), switchGen)
         == Judge(owner, me, switchGen(owner.cpu))
  {
    var now := switchGen(owner.cpu);
    ClassifyExactly(owner, me, ownerIrqs, meIrqs, switchGen);
    NearGenerationsDiffer(owner.gen, now);
    if me.cpu == owner.cpu {
      NearGenerationsDiffer(me.gen, now);
    }
  }

  /** The bound is sharp: a holder 2^54 dispatches old is taken for the waiter's own stream. */
  lemma WrappedGenerationForgesReentry(cpu: nat, gen: nat)
    requires cpu < 256
    ensures var owner, me, gens := Stamp(cpu, gen), Stamp(cpu, gen + P54), (c: nat) => gen + P54;
            && Judge(owner, me, gens(cpu)) == PreemptedHolder
            && Classify(WordOf(owner, true), WordOf(me, true), gens) == Reentry
  {
    ClassifyExactly(Stamp(cpu, gen), Stamp(cpu, gen + P54), true, true, (c: nat) => gen + P54);
    DivModUnique(gen + P54, P54, gen / P54 + 1, gen % P54);
  }
}
