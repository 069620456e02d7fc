/**
  The tripwire counter keys. A key is its position in print order (Key::ALL);
  the tables give the name it prints and how many values it has.
 */
module TripwireKeys {

  const MAX_CPUS: nat := 8
  const KEY_COUNT: nat := 61

  type Key = k: nat | k < KEY_COUNT

  function Pick(a: string, b: string, c: string, d: string, i: nat): string {
    if i == 0 then a else if i == 1 then b else if i == 2 then c else d
  }

  function Name(k: Key): string {
    var i := k % 4;
    match k / 4
    case 0 => Pick("tick", "irqsw", "irqsw0", "nest", i)
    case 1 => Pick("elrmm", "spsrmm", "n4", "insched", i)
    case 2 => Pick("rsthold", "tpidrbad", "xdir", "xrep", i)
    case 3 => Pick("xnever", "n1", "pcnull", "pcphys", i)
    case 4 => Pick("pcother", "spbad", "latereply", "misrep", i)
    case 5 => Pick("ctbusy", "badtid", "n2", "ubrun", i)
    case 6 => Pick("ubrbl", "ubdead", "ubnone", "ubmove", i)
    case 7 => Pick("lkph", "lkpho", "lkphrun", "lkoxp", i)
    case 8 => Pick("lkself", "lktry", "lktph", "lkstk", i)
    case 9 => Pick("scana", "skipa", "skipaself", "scanb", i)
    case 10 => Pick("skipb", "scanstall", "hbdefer", "orphan", i)
    case 11 => Pick("nowaker", "wakefl", "starved", "dupcur", i)
    case 12 => Pick("dupq", "qbad", "orphan_now", "nowaker_now", i)
    case 13 => Pick("wakefl_now", "scanhold1", "scanhold2", "lb", i)
    case 14 => Pick("enqfull", "badchan", "twc", "twn", i)
    case _ => "twmax"
  }

  datatype Width = Cpu | One | Source | Lock | Class | N2Kinds | Sites
  {
    /** Counter slots the key takes in each CPU row. */
    function Slots(): nat {
      match this
      case Cpu => 1
      case One => 1
      case Source => 15
      case Lock => 9
      case Class => 4
      case N2Kinds => 4
      case Sites => 3
    }

    /** Values the key prints for `ncpu` online CPUs. */
    function Values(ncpu: nat): nat {
      if Cpu? then ncpu else Slots()
    }
  }

  function WidthOf(k: Key): Width {
    if k < 10 then Cpu                     // tick .. tpidrbad
    else if k == 22 then N2Kinds           // n2
    else if 23 <= k < 28 then Source       // ubrun .. ubmove
    else if 28 <= k < 36 then Lock         // lkph .. lkstk
    else if k == 46 then Class             // starved
    else if k == 57 then Sites             // badchan
    else One
  }

  /** twc, twn and twmax are printed even when they are 0. */
  predicate AlwaysPrinted(k: Key) {
    58 <= k
  }

  // Names tell keys apart ---------------------------------------------------------

  predicate Clean(s: string) {
    |s| > 1 && ' ' !in s && '\t' !in s && '=' !in s && '\n' !in s
  }

  /** A number that is different for every name on a line. */
  function Hash(s: string): int
    requires |s| > 1
  {
    14 * |s| + 7 * (s[0] as int) + 58 * (s[1] as int) + 32 * (s[|s| - 1] as int)
        + 2 * (s[if |s| > 2 then 2 else 0] as int)
  }

  /** The key with a hash, or -1. */
  function KeyOfHash(h: int): int {
    if h <= 8435 then (if h == 5428 then 13 else if h == 5518 then 22 else if h == 5698 then 6
        else if h == 8435 then 53 else -1) else
    if h <= 9820 then (if h == 8467 then 54 else if h == 9193 then 2 else if h == 9796 then 21
        else if h == 9820 then 55 else -1) else
    if h <= 9987 then (if h == 9915 then 36 else if h == 9925 then 49 else if h == 9947 then 39
        else if h == 9987 then 25 else -1) else
    if h <= 10213 then (if h == 10037 then 27 else if h == 10039 then 26 else if h == 10130 then 57
        else if h == 10213 then 45 else -1) else
    if h <= 10323 then (if h == 10257 then 24 else if h == 10286 then 14 else if h == 10321 then 23
        else if h == 10323 then 41 else -1) else
    if h <= 10494 then (if h == 10358 then 42 else if h == 10395 then 37 else if h == 10427 then 40
        else if h == 10494 then 16 else -1) else
    if h <= 10570 then (if h == 10514 then 15 else if h == 10540 then 32 else if h == 10554 then 10
        else if h == 10570 then 28 else -1) else
    if h <= 10612 then (if h == 10580 then 0 else if h == 10592 then 34 else if h == 10611 then 38
        else if h == 10612 then 18 else -1) else
    if h <= 10686 then (if h == 10621 then 52 else if h == 10626 then 3 else if h == 10643 then 7
        else if h == 10686 then 35 else -1) else
    if h <= 10804 then (if h == 10751 then 19 else if h == 10757 then 4 else if h == 10767 then 17
        else if h == 10804 then 30 else -1) else
    if h <= 10867 then (if h == 10808 then 29 else if h == 10830 then 9 else if h == 10838 then 31
        else if h == 10867 then 56 else -1) else
    if h <= 11122 then (if h == 10998 then 8 else if h == 11025 then 46 else if h == 11103 then 5
        else if h == 11122 then 58 else -1) else
    if h <= 11217 then (if h == 11136 then 33 else if h == 11154 then 12 else if h == 11192 then 44
        else if h == 11217 then 43 else -1) else
    if h <= 11442 then (if h == 11294 then 11 else if h == 11382 then 48 else if h == 11408 then 51
        else if h == 11442 then 47 else -1) else
    if h <= 11573 then (if h == 11451 then 1 else if h == 11496 then 59 else if h == 11561 then 50
        else if h == 11573 then 20 else -1) else
    if h == 11842 then 60 else -1
  }

  predicate NamesKey(s: string, k: int) {
    Clean(s) && KeyOfHash(Hash(s)) == k
  }

  lemma Row0(i: nat)
    requires i < 4
    ensures NamesKey(Pick("tick", "irqsw", "irqsw0", "nest", i), 0 + i)
  {
    assert Hash("tick") == 10580;
    assert Hash("irqsw") == 11451;
    assert Hash("irqsw0") == 9193;
    assert Hash("nest") == 10626;
  }

  lemma Row1(i: nat)
    requires i < 4
    ensures NamesKey(Pick("elrmm", "spsrmm", "n4", "insched", i), 4 + i)
  {
    assert Hash("elrmm") == 10757;
    assert Hash("spsrmm") == 11103;
    assert Hash("n4") == 5698;
    assert Hash("insched") == 10643;
  }

  lemma Row2(i: nat)
    requires i < 4
    ensures NamesKey(Pick("rsthold", "tpidrbad", "xdir", "xrep", i), 8 + i)
  {
    assert Hash("rsthold") == 10998;
    assert Hash("tpidrbad") == 10830;
    assert Hash("xdir") == 10554;
    assert Hash("xrep") == 11294;
  }

  lemma Row3(i: nat)
    requires i < 4
    ensures NamesKey(Pick("xnever", "n1", "pcnull", "pcphys", i), 12 + i)
  {
    assert Hash("xnever") == 11154;
    assert Hash("n1") == 5428;
    assert Hash("pcnull") == 10286;
    assert Hash("pcphys") == 10514;
  }

  lemma Row4(i: nat)
    requires i < 4
    ensures NamesKey(Pick("pcother", "spbad", "latereply", "misrep", i), 16 + i)
  {
    assert Hash("pcother") == 10494;
    assert Hash("spbad") == 10767;
    assert Hash("latereply") == 10612;
    assert Hash("misrep") == 10751;
  }

  lemma Row5(i: nat)
    requires i < 4
    ensures NamesKey(Pick("ctbusy", "badtid", "n2", "ubrun", i), 20 + i)
  {
    assert Hash("ctbusy") == 11573;
    assert Hash("badtid") == 9796;
    assert Hash("n2") == 5518;
    assert Hash("ubrun") == 10321;
  }

  lemma Row6(i: nat)
    requires i < 4
    ensures NamesKey(Pick("ubrbl", "ubdead", "ubnone", "ubmove", i), 24 + i)
  {
    assert Hash("ubrbl") == 10257;
    assert Hash("ubdead") == 9987;
    assert Hash("ubnone") == 10039;
    assert Hash("ubmove") == 10037;
  }

  lemma Row7(i: nat)
    requires i < 4
    ensures NamesKey(Pick("lkph", "lkpho", "lkphrun", "lkoxp", i), 28 + i)
  {
    assert Hash("lkph") == 10570;
    assert Hash("lkpho") == 10808;
    assert Hash("lkphrun") == 10804;
    assert Hash("lkoxp") == 10838;
  }

  lemma Row8(i: nat)
    requires i < 4
    ensures NamesKey(Pick("lkself", "lktry", "lktph", "lkstk", i), 32 + i)
  {
    assert Hash("lkself") == 10540;
    assert Hash("lktry") == 11136;
    assert Hash("lktph") == 10592;
    assert Hash("lkstk") == 10686;
  }

  lemma Row9(i: nat)
    requires i < 4
    ensures NamesKey(Pick("scana", "skipa", "skipaself", "scanb", i), 36 + i)
  {
    assert Hash("scana") == 9915;
    assert Hash("skipa") == 10395;
    assert Hash("skipaself") == 10611;
    assert Hash("scanb") == 9947;
  }

  lemma Row10(i: nat)
    requires i < 4
    ensures NamesKey(Pick("skipb", "scanstall", "hbdefer", "orphan", i), 40 + i)
  {
    assert Hash("skipb") == 10427;
    assert Hash("scanstall") == 10323;
    assert Hash("hbdefer") == 10358;
    assert Hash("orphan") == 11217;
  }

  lemma Row11(i: nat)
    requires i < 4
    ensures NamesKey(Pick("nowaker", "wakefl", "starved", "dupcur", i), 44 + i)
  {
    assert Hash("nowaker") == 11192;
    assert Hash("wakefl") == 10213;
    assert Hash("starved") == 11025;
    assert Hash("dupcur") == 11442;
  }

  lemma Row12(i: nat)
    requires i < 4
    ensures NamesKey(Pick("dupq", "qbad", "orphan_now", "nowaker_now", i), 48 + i)
  {
    assert Hash("dupq") == 11382;
    assert Hash("qbad") == 9925;
    assert Hash("orphan_now") == 11561;
    assert Hash("nowaker_now") == 11408;
  }

  lemma Row13(i: nat)
    requires i < 4
    ensures NamesKey(Pick("wakefl_now", "scanhold1", "scanhold2", "lb", i), 52 + i)
  {
    assert Hash("wakefl_now") == 10621;
    assert Hash("scanhold1") == 8435;
    assert Hash("scanhold2") == 8467;
    assert Hash("lb") == 9820;
  }

  lemma Row14(i: nat)
    requires i < 4
    ensures NamesKey(Pick("enqfull", "badchan", "twc", "twn", i), 56 + i)
  {
    assert Hash("enqfull") == 10867;
    assert Hash("badchan") == 10130;
    assert Hash("twc") == 11122;
    assert Hash("twn") == 11496;
  }

  lemma NameFacts(k: Key)
    ensures NamesKey(Name(k), k)
  {
    match k / 4
    case 0 => Row0(k % 4);
    case 1 => Row1(k % 4);
    case 2 => Row2(k % 4);
    case 3 => Row3(k % 4);
    case 4 => Row4(k % 4);
    case 5 => Row5(k % 4);
    case 6 => Row6(k % 4);
    case 7 => Row7(k % 4);
    case 8 => Row8(k % 4);
    case 9 => Row9(k % 4);
    case 10 => Row10(k % 4);
    case 11 => Row11(k % 4);
    case 12 => Row12(k % 4);
    case 13 => Row13(k % 4);
    case 14 => Row14(k % 4);
    case _ => assert Hash("twmax") == 11842;
  }

  /** Distinct keys print distinct names, so a parser can tell them apart. */
  lemma NamesAreDistinct(a: Key, b: Key)
    requires Name(a) == Name(b)
    ensures a == b
  {
    NameFacts(a);
    NameFacts(b);
  }
}
