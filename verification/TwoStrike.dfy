/**
  Two-strike confirmation with its tick gate, and the edge counter behind the
  event and gauge keys.

  A scan reads LAST_RUN once per flagged thread, and each online CPU's tick
  twice: for the gate before anything is recorded, and for the record after it.
  The two reads are the `gate` and `save` sequences of a ScanReads.
 */
module Strikes {
  import opened Basics
  import opened Bits
  import opened Masks

  const STRIKE_TICK_ADVANCE: nat := 100

  function WrappingSub(x: nat, y: nat): nat {
    (x - y + U64) % U64
  }

  /** What one scan reads: the flagged threads, LAST_RUN, and the ticks of every CPU at the gate and at the record. */
  datatype ScanReads = ScanReads(flagged: set<nat>, lastRun: seq<nat>, gate: seq<nat>, save: seq<nat>)

  /** A TwoStrike's history, and one scan's result. */
  datatype History = History(armed: set<nat>, lastRun: seq<nat>, ticks: seq<nat>)

  datatype StrikeResult = StrikeResult(confirmed: set<nat>, stalled: bool)

  predicate GateOpen(ticks: seq<nat>, gate: seq<nat>, online: nat)
    requires online <= |ticks| && online <= |gate|
  {
    forall c :: 0 <= c < online ==> gate[c] == 0 || WrappingSub(gate[c], ticks[c]) >= STRIKE_TICK_ADVANCE
  }

  predicate FitsScan(h: History, scan: ScanReads, online: nat) {
    && |h.lastRun| == |scan.lastRun| == MASK_TIDS
    && online <= |h.ticks| == |scan.gate| == |scan.save|
    && (forall t :: t in scan.flagged ==> t < MASK_TIDS)
  }

  function ResultOf(h: History, scan: ScanReads, online: nat): StrikeResult
    requires FitsScan(h, scan, online)
  {
    var candidates := scan.flagged * h.armed;
    if candidates != {} && !GateOpen(h.ticks, scan.gate, online) then StrikeResult({}, true)
    else StrikeResult(set t | t in candidates && h.lastRun[t] == scan.lastRun[t], false)
  }

  function HistoryAfter(h: History, scan: ScanReads, online: nat): History
    requires FitsScan(h, scan, online)
  {
    if ResultOf(h, scan, online).stalled then h
    else History(scan.flagged,
                 seq(MASK_TIDS, t requires 0 <= t < MASK_TIDS => if t in scan.flagged then scan.lastRun[t]
                     else h.lastRun[t]),
                 seq(|h.ticks|, c requires 0 <= c < |h.ticks| => if c < online then scan.save[c] else h.ticks[c]))
  }

  /** What a scan that is not withheld leaves behind, element by element. */
  lemma CompletedScan(h: History, scan: ScanReads, online: nat, h': History)
    requires FitsScan(h, scan, online)
    requires scan.flagged * h.armed != {} ==> GateOpen(h.ticks, scan.gate, online)
    requires h'.armed == scan.flagged && |h'.lastRun| == |h.lastRun| && |h'.ticks| == |h.ticks|
    requires forall t ::
      0 <= t < MASK_TIDS ==> h'.lastRun[t] == if t in scan.flagged then scan.lastRun[t] else h.lastRun[t]
    requires forall c :: 0 <= c < |h.ticks| ==> h'.ticks[c] == if c < online then scan.save[c] else h.ticks[c]
    ensures h' == HistoryAfter(h, scan, online)
  {
    var next := HistoryAfter(h, scan, online);
    assert h'.lastRun == next.lastRun;
    assert h'.ticks == next.ticks;
  }

  // The class -----------------------------------------------------------------------

  /** The atomics of one scan kind. Only CPU 0's scan uses an instance. */
  class TwoStrike {
    var armed: Mask
    const lastRun: array<nat>
    const ticks: array<nat>

    ghost predicate Valid()
      reads this
    {
      lastRun.Length == MASK_TIDS && lastRun != ticks
    }

    ghost function Hist(): History
      reads this, lastRun, ticks
    {
      History(Tids(armed), lastRun[..], ticks[..])
    }

    constructor (cpus: nat)
      ensures Valid() && fresh(lastRun) && fresh(ticks)
      ensures Hist() == History({}, seq(MASK_TIDS, _ => 0), seq(cpus, _ => 0))
    {
      armed := 0;
      lastRun := new nat[MASK_TIDS](_ => 0);
      ticks := new nat[cpus](_ => 0);
      new;
      EmptyMask(0);
      assert lastRun[..] == seq(MASK_TIDS, _ => 0);
      assert ticks[..] == seq(cpus, _ => 0);
    }

    /** The gate: false when some online CPU that ticks has not advanced enough. */
    method CheckGate(online: nat, gate: seq<nat>) returns (open: bool)
      requires Valid() && online <= ticks.Length <= |gate|
      ensures open == GateOpen(ticks[..], gate, online)
    {
      var cpu := 0;
      while cpu < online
        invariant 0 <= cpu <= online && GateOpen(ticks[..], gate, cpu)
      {
        if gate[cpu] != 0 && WrappingSub(gate[cpu], ticks[cpu]) < STRIKE_TICK_ADVANCE {
          return false;
        }
        cpu := cpu + 1;
      }
      open := true;
    }

    /** Second strikes, and whether the gate withholds them. */
    method Candidates(flagged: Mask, online: nat, gate: seq<nat>) returns (candidates: Mask, stalled: bool)
      requires Valid() && online <= ticks.Length <= |gate|
      ensures Tids(candidates) == Tids(flagged) * Tids(armed)
      ensures stalled == (Tids(candidates) != {} && !GateOpen(ticks[..], gate, online))
    {
      AndIsIntersection(flagged, armed);
      candidates := And(flagged, armed);
      EmptyMask(candidates);
      stalled := false;
      if candidates != 0 {
        var open := CheckGate(online, gate);
        stalled := !open;
      }
    }

    method StrikeOne(t: nat, candidates: Mask, now: seq<nat>, before: Mask) returns (confirmed: Mask)
      requires Valid() && |now| == MASK_TIDS && t < MASK_TIDS
      modifies lastRun
      ensures Tids(confirmed) == Tids(before) + if t in Tids(candidates) && old(lastRun[t]) == now[t] then {t} else {}
      ensures forall u :: 0 <= u < MASK_TIDS ==> lastRun[u] == if u == t then now[t] else old(lastRun[u])
    {
      MaskTestIsMember(candidates, t);
      confirmed := before;
      if MaskTest(candidates, t) && lastRun[t] == now[t] {
        OrAddsTid(before, t);
        confirmed := Or(before, MaskBit(t).value);
      }
      lastRun[t] := now[t];
    }

    /** The strikes: compares and records LAST_RUN of every flagged thread. */
    method Strike(flagged: Mask, candidates: Mask, now: seq<nat>) returns (confirmed: Mask)
      requires Valid() && |now| == MASK_TIDS && Tids(candidates) <= Tids(flagged)
      modifies lastRun
      ensures Tids(confirmed) == set t | t in Tids(candidates) && old(lastRun[..])[t] == now[t]
      ensures forall t :: 0 <= t < MASK_TIDS ==> lastRun[t] == if t in Tids(flagged) then now[t] else old(lastRun[t])
    {
      confirmed := 0;
      EmptyMask(0);
      var rest := flagged;
      while rest != 0
        invariant Tids(rest) <= Tids(flagged)
        invariant Tids(confirmed) ==
          set t | t in Tids(candidates) && t !in Tids(rest) && old(lastRun[..])[t] == now[t]
        invariant forall t :: 0 <= t < MASK_TIDS ==>
          lastRun[t] == if t in Tids(flagged) && t !in Tids(rest) then now[t] else old(lastRun[t])
        decreases rest
      {
        var tid;
        tid, rest := PopLowest(rest);
        confirmed := StrikeOne(tid.value, candidates, now, confirmed);
      }
      EmptyMask(0);
    }

    method SaveTicks(online: nat, save: seq<nat>)
      requires Valid() && online <= ticks.Length == |save|
      modifies ticks
      ensures forall c :: 0 <= c < ticks.Length ==> ticks[c] == if c < online then save[c] else old(ticks[c])
    {
      var cpu := 0;
      while cpu < online
        invariant 0 <= cpu <= online
        invariant forall c :: 0 <= c < ticks.Length ==> ticks[c] == if c < cpu then save[c] else old(ticks[c])
      {
        ticks[cpu] := save[cpu];
        cpu := cpu + 1;
      }
    }

    /** TwoStrike::scan: `confirmed` and the new history are those of the specification. */
    method Scan(flagged: Mask, ncpu: nat, now: seq<nat>, gate: seq<nat>, save: seq<nat>)
      returns (confirmed: Mask, stalled: bool)
      requires Valid() && |now| == MASK_TIDS && |gate| == |save| == ticks.Length
      modifies this, lastRun, ticks
      ensures Valid()
      ensures var online := if ncpu < ticks.Length then ncpu else ticks.Length;
              var scan := ScanReads(Tids(flagged), now, gate, save);
              && FitsScan(old(Hist()), scan, online)
              && StrikeResult(Tids(confirmed), stalled) == ResultOf(old(Hist()), scan, online)
              && Hist() == HistoryAfter(old(Hist()), scan, online)
    {
      var online := if ncpu < ticks.Length then ncpu else ticks.Length;
      ghost var scan := ScanReads(Tids(flagged), now, gate, save);
      var candidates;
      candidates, stalled := Candidates(flagged, online, gate);
      if stalled {
        confirmed := 0;
        EmptyMask(0);
        return;
      }
      confirmed := Strike(flagged, candidates, now);
      armed := flagged;
      SaveTicks(online, save);
      CompletedScan(old(Hist()), scan, online, Hist());
    }
  }

  // Whole runs of scans -----------------------------------------------------------------

  /** A run of scans on `cpus` CPUs, `online` of them online, with ticks that never decrease. */
  predicate GoodRun(ins: seq<ScanReads>, cpus: nat, online: nat) {
    && online <= cpus
    && (forall k :: 0 <= k < |ins| ==> GoodReads(ins[k], cpus))
    && (forall j, k, c :: 0 <= j < k < |ins| && 0 <= c < online ==> ins[j].save[c] <= ins[k].gate[c])
  }

  predicate GoodReads(scan: ScanReads, cpus: nat) {
    && |scan.lastRun| == MASK_TIDS && |scan.gate| == |scan.save| == cpus
    && (forall t :: t in scan.flagged ==> t < MASK_TIDS)
    && (forall c :: 0 <= c < cpus ==> scan.gate[c] < U64)
  }

  const NO_RUNS: seq<nat> := seq(MASK_TIDS, _ => 0)

  /** The history after the first k scans. */
  function HistoryAt(ins: seq<ScanReads>, cpus: nat, online: nat, k: nat): (h: History)
    requires GoodRun(ins, cpus, online) && k <= |ins|
    ensures |h.lastRun| == MASK_TIDS && |h.ticks| == cpus
  {
    if k == 0 then History({}, NO_RUNS, seq(cpus, _ => 0))
    else
      assert GoodReads(ins[k - 1], cpus);
      HistoryAfter(HistoryAt(ins, cpus, online, k - 1), ins[k - 1], online)
  }

  function ResultAt(ins: seq<ScanReads>, cpus: nat, online: nat, k: nat): StrikeResult
    requires GoodRun(ins, cpus, online) && k < |ins|
  {
    assert GoodReads(ins[k], cpus);
    ResultOf(HistoryAt(ins, cpus, online, k), ins[k], online)
  }

  // The same run told without any state: which scans completed, and what each confirms.

  /** Between scans j and k every online CPU that ticks at all advanced by at least 100. */
  predicate Advanced(ins: seq<ScanReads>, cpus: nat, online: nat, j: nat, k: nat)
    requires GoodRun(ins, cpus, online) && j < k < |ins|
  {
    forall c :: 0 <= c < online ==>
      assert GoodReads(ins[k], cpus) && GoodReads(ins[j], cpus);
      ins[k].gate[c] == 0 || ins[k].gate[c] - ins[j].save[c] >= STRIKE_TICK_ADVANCE
  }

  /** Scan k stalls: it flags a thread again, and some CPU has not advanced since the last completed scan. */
  predicate Stalls(ins: seq<ScanReads>, cpus: nat, online: nat, k: nat)
    requires GoodRun(ins, cpus, online) && k < |ins|
    decreases k, 1
  {
    var last := LastCompleted(ins, cpus, online, k);
    last.Some? && ins[last.value].flagged * ins[k].flagged != {} && !Advanced(ins, cpus, online, last.value, k)
  }

  /** The last completed scan before scan k. */
  function LastCompleted(ins: seq<ScanReads>, cpus: nat, online: nat, k: nat): (last: Option<nat>)
    requires GoodRun(ins, cpus, online) && k <= |ins|
    ensures last.Some? ==> last.value < k
    decreases k, 0
  {
    if k == 0 then None
    else if !Stalls(ins, cpus, online, k - 1) then Some(k - 1)
    else LastCompleted(ins, cpus, online, k - 1)
  }

  /** Thread t is flagged by scan k and by the last completed scan, has not run in between, and the CPUs advanced. */
  predicate ConfirmedBy(ins: seq<ScanReads>, cpus: nat, online: nat, k: nat, t: nat)
    requires GoodRun(ins, cpus, online) && k < |ins|
  {
    var last := LastCompleted(ins, cpus, online, k);
    && last.Some? && t in ins[last.value].flagged && t in ins[k].flagged
    && (assert GoodReads(ins[k], cpus) && GoodReads(ins[last.value], cpus);
        ins[last.value].lastRun[t] == ins[k].lastRun[t])
    && Advanced(ins, cpus, online, last.value, k)
  }

  /** A history holds exactly what the last completed scan saw. */
  predicate Remembers(h: History, ins: seq<ScanReads>, cpus: nat, online: nat, k: nat)
    requires GoodRun(ins, cpus, online) && k <= |ins|
    requires |h.lastRun| == MASK_TIDS && |h.ticks| == cpus
  {
    match LastCompleted(ins, cpus, online, k)
    case None => h.armed == {}
    case Some(j) =>
      assert GoodReads(ins[j], cpus);
      && h.armed == ins[j].flagged
      && (forall t :: t in ins[j].flagged ==> h.lastRun[t] == ins[j].lastRun[t])
      && (forall c :: 0 <= c < online ==> h.ticks[c] == ins[j].save[c])
  }

  lemma GateIsAdvance(ins: seq<ScanReads>, cpus: nat, online: nat, j: nat, k: nat, ticks: seq<nat>)
    requires GoodRun(ins, cpus, online) && j < k < |ins| && |ticks| == cpus
    requires |ins[j].save| == |ins[k].gate| == cpus
    requires forall c :: 0 <= c < online ==> ticks[c] == ins[j].save[c]
    ensures GateOpen(ticks, ins[k].gate, online) <==> Advanced(ins, cpus, online, j, k)
  {
    forall c | 0 <= c < online ensures WrappingSub(ins[k].gate[c], ticks[c]) == ins[k].gate[c] - ins[j].save[c] {
      assert GoodReads(ins[k], cpus);
      var d := ins[k].gate[c] - ins[j].save[c];
      DivModUnique(d + U64, U64, 1, d);
    }
  }

  /** The result of a scan on a history that remembers the last completed scan. */
  lemma ResultFromMemory(h: History, ins: seq<ScanReads>, cpus: nat, online: nat, k: nat)
    requires GoodRun(ins, cpus, online) && k < |ins|
    requires |h.lastRun| == MASK_TIDS && |h.ticks| == cpus && Remembers(h, ins, cpus, online, k)
    ensures FitsScan(h, ins[k], online)
    ensures ResultOf(h, ins[k], online).stalled == Stalls(ins, cpus, online, k)
    ensures forall t :: t in ResultOf(h, ins[k], online).confirmed <==> ConfirmedBy(ins, cpus, online, k, t)
  {
    assert GoodReads(ins[k], cpus);
    match LastCompleted(ins, cpus, online, k)
    case None => assert ins[k].flagged * h.armed == {};
    case Some(j) =>
      assert GoodReads(ins[j], cpus);
      GateIsAdvance(ins, cpus, online, j, k, h.ticks);
      assert ins[k].flagged * h.armed == ins[j].flagged * ins[k].flagged;
      if Stalls(ins, cpus, online, k) {
        assert forall t :: !ConfirmedBy(ins, cpus, online, k, t);
      }
  }

  lemma {:induction false} HistoryRemembers(ins: seq<ScanReads>, cpus: nat, online: nat, k: nat)
    requires GoodRun(ins, cpus, online) && k <= |ins|
    ensures Remembers(HistoryAt(ins, cpus, online, k), ins, cpus, online, k)
    decreases k
  {
    if k == 0 {
    } else {
      HistoryRemembers(ins, cpus, online, k - 1);
      ResultFromMemory(HistoryAt(ins, cpus, online, k - 1), ins, cpus, online, k - 1);
    }
  }

  /**
    Over any run of scans, a thread is confirmed exactly when this scan and the
    last completed one both flag it with the same LAST_RUN and every online CPU
    with a non-zero tick advanced at least 100 since that scan; a scan stalls
    exactly when a thread is flagged twice and some CPU has not.
   */
  lemma ConfirmedExactly(ins: seq<ScanReads>, cpus: nat, online: nat, k: nat, t: nat)
    requires GoodRun(ins, cpus, online) && k < |ins|
    ensures t in ResultAt(ins, cpus, online, k).confirmed <==> ConfirmedBy(ins, cpus, online, k, t)
    ensures ResultAt(ins, cpus, online, k).stalled <==> Stalls(ins, cpus, online, k)
    ensures Stalls(ins, cpus, online, k) ==>
      HistoryAt(ins, cpus, online, k + 1) == HistoryAt(ins, cpus, online, k)
  {
    HistoryRemembers(ins, cpus, online, k);
    ResultFromMemory(HistoryAt(ins, cpus, online, k), ins, cpus, online, k);
  }

  // Edge counting ------------------------------------------------------------------------

  /** The events of one kind over a sequence of confirmed sets, the set before it being `before`. */
  function Events(before: set<nat>, sets: seq<set<nat>>): nat
    decreases |sets|
  {
    if sets == [] then 0 else |sets[0] - before| + Events(sets[0], sets[1..])
  }

  /** How often thread t enters the confirmed set. */
  function RisingEdges(before: set<nat>, sets: seq<set<nat>>, t: nat): nat
    decreases |sets|
  {
    if sets == [] then 0
    else (if t in sets[0] && t !in before then 1 else 0) + RisingEdges(sets[0], sets[1..], t)
  }

  /** Rising edges summed over threads 0..n. */
  function AllEdges(before: set<nat>, sets: seq<set<nat>>, n: nat): nat {
    if n == 0 then 0 else AllEdges(before, sets, n - 1) + RisingEdges(before, sets, n - 1)
  }

  function Members(s: set<nat>, n: nat): nat {
    if n == 0 then 0 else Members(s, n - 1) + if n - 1 in s then 1 else 0
  }

  lemma {:induction false} MembersIsCardinality(s: set<nat>, n: nat)
    ensures |set t | t in s && t < n| == Members(s, n)
  {
    var below := set t | t in s && t < n;
    if n > 0 {
      MembersIsCardinality(s, n - 1);
      var less := set t | t in s && t < n - 1;
      assert below == less + if n - 1 in s then {n - 1} else {};
    } else {
      assert below == {};
    }
  }

  lemma {:induction false} EdgesStep(before: set<nat>, sets: seq<set<nat>>, n: nat)
    requires sets != []
    ensures AllEdges(before, sets, n) == Members(sets[0] - before, n) + AllEdges(sets[0], sets[1..], n)
  {
    if n == 0 {
    } else {
      EdgesStep(before, sets, n - 1);
    }
  }

  lemma {:induction false} NoSetsNoEdges(before: set<nat>, n: nat)
    ensures AllEdges(before, [], n) == 0
  {
    if n == 0 {
    } else {
      NoSetsNoEdges(before, n - 1);
    }
  }

  /** The event count is the number of rising edges of every thread's confirmed bit, all threads together. */
  lemma {:induction false} EventsAreRisingEdges(before: set<nat>, sets: seq<set<nat>>, n: nat)
    requires forall k, t :: 0 <= k < |sets| && t in sets[k] ==> t < n
    ensures Events(before, sets) == AllEdges(before, sets, n)
    decreases |sets|
  {
    if sets == [] {
      NoSetsNoEdges(before, n);
    } else {
      EdgesStep(before, sets, n);
      MembersIsCardinality(sets[0] - before, n);
      assert (set t | t in sets[0] - before && t < n) == sets[0] - before;
      EventsAreRisingEdges(sets[0], sets[1..], n);
    }
  }

  lemma {:induction false} EventsAppend(before: set<nat>, sets: seq<set<nat>>, s: set<nat>)
    ensures Events(before, sets + [s])
         == Events(before, sets) + |s - if sets == [] then before else sets[|sets| - 1]|
    decreases |sets|
  {
    if sets == [] {
      assert sets + [s] == [s];
    } else {
      assert (sets + [s])[1..] == sets[1..] + [s];
      EventsAppend(sets[0], sets[1..], s);
    }
  }

  lemma MinusIsDifference(x: Mask, y: Mask)
    ensures And(x, Not(y, MASK_TIDS)) < Pow2(MASK_TIDS)
    ensures Tids(And(x, Not(y, MASK_TIDS))) == Tids(x) - Tids(y)
  {
    AndBelow(x, Not(y, MASK_TIDS));
    forall t: nat | t < MASK_TIDS
      ensures Bit(And(x, Not(y, MASK_TIDS)), t) == (Bit(x, t) && !Bit(y, t))
    {
      BitOfAnd(x, Not(y, MASK_TIDS), t);
      BitOfNot(y, MASK_TIDS, t);
    }
  }

  lemma NotHalf(y: nat, n: nat)
    requires n > 0 && y < Pow2(n)
    ensures y / 2 < Pow2(n - 1) && Not(y, n) / 2 == Not(y / 2, n - 1)
  {
  }

  lemma {:induction false} BitOfNot(y: nat, n: nat, t: nat)
    requires y < Pow2(n) && t < n
    ensures Bit(Not(y, n), t) == !Bit(y, t)
    decreases t
  {
    if t == 0 {
    } else {
      NotHalf(y, n);
      BitOfNot(y / 2, n - 1, t - 1);
    }
  }

  /** The confirmed set of one scan kind. */
  class EdgeCounter {
    var confirmed: Mask

    constructor ()
      ensures confirmed == 0
    {
      confirmed := 0;
    }

    /** Replaces the set and returns the threads that entered it. */
    method Update(now: Mask) returns (entered: Mask)
      modifies this
      ensures confirmed == now
      ensures Tids(entered) == Tids(now) - old(Tids(confirmed))
    {
      MinusIsDifference(now, confirmed);
      entered := And(now, Not(confirmed, MASK_TIDS));
      confirmed := now;
    }
  }

  /**
    One scan kind of the heartbeat: its strikes, its confirmed set, and the
    event and gauge counters it feeds. `sets` is the history of confirmed sets
    of its completed scans.
   */
  class ScanKind {
    const strike: TwoStrike
    const edge: EdgeCounter
    var events: nat
    var gauge: nat
    var stalls: nat
    ghost var sets: seq<set<nat>>

    ghost predicate Valid()
      reads this, strike, edge
    {
      && strike.Valid()
      && Tids(edge.confirmed) == (if sets == [] then {} else sets[|sets| - 1])
      && events == Events({}, sets)
      && gauge == |Tids(edge.confirmed)|
    }

    constructor (cpus: nat)
      ensures Valid() && sets == [] && fresh(strike) && fresh(strike.lastRun) && fresh(strike.ticks) && fresh(edge)
    {
      strike := new TwoStrike(cpus);
      edge := new EdgeCounter();
      events, gauge, stalls, sets := 0, 0, 0, [];
      EmptyMask(0);
    }

    /** Counts the threads that entered the set and takes its size as the gauge. */
    method Record(now: Mask)
      requires Valid()
      modifies this, edge
      ensures Valid() && sets == old(sets) + [Tids(now)] && stalls == old(stalls)
    {
      EventsAppend({}, sets, Tids(now));
      var entered := edge.Update(now);
      var n := CountTids(entered);
      events := events + n;
      gauge := CountTids(now);
      sets := sets + [Tids(now)];
    }

    /** One completed heartbeat scan: a stall only counts itself; otherwise the edges and the gauge are recorded. */
    method Confirm(flagged: Mask, ncpu: nat, now: seq<nat>, gate: seq<nat>, save: seq<nat>)
      requires Valid() && |now| == MASK_TIDS && |gate| == |save| == strike.ticks.Length
      modifies this, edge, strike, strike.lastRun, strike.ticks
      ensures Valid()
      ensures var online := if ncpu < strike.ticks.Length then ncpu else strike.ticks.Length;
              var scan := ScanReads(Tids(flagged), now, gate, save);
              && FitsScan(old(strike.Hist()), scan, online)
              && var result := ResultOf(old(strike.Hist()), scan, online);
              && strike.Hist() == HistoryAfter(old(strike.Hist()), scan, online)
              && sets == (if result.stalled then old(sets) else old(sets) + [result.confirmed])
              && stalls == old(stalls) + (if result.stalled then 1 else 0)
    {
      var confirmed, stalled := strike.Scan(flagged, ncpu, now, gate, save);
      if stalled {
        stalls := stalls + 1;
      } else {
        Record(confirmed);
      }
    }
  }
}
