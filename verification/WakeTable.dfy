/**
  The N2 wake table: what a reply's or a send's skipped wake says about the
  waiter, against every interleaving of its waits with the wakes.

  The waiter, in a call or a receive, publishes itself on a channel, registers
  its timeout, and blocks. A reply, a send or a cancellation takes a channel's
  reference to the waiter, clears its timeout, and unblocks it. A timeout takes
  the entry, clears the waiter's timeout again, and unblocks it. A receive that
  ends drops its reference; a call does so only when it ends with an error, so a
  channel can go on naming a caller that has left. The machine runs one waiter
  through any number of waits, timed or not, on any channels; any number of
  wakes are under way at once, and their steps fall anywhere, also waits later.
 */
module WakeTable {

  // The table ------------------------------------------------------------------

  const PHASE_IDLE: bv8 := 0
  const PHASE_PUBLISHED: bv8 := 1
  const PHASE_ARMED: bv8 := 2
  const PHASE_UNTIMED: bv8 := 0x80

  function WaitPhase(step: bv8, timed: bool): bv8 {
    if timed then step else step | PHASE_UNTIMED
  }

  datatype UnblockKind = Woke | Revived | SkipRunning | SkipRunnable | NoThread
  {
    predicate Skipped() { SkipRunning? || SkipRunnable? }
    predicate MadeRunnable() { Woke? || Revived? }
  }

  datatype UnblockOutcome = UnblockOutcome(kind: UnblockKind, phase: bv8, chan: nat)

  datatype ClearResult = Removed | Absent | Busy

  datatype N2Kind = Rpre | Rblk | Vpre | Vblk

  datatype WakeVerdict = NotCounted | N2(kind: N2Kind) | LateReply | Misrep

  datatype SkipFate = NotInWait | HealsBeforeArm | HealsArmed | NoWaker

  function SkipFateOf(outcome: UnblockOutcome, channel: nat, clear: ClearResult): SkipFate {
    if outcome.chan != channel then NotInWait
    else
      var untimed := outcome.phase & PHASE_UNTIMED != 0;
      var step := outcome.phase & !PHASE_UNTIMED;
      if (step == PHASE_PUBLISHED || step == PHASE_ARMED) && untimed then NoWaker
      else if step == PHASE_PUBLISHED then HealsBeforeArm
      else if step == PHASE_ARMED && clear.Removed? then NoWaker
      else if step == PHASE_ARMED then HealsArmed
      else NotInWait
  }

  function ClassifyReply(outcome: UnblockOutcome, channel: nat, clear: ClearResult): WakeVerdict {
    if outcome.kind.Skipped() then
      match SkipFateOf(outcome, channel, clear)
      case NoWaker => N2(Rblk)
      case HealsBeforeArm => N2(Rpre)
      case HealsArmed => LateReply
      case NotInWait => LateReply
    else
      var armedHere := outcome.chan == channel && outcome.phase & !PHASE_UNTIMED == PHASE_ARMED;
      if outcome.kind.MadeRunnable() && !armedHere then Misrep else NotCounted
  }

  function ClassifySend(outcome: UnblockOutcome, channel: nat, clear: ClearResult): WakeVerdict {
    if !outcome.kind.Skipped() then NotCounted
    else
      match SkipFateOf(outcome, channel, clear)
      case NoWaker => N2(Vblk)
      case HealsBeforeArm => N2(Vpre)
      case HealsArmed => NotCounted
      case NotInWait => NotCounted
  }

  // The machine -------------------------------------------------------------------

  datatype Side = Call | Recv

  datatype Wait = Wait(side: Side, chan: nat)

  /** Out, then ChanStored, Published, Armed, Blocked, Woken, Ended, Emptied, Failed or Dropped, and Out again. */
  datatype Pc = Out | ChanStored | Published | Armed | Blocked | Woken | Ended | Emptied | Failed | Dropped

  datatype Phase = IdlePhase | PublishedPhase(timed: bool) | ArmedPhase(timed: bool)

  function Stored(phase: Phase): bv8 {
    match phase
    case IdlePhase => PHASE_IDLE
    case PublishedPhase(timed) => WaitPhase(PHASE_PUBLISHED, timed)
    case ArmedPhase(timed) => WaitPhase(PHASE_ARMED, timed)
  }

  /**
    Who wakes: a reply or send, or a cancellation, that took the reference of
    wait number `took`; or the timeout of wait number `fired`.
   */
  datatype Source = Answer(wait: Wait, took: nat) | Cancel(wait: Wait, took: nat) | Timeout(fired: nat)
  {
    /** The wait it comes from. */
    function From(): nat {
      if Timeout? then fired else took
    }
  }

  /**
    How far a wake is. `at` and `round` are the waits during which it cleared
    and unblocked; `on` is the wait it found the waiter in, or past.
   */
  datatype Stage =
    | Begun
    | Marked
    | Cleared(clear: ClearResult, at: nat)
    | Done(clear: ClearResult, at: nat, kind: UnblockKind, phase: Phase, chan: nat, on: Wait, round: nat)

  datatype Wake = Wake(src: Source, stage: Stage)

  /**
    `entry`: the waiter has a TIMEOUT_QUEUE entry. `error`: its WAKEUP_ERRORS
    slot. `refs`: the channels that name it, each with the wait that published
    it there. `round` counts its waits; `last` has the channel of its current
    or last call and receive.
   */
  datatype State = State(pc: Pc, side: Side, timed: bool, phase: Phase, last: map<Side, nat>, entry: bool, error: bool,
                         refs: map<Wait, nat>, round: nat, wakes: seq<Wake>)

  datatype Step =
    | StoreChan(wait: Wait, timed: bool)
    | Publish
    | Arm
    | Block
    | EndPhase
    | EndEntry
    | TakeError
    | DropReference
    | Expire
    | TakeReference(wait: Wait, cancel: bool)
    | StoreError(wake: nat)
    | ClearTimeout(wake: nat, busy: bool)
    | Unblock(wake: nat, running: bool)

  function LastChan(s: State, side: Side): nat {
    if side in s.last then s.last[side] else 0
  }

  /** The waiter's current or last wait. */
  function WaitOf(s: State): Wait {
    Wait(s.side, LastChan(s, s.side))
  }

  /** What the phase slot of a side holds. */
  function PhaseOf(s: State, side: Side): Phase {
    if side == s.side then s.phase else IdlePhase
  }

  predicate Enabled(s: State, step: Step) {
    match step
    case StoreChan(wait, _) => s.pc.Out? && wait !in s.refs
    case Publish => s.pc.ChanStored?
    case Arm => s.pc.Published?
    case Block => s.pc.Armed?
    case EndPhase => s.pc.Woken?
    case EndEntry => s.pc.Ended?
    case TakeError => (s.pc.Emptied? && s.side.Call?) || s.pc.Dropped?
    case DropReference => s.pc.Failed? || (s.pc.Emptied? && s.side.Recv?)
    case Expire => s.entry
    case TakeReference(wait, _) => wait in s.refs
    case StoreError(i) => i < |s.wakes| && s.wakes[i].stage.Begun? && !s.wakes[i].src.Answer?
    case ClearTimeout(i, _) =>
      i < |s.wakes| && if s.wakes[i].src.Answer? then s.wakes[i].stage.Begun? else s.wakes[i].stage.Marked?
    case Unblock(i, _) => i < |s.wakes| && s.wakes[i].stage.Cleared?
  }

  function Advance(s: State, i: nat, stage: Stage): seq<Wake>
    requires i < |s.wakes|
  {
    s.wakes[i := s.wakes[i].(stage := stage)]
  }

  /** What an unblock by `src` does and sees now. */
  function UnblockNow(s: State, src: Source, clear: ClearResult, at: nat, running: bool): Stage {
    var kind := if s.pc.Blocked? then Woke else if running then SkipRunning else SkipRunnable;
    var phase := if src.Answer? then PhaseOf(s, src.wait.side) else IdlePhase;
    var chan := if src.Answer? then LastChan(s, src.wait.side) else 0;
    Done(clear, at, kind, phase, chan, WaitOf(s), s.round)
  }

  function Apply(s: State, step: Step): State
    requires Enabled(s, step)
  {
    match step
    case StoreChan(wait, timed) =>
      s.(pc := ChanStored, side := wait.side, last := s.last[wait.side := wait.chan], timed := timed)
    case Publish =>
      s.(pc := Published, phase := PublishedPhase(s.timed), refs := s.refs[WaitOf(s) := s.round + 1],
         round := s.round + 1)
    case Arm => s.(pc := Armed, phase := ArmedPhase(s.timed), entry := s.timed)
    case Block => s.(pc := Blocked)
    case EndPhase => s.(pc := Ended, phase := IdlePhase)
    case EndEntry => s.(pc := Emptied, entry := false)
    case TakeError => s.(pc := if s.side.Call? && s.error then Failed else Out, error := false)
    case DropReference => s.(pc := if s.pc.Failed? then Out else Dropped, refs := s.refs - {WaitOf(s)})
    case Expire => s.(entry := false, wakes := s.wakes + [Wake(Timeout(s.round), Begun)])
    case TakeReference(wait, cancel) =>
      var src := if cancel then Cancel(wait, s.refs[wait]) else Answer(wait, s.refs[wait]);
      s.(refs := s.refs - {wait}, wakes := s.wakes + [Wake(src, Begun)])
    case StoreError(i) => s.(error := true, wakes := Advance(s, i, Marked))
    case ClearTimeout(i, busy) =>
      var clear := if busy then Busy else if s.entry then Removed else Absent;
      s.(entry := s.entry && busy, wakes := Advance(s, i, Cleared(clear, s.round)))
    case Unblock(i, running) =>
      var Cleared(clear, at) := s.wakes[i].stage;
      s.(pc := if s.pc.Blocked? then Woken else s.pc,
         wakes := Advance(s, i, UnblockNow(s, s.wakes[i].src, clear, at, running)))
  }

  const START := State(Out, Call, false, IdlePhase, map[], false, false, map[], 0, [])

  predicate Run(s: State, steps: seq<Step>, s': State)
    decreases |steps|
  {
    if steps == [] then s == s' else Enabled(s, steps[0]) && Run(Apply(s, steps[0]), steps[1..], s')
  }

  ghost predicate Reachable(s: State) {
    exists steps :: Run(START, steps, s)
  }

  // What every step keeps -------------------------------------------------------------

  predicate InWait(s: State) {
    s.pc.Published? || s.pc.Armed? || s.pc.Blocked?
  }

  /** The published phase follows the waiter. */
  predicate PhaseOk(s: State) {
    match s.pc
    case Published => s.phase == PublishedPhase(s.timed)
    case Armed => s.phase == ArmedPhase(s.timed)
    case Blocked => s.phase == ArmedPhase(s.timed)
    case Woken => s.phase == ArmedPhase(s.timed)
    case _ => s.phase == IdlePhase
  }

  /** The wake's own clear removed the timeout entry of wait number `round`. */
  predicate Removes(stage: Stage, round: nat) {
    (stage.Cleared? || stage.Done?) && stage.clear.Removed? && stage.at == round
  }

  /** The wake is that wait's timeout, or removed its entry. */
  predicate Touches(w: Wake, round: nat) {
    w.src == Timeout(round) || Removes(w.stage, round)
  }

  predicate NoneTouches(wakes: seq<Wake>, round: nat) {
    forall i :: 0 <= i < |wakes| ==> !Touches(wakes[i], round)
  }

  predicate OneTouches(wakes: seq<Wake>, round: nat) {
    forall i, j :: 0 <= i < j < |wakes| ==> !Touches(wakes[i], round) || !Touches(wakes[j], round)
  }

  /** A timed waiter that armed has its entry until some wake fires or removes it. */
  predicate EntryOk(s: State) {
    && OneTouches(s.wakes, s.round)
    && (s.entry ==> s.timed && NoneTouches(s.wakes, s.round))
    && (s.entry ==> s.pc.Armed? || s.pc.Blocked? || s.pc.Woken? || s.pc.Ended?)
    && (s.pc.Published? ==> NoneTouches(s.wakes, s.round))
    && (s.pc.Armed? || s.pc.Blocked? ==> (s.entry <==> s.timed && NoneTouches(s.wakes, s.round)))
    && (s.pc.Armed? || s.pc.Blocked? ==> NoneTouches(s.wakes, s.round) || s.timed)
  }

  /** Each reference is of a wait of its own, and only the current one can be the current wait's. */
  predicate RefsOk(s: State) {
    && (forall w :: w in s.refs ==> s.refs[w] <= s.round)
    && (forall w :: w in s.refs && s.refs[w] == s.round ==> !s.pc.ChanStored? ==> w == WaitOf(s))
    && (forall v, w :: v in s.refs && w in s.refs && s.refs[v] == s.refs[w] ==> v == w)
    && (s.pc.ChanStored? ==> WaitOf(s) !in s.refs)
  }

  /** The reference of wait number `took` was the one taken. */
  predicate TookOk(s: State, wait: Wait, took: nat) {
    && took <= s.round && (took == s.round && !s.pc.ChanStored? ==> wait == WaitOf(s))
    && forall w :: w in s.refs ==> s.refs[w] != took
  }

  predicate SourceOk(s: State, w: Wake) {
    match w.src
    case Answer(wait, took) => TookOk(s, wait, took)
    case Cancel(wait, took) => TookOk(s, wait, took)
    case Timeout(fired) => fired <= s.round && (fired == s.round ==> !Removes(w.stage, s.round))
  }

  /** What an answer's unblock saw of a waiter that has stayed in that wait. */
  predicate SeenNow(s: State, side: Side, phase: Phase, chan: nat) {
    if side != s.side then phase.IdlePhase?
    else
      && chan == LastChan(s, side)
      && (phase == PublishedPhase(s.timed) || (!s.pc.Published? && phase == ArmedPhase(s.timed)))
  }

  predicate AnswerOk(s: State, side: Side, stage: Stage)
    requires stage.Done?
  {
    && (stage.kind.Woke? ==>
          if side == stage.on.side then stage.phase.ArmedPhase? && stage.chan == stage.on.chan
          else stage.phase.IdlePhase?)
    && (stage.kind.Skipped() && stage.round == s.round && InWait(s) ==> SeenNow(s, side, stage.phase, stage.chan))
    && (Removes(stage, s.round) && InWait(s) && side == s.side ==> stage.phase.ArmedPhase?)
  }

  predicate StageOk(s: State, w: Wake) {
    match w.stage
    case Begun => true
    case Marked => true
    case Cleared(_, at) => at <= s.round
    case Done(_, at, kind, _, _, _, round) =>
      && at <= round <= s.round && (kind.Woke? || kind.Skipped())
      && (kind.Woke? && round == s.round ==> !InWait(s))
      && (w.src.Answer? ==> AnswerOk(s, w.src.wait.side, w.stage))
  }

  predicate WakesOk(s: State) {
    forall i :: 0 <= i < |s.wakes| ==> SourceOk(s, s.wakes[i]) && StageOk(s, s.wakes[i])
  }

  /** A wait's reference is taken once at most. */
  predicate TakenOnce(wakes: seq<Wake>) {
    forall i, j :: 0 <= i < j < |wakes| && !wakes[i].src.Timeout? && !wakes[j].src.Timeout? ==>
      wakes[i].src.took != wakes[j].src.took
  }

  predicate Inv(s: State) {
    PhaseOk(s) && EntryOk(s) && RefsOk(s) && WakesOk(s) && TakenOnce(s.wakes)
  }

  /** The steps of the waiter. */
  predicate IsWaiterStep(step: Step) {
    && !step.Expire? && !step.TakeReference? && !step.StoreError? && !step.ClearTimeout? && !step.Unblock?
  }

  lemma WaiterKeepsSource(s: State, step: Step, w: Wake)
    requires Inv(s) && Enabled(s, step) && IsWaiterStep(step) && SourceOk(s, w)
    ensures SourceOk(Apply(s, step), w)
  {
  }

  lemma WaiterKeepsStage(s: State, step: Step, w: Wake)
    requires PhaseOk(s) && Enabled(s, step) && IsWaiterStep(step) && StageOk(s, w)
    ensures StageOk(Apply(s, step), w)
  {
  }

  lemma WaiterKeepsWakes(s: State, step: Step)
    requires Inv(s) && Enabled(s, step) && IsWaiterStep(step)
    ensures WakesOk(Apply(s, step)) && TakenOnce(Apply(s, step).wakes)
  {
    var next := Apply(s, step);
    forall i | 0 <= i < |next.wakes| ensures SourceOk(next, next.wakes[i]) && StageOk(next, next.wakes[i]) {
      WaiterKeepsSource(s, step, s.wakes[i]);
      WaiterKeepsStage(s, step, s.wakes[i]);
    }
  }

  lemma NoneTouchesNext(s: State)
    requires WakesOk(s)
    ensures NoneTouches(s.wakes, s.round + 1)
  {
    forall i | 0 <= i < |s.wakes| ensures !Touches(s.wakes[i], s.round + 1) {
      assert SourceOk(s, s.wakes[i]) && StageOk(s, s.wakes[i]);
    }
  }

  lemma WaiterKeepsEntry(s: State, step: Step)
    requires Inv(s) && Enabled(s, step) && IsWaiterStep(step)
    ensures var next := Apply(s, step); PhaseOk(next) && EntryOk(next)
  {
    NoneTouchesNext(s);
  }

  lemma WaiterKeepsRefs(s: State, step: Step)
    requires RefsOk(s) && Enabled(s, step) && IsWaiterStep(step)
    ensures RefsOk(Apply(s, step))
  {
  }

  lemma WithOneMore(wakes: seq<Wake>, w: Wake, round: nat)
    ensures NoneTouches(wakes + [w], round) == (NoneTouches(wakes, round) && !Touches(w, round))
    ensures OneTouches(wakes, round) && (NoneTouches(wakes, round) || !Touches(w, round)) ==>
      OneTouches(wakes + [w], round)
  {
    var all := wakes + [w];
    if NoneTouches(all, round) {
      assert !Touches(all[|wakes|], round);
      forall i | 0 <= i < |wakes| ensures !Touches(wakes[i], round) { assert !Touches(all[i], round); }
    }
  }

  lemma ExpireKeepsInv(s: State)
    requires Inv(s) && Enabled(s, Expire)
    ensures Inv(Apply(s, Expire))
  {
    var next := Apply(s, Expire);
    forall i | 0 <= i < |next.wakes| ensures SourceOk(next, next.wakes[i]) && StageOk(next, next.wakes[i]) {
      if i < |s.wakes| { assert SourceOk(s, s.wakes[i]) && StageOk(s, s.wakes[i]); }
    }
    WithOneMore(s.wakes, Wake(Timeout(s.round), Begun), s.round);
  }

  lemma TakeKeepsWakes(s: State, wait: Wait, cancel: bool)
    requires Inv(s) && Enabled(s, TakeReference(wait, cancel))
    ensures WakesOk(Apply(s, TakeReference(wait, cancel)))
  {
    var next := Apply(s, TakeReference(wait, cancel));
    forall i | 0 <= i < |next.wakes| ensures SourceOk(next, next.wakes[i]) && StageOk(next, next.wakes[i]) {
      if i < |s.wakes| {
        assert SourceOk(s, s.wakes[i]) && StageOk(s, s.wakes[i]);
      } else {
        assert TookOk(next, wait, s.refs[wait]);
      }
    }
  }

  lemma TakeKeepsTaken(s: State, wait: Wait, cancel: bool)
    requires Inv(s) && Enabled(s, TakeReference(wait, cancel))
    ensures TakenOnce(Apply(s, TakeReference(wait, cancel)).wakes)
  {
    forall i | 0 <= i < |s.wakes| && !s.wakes[i].src.Timeout? ensures s.wakes[i].src.took != s.refs[wait] {
      assert SourceOk(s, s.wakes[i]);
    }
  }

  lemma TakeKeepsInv(s: State, wait: Wait, cancel: bool)
    requires Inv(s) && Enabled(s, TakeReference(wait, cancel))
    ensures Inv(Apply(s, TakeReference(wait, cancel)))
  {
    TakeKeepsWakes(s, wait, cancel);
    TakeKeepsTaken(s, wait, cancel);
    TakeKeepsEntry(s, wait, cancel);
    TakeKeepsRefs(s, wait, cancel);
  }

  lemma TakeKeepsEntry(s: State, wait: Wait, cancel: bool)
    requires PhaseOk(s) && EntryOk(s) && Enabled(s, TakeReference(wait, cancel))
    ensures var next := Apply(s, TakeReference(wait, cancel)); PhaseOk(next) && EntryOk(next)
  {
    var next := Apply(s, TakeReference(wait, cancel));
    WithOneMore(s.wakes, next.wakes[|s.wakes|], s.round);
  }

  lemma TakeKeepsRefs(s: State, wait: Wait, cancel: bool)
    requires RefsOk(s) && Enabled(s, TakeReference(wait, cancel))
    ensures RefsOk(Apply(s, TakeReference(wait, cancel)))
  {
  }

  lemma AdvanceKeepsTaken(s: State, i: nat, stage: Stage)
    requires i < |s.wakes| && TakenOnce(s.wakes)
    ensures TakenOnce(Advance(s, i, stage))
  {
  }

  lemma MarkKeepsWakes(s: State, i: nat)
    requires Inv(s) && Enabled(s, StoreError(i))
    ensures WakesOk(Apply(s, StoreError(i)))
  {
    var next := Apply(s, StoreError(i));
    forall j | 0 <= j < |next.wakes| ensures SourceOk(next, next.wakes[j]) && StageOk(next, next.wakes[j]) {
      assert SourceOk(s, s.wakes[j]) && StageOk(s, s.wakes[j]);
    }
  }

  lemma MarkKeepsInv(s: State, i: nat)
    requires Inv(s) && Enabled(s, StoreError(i))
    ensures Inv(Apply(s, StoreError(i)))
  {
    MarkKeepsWakes(s, i);
    AdvanceKeepsTaken(s, i, Marked);
    SameTouches(s.wakes, Advance(s, i, Marked), s.round);
  }

  lemma SameTouches(wakes: seq<Wake>, now: seq<Wake>, round: nat)
    requires |wakes| == |now| && forall i :: 0 <= i < |wakes| ==> Touches(wakes[i], round) == Touches(now[i], round)
    ensures NoneTouches(wakes, round) == NoneTouches(now, round)
    ensures OneTouches(wakes, round) ==> OneTouches(now, round)
  {
    if NoneTouches(now, round) {
      forall i | 0 <= i < |wakes| ensures !Touches(wakes[i], round) { assert !Touches(now[i], round); }
    }
  }

  lemma ClearKeepsWake(s: State, i: nat, busy: bool, j: nat)
    requires Inv(s) && Enabled(s, ClearTimeout(i, busy)) && j < |s.wakes|
    ensures var next := Apply(s, ClearTimeout(i, busy)); SourceOk(next, next.wakes[j]) && StageOk(next, next.wakes[j])
  {
    assert SourceOk(s, s.wakes[j]) && StageOk(s, s.wakes[j]);
    if s.entry { assert !Touches(s.wakes[i], s.round); }
  }

  lemma ClearKeepsEntry(s: State, i: nat, busy: bool)
    requires Inv(s) && Enabled(s, ClearTimeout(i, busy))
    ensures EntryOk(Apply(s, ClearTimeout(i, busy)))
  {
    var next := Apply(s, ClearTimeout(i, busy));
    if s.entry && !busy {
      assert Touches(next.wakes[i], s.round);
      forall j | 0 <= j < |s.wakes| && j != i ensures !Touches(next.wakes[j], s.round) {
        assert !Touches(s.wakes[j], s.round);
      }
    } else {
      SameTouches(s.wakes, next.wakes, s.round);
    }
  }

  lemma ClearKeepsInv(s: State, i: nat, busy: bool)
    requires Inv(s) && Enabled(s, ClearTimeout(i, busy))
    ensures Inv(Apply(s, ClearTimeout(i, busy)))
  {
    forall j: nat | j < |s.wakes|
      ensures var next := Apply(s, ClearTimeout(i, busy)); SourceOk(next, next.wakes[j]) && StageOk(next, next.wakes[j])
    {
      ClearKeepsWake(s, i, busy, j);
    }
    ClearKeepsEntry(s, i, busy);
    AdvanceKeepsTaken(s, i, Apply(s, ClearTimeout(i, busy)).wakes[i].stage);
  }

  lemma UnblockKeepsOther(s: State, i: nat, running: bool, j: nat)
    requires Inv(s) && Enabled(s, Unblock(i, running)) && j < |s.wakes| && j != i
    ensures var next := Apply(s, Unblock(i, running)); SourceOk(next, next.wakes[j]) && StageOk(next, next.wakes[j])
  {
    assert SourceOk(s, s.wakes[j]) && StageOk(s, s.wakes[j]);
  }

  lemma UnblockAnswers(s: State, i: nat, running: bool)
    requires Inv(s) && Enabled(s, Unblock(i, running)) && s.wakes[i].src.Answer?
    ensures var next := Apply(s, Unblock(i, running)); AnswerOk(next, s.wakes[i].src.wait.side, next.wakes[i].stage)
  {
    if s.pc.Published? { assert !Touches(s.wakes[i], s.round); }
  }

  lemma UnblockKeepsSource(s: State, i: nat, running: bool)
    requires Inv(s) && Enabled(s, Unblock(i, running))
    ensures SourceOk(Apply(s, Unblock(i, running)), Apply(s, Unblock(i, running)).wakes[i])
  {
    assert SourceOk(s, s.wakes[i]);
  }

  lemma UnblockKeepsStage(s: State, i: nat, running: bool)
    requires Inv(s) && Enabled(s, Unblock(i, running))
    ensures StageOk(Apply(s, Unblock(i, running)), Apply(s, Unblock(i, running)).wakes[i])
  {
    assert StageOk(s, s.wakes[i]);
    if s.wakes[i].src.Answer? { UnblockAnswers(s, i, running); }
  }

  lemma UnblockKeepsEntry(s: State, i: nat, running: bool)
    requires PhaseOk(s) && EntryOk(s) && Enabled(s, Unblock(i, running))
    ensures var next := Apply(s, Unblock(i, running)); PhaseOk(next) && EntryOk(next)
  {
    SameTouches(s.wakes, Apply(s, Unblock(i, running)).wakes, s.round);
  }

  lemma UnblockKeepsInv(s: State, i: nat, running: bool)
    requires Inv(s) && Enabled(s, Unblock(i, running))
    ensures Inv(Apply(s, Unblock(i, running)))
  {
    var next := Apply(s, Unblock(i, running));
    forall j: nat | j < |s.wakes| ensures SourceOk(next, next.wakes[j]) && StageOk(next, next.wakes[j]) {
      if j == i {
        UnblockKeepsSource(s, i, running);
        UnblockKeepsStage(s, i, running);
      } else {
        UnblockKeepsOther(s, i, running, j);
      }
    }
    AdvanceKeepsTaken(s, i, next.wakes[i].stage);
    UnblockKeepsEntry(s, i, running);
  }

  lemma StepKeepsInv(s: State, step: Step)
    requires Inv(s) && Enabled(s, step)
    ensures Inv(Apply(s, step))
  {
    match step
    case Expire => ExpireKeepsInv(s);
    case TakeReference(wait, cancel) => TakeKeepsInv(s, wait, cancel);
    case StoreError(i) => MarkKeepsInv(s, i);
    case ClearTimeout(i, busy) => ClearKeepsInv(s, i, busy);
    case Unblock(i, running) => UnblockKeepsInv(s, i, running);
    case _ =>
      WaiterKeepsWakes(s, step);
      WaiterKeepsEntry(s, step);
      WaiterKeepsRefs(s, step);
  }

  lemma {:induction false} RunKeepsInv(s: State, steps: seq<Step>, s': State)
    requires Inv(s) && Run(s, steps, s')
    ensures Inv(s')
    decreases |steps|
  {
    if steps == [] {
    } else {
      StepKeepsInv(s, steps[0]);
      RunKeepsInv(Apply(s, steps[0]), steps[1..], s');
    }
  }

  lemma ReachableInv(s: State)
    requires Reachable(s)
    ensures Inv(s)
  {
    var steps :| Run(START, steps, s);
    RunKeepsInv(START, steps, s);
  }
}
