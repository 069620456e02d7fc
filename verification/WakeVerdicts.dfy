/**
  What the wake table's verdicts mean, over every run: each verdict exactly, in
  terms of the waiter's wait and of what the wakes did to its timeout.
 */
module WakeVerdicts {
  import opened WakeTable

  function Outcome(stage: Stage): UnblockOutcome
    requires stage.Done?
  {
    UnblockOutcome(stage.kind, Stored(stage.phase), stage.chan)
  }

  /** The verdict on a reply's wake, or on a send's. */
  function Verdict(w: Wake): WakeVerdict
    requires w.src.Answer? && w.stage.Done?
  {
    match w.src.wait.side
    case Call => ClassifyReply(Outcome(w.stage), w.src.wait.chan, w.stage.clear)
    case Recv => ClassifySend(Outcome(w.stage), w.src.wait.chan, w.stage.clear)
  }

  /** The verdicts of a side: no timeout left, timeout still to be armed, and any other. */
  function NoTimeoutLeft(side: Side): WakeVerdict {
    if side.Call? then N2(Rblk) else N2(Vblk)
  }

  function NotYetArmed(side: Side): WakeVerdict {
    if side.Call? then N2(Rpre) else N2(Vpre)
  }

  function Otherwise(side: Side): WakeVerdict {
    if side.Call? then LateReply else NotCounted
  }

  /** The reply or send i skipped the waiter in its current wait, in which it has gone on to block. */
  predicate BlockedAfterSkip(s: State, i: nat) {
    && i < |s.wakes| && s.wakes[i].src.Answer? && s.wakes[i].stage.Done?
    && s.wakes[i].stage.kind.Skipped() && s.wakes[i].stage.round == s.round && s.pc.Blocked?
  }

  /** A wake's own clear removed an entry, and its unblock found the waiter armed. */
  predicate Blames(stage: Stage)
    requires stage.Done?
  {
    stage.clear.Removed? && stage.phase.ArmedPhase?
  }

  lemma FateOfPhase(kind: UnblockKind, phase: Phase, chan: nat, channel: nat, clear: ClearResult)
    ensures SkipFateOf(UnblockOutcome(kind, Stored(phase), chan), channel, clear) ==
      if chan != channel then NotInWait
      else match phase
        case IdlePhase => NotInWait
        case PublishedPhase(timed) => if timed then HealsBeforeArm else NoWaker
        case ArmedPhase(timed) => if timed && !clear.Removed? then HealsArmed else NoWaker
  {
  }

  // The current wait's timeout -----------------------------------------------------------

  /** Some wake is the current wait's timeout, or removed its entry. */
  predicate Touched(s: State) {
    exists j :: 0 <= j < |s.wakes| && Touches(s.wakes[j], s.round)
  }

  /** Some wake removed the current wait's entry. */
  predicate EntryRemoved(s: State) {
    exists j :: 0 <= j < |s.wakes| && Removes(s.wakes[j].stage, s.round)
  }

  /** The current wait's timeout has fired and made its unblock. */
  predicate TimeoutSpent(s: State) {
    exists j :: 0 <= j < |s.wakes| && s.wakes[j].src == Timeout(s.round) && s.wakes[j].stage.Done?
  }

  /** It has fired and has its unblock before it. */
  predicate TimeoutOnItsWay(s: State) {
    exists j :: 0 <= j < |s.wakes| && s.wakes[j].src == Timeout(s.round) && !s.wakes[j].stage.Done?
  }

  /** A timeout still wakes the waiter: its entry is there, or it has fired and is on its way. */
  predicate TimeoutToCome(s: State) {
    s.entry || TimeoutOnItsWay(s)
  }

  /** A blocked waiter has its timeout entry exactly when it is timed and no wake fired or removed that entry. */
  lemma EntryExactly(s: State)
    requires Reachable(s) && s.pc.Blocked?
    ensures s.entry <==> s.timed && !Touched(s)
  {
    ReachableInv(s);
  }

  /** One wake at most did, whatever the waiter is at. */
  lemma TouchedOnce(s: State, i: nat, j: nat)
    requires Reachable(s) && i < |s.wakes| && j < |s.wakes|
    requires Touches(s.wakes[i], s.round) && Touches(s.wakes[j], s.round)
    ensures i == j
  {
    ReachableInv(s);
  }

  /** A wake that removed a blocked waiter's entry answers or cancels that very wait, or comes from an earlier one. */
  lemma RemoverIs(s: State, j: nat)
    requires Reachable(s) && s.pc.Blocked? && j < |s.wakes| && Removes(s.wakes[j].stage, s.round)
    ensures var src := s.wakes[j].src;
      src.From() < s.round || (!src.Timeout? && src.took == s.round && src.wait == WaitOf(s))
  {
    ReachableInv(s);
    assert SourceOk(s, s.wakes[j]);
  }

  /** A timeout wakes a blocked waiter exactly when it is timed, no wake removed its entry, and it is not spent. */
  lemma TimeoutToComeExactly(s: State)
    requires Reachable(s) && s.pc.Blocked?
    ensures TimeoutToCome(s) <==> s.timed && !EntryRemoved(s) && !TimeoutSpent(s)
  {
    ReachableInv(s);
    if s.timed && !s.entry {
      var j :| 0 <= j < |s.wakes| && Touches(s.wakes[j], s.round);
      OnlyTouch(s, j);
    }
  }

  lemma OnlyTouch(s: State, j: nat)
    requires Inv(s) && j < |s.wakes| && Touches(s.wakes[j], s.round)
    ensures EntryRemoved(s) <==> Removes(s.wakes[j].stage, s.round)
    ensures TimeoutSpent(s) <==> s.wakes[j].src == Timeout(s.round) && s.wakes[j].stage.Done?
    ensures TimeoutOnItsWay(s) <==> s.wakes[j].src == Timeout(s.round) && !s.wakes[j].stage.Done?
    ensures s.wakes[j].src == Timeout(s.round) ==> !Removes(s.wakes[j].stage, s.round)
  {
    assert SourceOk(s, s.wakes[j]);
    forall i | 0 <= i < |s.wakes| && i != j ensures !Touches(s.wakes[i], s.round) {
    }
  }

  // The verdicts ---------------------------------------------------------------------------

  /** Each verdict on a skipped wake, in terms of the wait the waiter blocked in and what the wake itself did. */
  lemma VerdictTable(s: State, i: nat)
    requires Reachable(s) && BlockedAfterSkip(s, i)
    ensures var w := s.wakes[i];
      var side, here, published := w.src.wait.side, w.src.wait == WaitOf(s), w.stage.phase.PublishedPhase?;
      && (Verdict(w) == NoTimeoutLeft(side) <==> here && (!s.timed || Blames(w.stage)))
      && (Verdict(w) == NotYetArmed(side) <==> here && s.timed && published)
      && (Verdict(w) == Otherwise(side) <==> !here || (s.timed && !published && !w.stage.clear.Removed?))
  {
    ReachableInv(s);
    var w := s.wakes[i];
    assert StageOk(s, w);
    FateOfPhase(w.stage.kind, w.stage.phase, w.stage.chan, w.src.wait.chan, w.stage.clear);
  }

  /**
    The table is exact for a skipped wake, rblk or vblk meaning that the waiter
    blocked in that wait with no entry, if and only if in that wait a timed
    waiter's entry was fired or removed just when this wake is to blame.
   */
  lemma BlockedVerdictExactly(s: State, i: nat)
    requires Reachable(s) && BlockedAfterSkip(s, i)
    ensures var w := s.wakes[i];
      var here := w.src.wait == WaitOf(s);
      (Verdict(w) == NoTimeoutLeft(w.src.wait.side) <==> here && !s.entry)
      <==> (here && s.timed ==> (Blames(w.stage) <==> Touched(s)))
  {
    VerdictTable(s, i);
    EntryExactly(s);
  }

  /** No other wake touched the current wait's entry, and this one's clear was not an earlier wait's. */
  predicate Undisturbed(s: State, i: nat)
    requires i < |s.wakes| && s.wakes[i].stage.Done?
  {
    && (forall j :: 0 <= j < |s.wakes| && j != i ==> !Touches(s.wakes[j], s.round))
    && (s.wakes[i].stage.clear.Removed? ==> s.wakes[i].stage.at == s.round)
  }

  /**
    So while the wakes of other waits stay out: rblk (reply) and vblk (send)
    exactly when the waiter blocks in that wait with no entry, and rpre, vpre
    and latereply in that wait always with one.
   */
  lemma SkippedWakeVerdict(s: State, i: nat)
    requires Reachable(s) && BlockedAfterSkip(s, i) && Undisturbed(s, i)
    ensures var w := s.wakes[i];
      var side, here := w.src.wait.side, w.src.wait == WaitOf(s);
      && (Verdict(w) == NoTimeoutLeft(side) <==> here && !s.entry)
      && (Verdict(w) == NotYetArmed(side) ==> here && s.entry)
      && (Verdict(w) == Otherwise(side) && here ==> s.entry)
  {
    ReachableInv(s);
    var w := s.wakes[i];
    assert StageOk(s, w);
    VerdictTable(s, i);
    EntryExactly(s);
    assert Touched(s) <==> Touches(w, s.round);
  }

  /**
    What latereply promises, that a timeout wakes the caller, holds of a
    blocked caller if and only if its wait is timed, no wake removed its entry,
    and its timeout was not spent before it blocked. In the call that was
    replied to, the wait is timed and the reply is not the one that removed it.
   */
  lemma LateReplyExactly(s: State, i: nat)
    requires Reachable(s) && BlockedAfterSkip(s, i) && Verdict(s.wakes[i]) == LateReply
    ensures TimeoutToCome(s) <==> s.timed && !EntryRemoved(s) && !TimeoutSpent(s)
    ensures s.wakes[i].src.wait == WaitOf(s) ==> s.timed && !Removes(s.wakes[i].stage, s.round)
  {
    TimeoutToComeExactly(s);
    VerdictTable(s, i);
  }

  /** A wake that woke the waiter counts misrep, for a reply, exactly when the waiter was in another wait. */
  lemma WakeVerdictOfWoken(s: State, i: nat)
    requires Reachable(s) && i < |s.wakes| && s.wakes[i].src.Answer?
    requires s.wakes[i].stage.Done? && s.wakes[i].stage.kind.Woke?
    ensures var w := s.wakes[i];
      Verdict(w) == if w.src.wait.side.Call? && w.src.wait != w.stage.on then Misrep else NotCounted
  {
    ReachableInv(s);
    assert StageOk(s, s.wakes[i]);
  }

  /** Every wait is answered or cancelled once at most, in its own place, and not while its reference is still there. */
  lemma AnsweredOnce(s: State, i: nat, j: nat)
    requires Reachable(s) && i < j < |s.wakes| && !s.wakes[i].src.Timeout? && !s.wakes[j].src.Timeout?
    ensures s.wakes[i].src.took != s.wakes[j].src.took && s.wakes[j].src.took <= s.round
    ensures forall w :: w in s.refs ==> s.refs[w] != s.wakes[j].src.took
    ensures InWait(s) && s.wakes[j].src.took == s.round ==> s.wakes[j].src.wait == WaitOf(s)
  {
    ReachableInv(s);
    assert SourceOk(s, s.wakes[j]);
  }

  /** Each channel that names the waiter does so for one wait of its own, up to the current one. */
  lemma ReferencesAreOfWaits(s: State, v: Wait, w: Wait)
    requires Reachable(s) && v in s.refs && w in s.refs
    ensures s.refs[v] <= s.round && (s.refs[v] == s.refs[w] ==> v == w)
    ensures InWait(s) && s.refs[v] == s.round ==> v == WaitOf(s)
  {
    ReachableInv(s);
  }
}
