/**
  Runs in which the wake table is wrong about a timeout: a wedge counted as
  latereply, a wake that removes the timeout of another wait, a false alarm, and
  a reply that leaves a channel naming a caller that has gone.
 */
module WakeRuns {
  import opened WakeTable
  import opened WakeVerdicts

  // Pieces of runs -----------------------------------------------------------------------

  lemma {:induction false} RunThen(s: State, steps: seq<Step>, m: State, step: Step)
    requires Run(s, steps, m) && Enabled(m, step)
    ensures Run(s, steps + [step], Apply(m, step))
    decreases |steps|
  {
    if steps == [] {
      assert [step][1..] == [];
      assert steps + [step] == [step];
    } else {
      RunThen(Apply(s, steps[0]), steps[1..], m, step);
      assert (steps + [step])[1..] == steps[1..] + [step];
    }
  }

  /** One more step of a run. */
  lemma Do(s: State, step: Step) returns (next: State)
    requires Reachable(s) && Enabled(s, step)
    ensures next == Apply(s, step) && Reachable(next)
  {
    next := Apply(s, step);
    var steps :| Run(START, steps, s);
    RunThen(START, steps, s, step);
  }

  lemma FromStart()
    ensures Reachable(START)
  {
    assert Run(START, [], START);
  }

  /** A timed call up to its published step. */
  lemma Publishes(s: State, chan: nat) returns (next: State)
    requires Reachable(s) && s.pc.Out? && Wait(Call, chan) !in s.refs
    ensures Reachable(next)
    ensures next == s.(pc := Published, side := Call, timed := true, phase := PublishedPhase(true),
                       last := s.last[Call := chan], refs := s.refs[Wait(Call, chan) := s.round + 1],
                       round := s.round + 1)
  {
    var s1 := Do(s, StoreChan(Wait(Call, chan), true));
    next := Do(s1, Publish);
  }

  /** A timed call up to its armed step. */
  lemma Starts(s: State, chan: nat) returns (next: State)
    requires Reachable(s) && s.pc.Out? && Wait(Call, chan) !in s.refs
    ensures Reachable(next)
    ensures next == s.(pc := Armed, side := Call, timed := true, phase := ArmedPhase(true),
                       last := s.last[Call := chan], entry := true,
                       refs := s.refs[Wait(Call, chan) := s.round + 1], round := s.round + 1)
  {
    var s1 := Publishes(s, chan);
    next := Do(s1, Arm);
  }

  /** Wake i, not yet under way, clears the timeout. */
  lemma Clears(s: State, i: nat) returns (next: State)
    requires Reachable(s) && i < |s.wakes| && s.wakes[i].stage.Begun?
    ensures Reachable(next)
    ensures next == s.(entry := false, error := s.error || !s.wakes[i].src.Answer?,
                       wakes := Advance(s, i, Cleared(if s.entry then Removed else Absent, s.round)))
  {
    var s1 := s;
    if !s.wakes[i].src.Answer? { s1 := Do(s, StoreError(i)); }
    next := Do(s1, ClearTimeout(i, false));
    assert next.wakes == Advance(s, i, Cleared(if s.entry then Removed else Absent, s.round));
  }

  /** Wake i has cleared and unblocks: a running waiter is skipped, a blocked one wakes. */
  lemma Unblocks(s: State, i: nat) returns (next: State)
    requires Reachable(s) && i < |s.wakes| && s.wakes[i].stage.Cleared?
    ensures Reachable(next)
    ensures next == s.(pc := if s.pc.Blocked? then Woken else s.pc,
      wakes := Advance(s, i, UnblockNow(s, s.wakes[i].src, s.wakes[i].stage.clear, s.wakes[i].stage.at, true)))
  {
    next := Do(s, Unblock(i, true));
  }

  /** A woken caller leaves; it drops its reference only with an error. */
  lemma Leaves(s: State) returns (next: State)
    requires Reachable(s) && s.pc.Woken? && s.side.Call?
    ensures Reachable(next)
    ensures next == s.(pc := Out, phase := IdlePhase, entry := false, error := false,
                       refs := if s.error then s.refs - {WaitOf(s)} else s.refs)
  {
    var s1 := Do(s, EndPhase);
    var s2 := Do(s1, EndEntry);
    next := Do(s2, TakeError);
    if s.error { next := Do(next, DropReference); }
  }

  // Two starts ---------------------------------------------------------------------------

  const ONE := Wait(Call, 1)
  const TWO := Wait(Call, 2)

  /** A timed call on channel 1, published, its reference taken by a reply. */
  lemma PublishedAndTaken() returns (s: State)
    ensures Reachable(s) && s.wakes == [Wake(Answer(ONE, 1), Begun)] && s.refs == map[] && s.round == 1
    ensures s.pc == Published && s.side == Call && s.timed && s.phase == PublishedPhase(true) && LastChan(s, Call) == 1
    ensures !s.entry && !s.error
  {
    FromStart();
    var s1 := Publishes(START, 1);
    s := Do(s1, TakeReference(ONE, false));
    assert s.refs == map[];
  }

  /** The same call blocked, its timeout fired. */
  lemma FiresBlocked() returns (s: State)
    ensures Reachable(s) && s.wakes == [Wake(Answer(ONE, 1), Begun), Wake(Timeout(1), Begun)]
    ensures s.refs == map[] && s.round == 1 && !s.entry && !s.error
    ensures s.pc == Blocked && s.side == Call && s.timed && s.phase == ArmedPhase(true) && LastChan(s, Call) == 1
  {
    var s1 := PublishedAndTaken();
    var s2 := Do(s1, Arm);
    var s3 := Do(s2, Block);
    s := Do(s3, Expire);
  }

  /** The timeout wakes the caller, which leaves; the reply is not under way yet. */
  lemma TimedOut() returns (s: State)
    ensures Reachable(s) && s.pc == Out && s.refs == map[] && s.round == 1 && !s.error
    ensures |s.wakes| == 2 && s.wakes[0] == Wake(Answer(ONE, 1), Begun) && s.wakes[1].src == Timeout(1)
    ensures s.wakes[1].stage.Done?
  {
    var s1 := FiresBlocked();
    var s2 := Clears(s1, 1);
    var s3 := Unblocks(s2, 1);
    s := Leaves(s3);
    assert s.refs == map[];
  }

  /** The reply wakes the caller, which leaves; the timeout has fired and is slow. */
  lemma Replied() returns (s: State)
    ensures Reachable(s) && s.pc == Out && s.refs == map[] && s.round == 1 && !s.error
    ensures |s.wakes| == 2 && s.wakes[0].src == Answer(ONE, 1) && s.wakes[0].stage.Done?
    ensures s.wakes[0].stage.clear == Absent && s.wakes[1] == Wake(Timeout(1), Begun)
  {
    var s1 := FiresBlocked();
    var s2 := Clears(s1, 0);
    var s3 := Unblocks(s2, 0);
    s := Leaves(s3);
  }

  // The runs ------------------------------------------------------------------------------

  /** A reply's clear comes before the caller arms; the timeout then fires. */
  lemma FiresEarly() returns (s: State)
    ensures Reachable(s) && s.wakes == [Wake(Answer(ONE, 1), Cleared(Absent, 1)), Wake(Timeout(1), Begun)]
    ensures s.round == 1 && !s.entry
    ensures s.pc == Armed && s.side == Call && s.timed && s.phase == ArmedPhase(true) && LastChan(s, Call) == 1
  {
    var s1 := PublishedAndTaken();
    var s2 := Clears(s1, 0);
    var s3 := Do(s2, Arm);
    s := Do(s3, Expire);
    assert s.wakes[0] == Wake(Answer(ONE, 1), Cleared(Absent, 1));
  }

  /**
    A timeout spent before the waiter blocks hides a wedge: the skipped reply
    counts latereply, yet the waiter blocks with no timeout to come.
   */
  lemma EarlyTimeoutHidesWedge() returns (s: State)
    ensures Reachable(s) && BlockedAfterSkip(s, 0) && Verdict(s.wakes[0]) == LateReply
    ensures s.timed && s.wakes[0].src.wait == WaitOf(s) && TimeoutSpent(s) && !TimeoutToCome(s)
  {
    var s1 := FiresEarly();
    var s2 := Clears(s1, 1);
    var s3 := Unblocks(s2, 1);
    var s4 := Unblocks(s3, 0);
    s := Do(s4, Block);
    assert s.wakes[1].src == Timeout(1) && s.wakes[1].stage.Done?;
    FateOfPhase(SkipRunning, ArmedPhase(true), 1, 1, Absent);
  }

  /**
    clear_timeout names the thread, not the wait. The first call's timeout does
    wake the caller; its late reply then removes the timeout of the caller's
    next call, on another channel, and counts latereply.
   */
  lemma LateReplyCanRemoveAnotherWaitsTimeout() returns (s: State)
    ensures Reachable(s) && BlockedAfterSkip(s, 0) && Verdict(s.wakes[0]) == LateReply
    ensures s.timed && s.wakes[0].src.took < s.round && Removes(s.wakes[0].stage, s.round) && !TimeoutToCome(s)
  {
    var s1 := TimedOut();
    var s2 := Starts(s1, 2);
    var s3 := Clears(s2, 0);
    var s4 := Unblocks(s3, 0);
    s := Do(s4, Block);
    FateOfPhase(SkipRunning, ArmedPhase(true), 2, 1, Removed);
  }

  /**
    The timeout's own wake clears by thread too: when a reply ends the first
    wait before that wake clears, it removes the next wait's timeout, and its
    skipped unblock is counted by no verdict.
   */
  lemma SlowTimeoutRemovesNextTimeout() returns (s: State)
    ensures Reachable(s) && s.pc.Blocked? && s.timed && !TimeoutToCome(s)
    ensures |s.wakes| == 2 && s.wakes[1].src == Timeout(1) && Removes(s.wakes[1].stage, s.round) && s.round == 2
  {
    var s1 := Replied();
    var s2 := Starts(s1, 1);
    var s3 := Clears(s2, 1);
    var s4 := Unblocks(s3, 1);
    s := Do(s4, Block);
  }

  /** In the second wait a reply removes the entry; the slow timeout then ends that wait, with its error. */
  lemma SecondWaitEnds() returns (s: State)
    ensures Reachable(s) && s.pc == Out && s.refs == map[] && s.round == 2
    ensures |s.wakes| == 3 && s.wakes[2] == Wake(Answer(ONE, 2), Cleared(Removed, 2))
  {
    var s1 := Replied();
    var s2 := Starts(s1, 1);
    var s3 := Do(s2, TakeReference(ONE, false));
    var s4 := Clears(s3, 2);
    var s5 := Do(s4, Block);
    var s6 := Clears(s5, 1);
    var s7 := Unblocks(s6, 1);
    s := Leaves(s7);
    assert s.refs == map[];
  }

  /**
    The other way round, a false alarm: a slow timeout ends the wait whose
    entry the reply removed, and the reply counts rblk although the waiter
    blocks in its next wait on that channel with its entry in place.
   */
  lemma SlowTimeoutRaisesFalseAlarm() returns (s: State)
    ensures Reachable(s) && BlockedAfterSkip(s, 2) && Verdict(s.wakes[2]) == N2(Rblk)
    ensures s.timed && s.wakes[2].src.wait == WaitOf(s) && s.entry
  {
    var s1 := SecondWaitEnds();
    var s2 := Starts(s1, 1);
    var s3 := Unblocks(s2, 2);
    s := Do(s3, Block);
    FateOfPhase(SkipRunning, ArmedPhase(true), 1, 1, Removed);
  }

  /**
    A late reply wakes the caller's next call, counts misrep, and carries no
    error: the caller leaves that call with the channel still naming it, and
    cannot call there again until someone takes that reference.
   */
  lemma MisdirectedReplyLeavesReference() returns (s: State)
    ensures Reachable(s) && s.pc.Out? && TWO in s.refs && s.refs[TWO] == s.round
    ensures |s.wakes| == 2 && s.wakes[0].src.Answer? && s.wakes[0].stage.Done? && Verdict(s.wakes[0]) == Misrep
    ensures forall timed :: !Enabled(s, StoreChan(TWO, timed))
  {
    var s1 := TimedOut();
    var s2 := Starts(s1, 2);
    var s3 := Do(s2, Block);
    var s4 := Clears(s3, 0);
    var s5 := Unblocks(s4, 0);
    s := Leaves(s5);
  }
}
