/**
  When one stamp is stored twice: every stored stamp is traced back to the step
  that read its generation, and two stored stamps are equal exactly when both
  reads were of one CPU with no dispatch on it between them. Whether a dispatch
  came between a read and its CAS does not matter.
 */
module StampReuse {
  import opened OwnerStamp
  import opened LockProtocol

  /** `states` are the states of a run and `steps` the steps between them. */
  predicate IsRun(states: seq<State>, steps: seq<Step>) {
    |states| == |steps| + 1 && forall i :: 0 <= i < |steps| ==> StepAt(states, steps, i)
  }

  predicate StepAt(states: seq<State>, steps: seq<Step>, i: nat)
    requires i < |steps| && |states| == |steps| + 1
  {
    WellFormed(states[i]) && Enabled(states[i], steps[i], true) && states[i + 1] == Apply(states[i], steps[i])
  }

  // Frames and the steps that execute them --------------------------------------------

  predicate HasFrame(s: State, who: Actor, depth: nat) {
    match who
    case Thread(t) => t < |s.stacks| && depth < |s.stacks[t]|
    case Dispatcher(c) => c < |s.modes| && s.modes[c].Dispatches? && depth == 0
  }

  function FrameOf(s: State, who: Actor, depth: nat): Frame
    requires HasFrame(s, who, depth)
  {
    match who
    case Thread(t) => s.stacks[t][depth]
    case Dispatcher(c) => s.modes[c].frame
  }

  /** The step executes the frame at this depth of this actor. */
  predicate Executes(s: State, step: Step, who: Actor, depth: nat)
    requires WellFormed(s) && Enabled(s, step, true)
  {
    step.Exec? && ActorOn(s, step.cpu) == who && DepthOn(s, step.cpu) == depth
  }

  /** The step reads a generation. */
  predicate IsRead(step: Step) {
    step.Exec? && (step.act.ReadGeneration? || step.act.MaskedStamp?)
  }

  /** The CPU whose generation it reads. */
  function ReadCpuOf(s: State, step: Step): nat
    requires WellFormed(s) && Enabled(s, step, true) && IsRead(step)
  {
    if step.act.MaskedStamp? then step.cpu else TopOn(s, step.cpu).pc.cpu
  }

  /** The generation a frame has read and not used yet, with its CPU. */
  predicate HasRead(pc: Pc) {
    pc.ReadGen? || pc.Stamped? || pc.Loaded? || pc.Judged?
  }

  function ReadBy(pc: Pc): Stamp
    requires HasRead(pc)
  {
    if pc.ReadGen? then Stamp(pc.cpu, pc.gen) else pc.me
  }

  lemma OtherFramesStay(s: State, step: Step, who: Actor, depth: nat)
    requires WellFormed(s) && Enabled(s, step, true) && !Executes(s, step, who, depth)
    requires HasFrame(Apply(s, step), who, depth) && FrameOf(Apply(s, step), who, depth) != IDLE_FRAME
    ensures HasFrame(s, who, depth) && FrameOf(Apply(s, step), who, depth) == FrameOf(s, who, depth)
  {
    match step
    case Bump(c) =>
    case Restore(c, t) =>
    case IrqEnter(c) =>
    case IrqReturn(c) =>
    case Exec(c, act) => TopIsFrame(s, c);
  }

  lemma TopIsFrame(s: State, c: nat)
    requires WellFormed(s) && c < |s.modes|
    ensures HasFrame(s, ActorOn(s, c), DepthOn(s, c))
    ensures FrameOf(s, ActorOn(s, c), DepthOn(s, c)) == TopOn(s, c)
  {
  }

  lemma ExecutedFrame(s: State, c: nat, act: Act)
    requires WellFormed(s) && Enabled(s, Exec(c, act), true)
    ensures var s' := Apply(s, Exec(c, act));
            && HasFrame(s', ActorOn(s, c), DepthOn(s, c))
            && var pc, pc' := TopOn(s, c).pc, FrameOf(s', ActorOn(s, c), DepthOn(s, c)).pc;
               HasRead(pc') ==>
                 if IsRead(Exec(c, act)) then
                   var cpu := ReadCpuOf(s, Exec(c, act));
                   cpu < |s.gens| && ReadBy(pc') == Stamp(cpu, s.gens[cpu])
                 else
                   HasRead(pc) && ReadBy(pc') == ReadBy(pc)
  {
  }

  // Where a stamp comes from -------------------------------------------------------------

  predicate ReadsAt(states: seq<State>, steps: seq<Step>, r: nat, who: Actor, depth: nat)
    requires IsRun(states, steps) && r < |steps|
  {
    assert StepAt(states, steps, r);
    IsRead(steps[r]) && Executes(states[r], steps[r], who, depth)
  }

  /** At step j the frame's stamp is what its last generation read, at step r, gave. */
  predicate MadeAt(states: seq<State>, steps: seq<Step>, j: nat, who: Actor, depth: nat, stamp: Stamp, r: nat)
    requires IsRun(states, steps) && j <= |steps|
  {
    && r < j && ReadsAt(states, steps, r, who, depth)
    && ReadGives(states, steps, r, stamp)
    && forall q :: r < q < j ==> !ReadsAt(states, steps, q, who, depth)
  }

  predicate ReadGives(states: seq<State>, steps: seq<Step>, r: nat, stamp: Stamp)
    requires IsRun(states, steps) && r < |steps| && IsRead(steps[r])
  {
    assert StepAt(states, steps, r);
    var cpu := ReadCpuOf(states[r], steps[r]);
    cpu < |states[r].gens| && stamp == Stamp(cpu, states[r].gens[cpu])
  }

  predicate Pending(s: State, who: Actor, depth: nat, stamp: Stamp) {
    HasFrame(s, who, depth) && HasRead(FrameOf(s, who, depth).pc) && ReadBy(FrameOf(s, who, depth).pc) == stamp
  }

  predicate NothingPending(s: State) {
    && (forall t, d :: 0 <= t < |s.stacks| && 0 <= d < |s.stacks[t]| ==> !HasRead(s.stacks[t][d].pc))
    && (forall c :: 0 <= c < |s.modes| && s.modes[c].Dispatches? ==> !HasRead(s.modes[c].frame.pc))
  }

  /** A frame's stamp in any state of a run was read by that frame, and by its last read. */
  lemma {:induction false} StampWasRead(states: seq<State>, steps: seq<Step>, j: nat,
                                        who: Actor, depth: nat, stamp: Stamp) returns (r: nat)
    requires IsRun(states, steps) && j <= |steps| && NothingPending(states[0])
    requires Pending(states[j], who, depth, stamp)
    ensures MadeAt(states, steps, j, who, depth, stamp, r)
    decreases j
  {
    if j == 0 {
      assert false;
    } else {
      var i := j - 1;
      assert StepAt(states, steps, i);
      if ReadsAt(states, steps, i, who, depth) {
        r := i;
        ExecutedFrame(states[i], steps[i].cpu, steps[i].act);
      } else {
        PendingBefore(states[i], steps[i], who, depth, stamp);
        r := StampWasRead(states, steps, i, who, depth, stamp);
      }
    }
  }

  lemma PendingBefore(s: State, step: Step, who: Actor, depth: nat, stamp: Stamp)
    requires WellFormed(s) && Enabled(s, step, true) && Pending(Apply(s, step), who, depth, stamp)
    requires !(IsRead(step) && Executes(s, step, who, depth))
    ensures Pending(s, who, depth, stamp)
  {
    if Executes(s, step, who, depth) {
      TopIsFrame(s, step.cpu);
      ExecutedFrame(s, step.cpu, step.act);
    } else {
      OtherFramesStay(s, step, who, depth);
    }
  }

  // Equal stamps ----------------------------------------------------------------------------

  predicate NoBump(steps: seq<Step>, a: nat, b: nat, cpu: nat) {
    forall i :: a <= i < b && i < |steps| ==> steps[i] != Bump(cpu)
  }

  lemma {:induction false} GenerationsGrow(states: seq<State>, steps: seq<Step>, a: nat, b: nat, cpu: nat)
    requires IsRun(states, steps) && a <= b <= |steps| && cpu < |states[a].gens|
    ensures |states[b].gens| == |states[a].gens|
    ensures states[a].gens[cpu] <= states[b].gens[cpu]
    ensures states[a].gens[cpu] == states[b].gens[cpu] <==> NoBump(steps, a, b, cpu)
    decreases b
  {
    if a == b {
    } else {
      GenerationsGrow(states, steps, a, b - 1, cpu);
      assert StepAt(states, steps, b - 1);
      OneStepGrows(states[b - 1], steps[b - 1], cpu);
    }
  }

  lemma OneStepGrows(s: State, step: Step, cpu: nat)
    requires WellFormed(s) && Enabled(s, step, true) && cpu < |s.gens|
    ensures var s' := Apply(s, step);
            && |s'.gens| == |s.gens|
            && s'.gens[cpu] == s.gens[cpu] + if step == Bump(cpu) then 1 else 0
  {
  }

  /** Step j puts this stamp in the lock word: it takes the lock or restamps it. */
  predicate Stores(states: seq<State>, steps: seq<Step>, j: nat, stamp: Stamp)
    requires IsRun(states, steps) && j < |steps|
  {
    assert StepAt(states, steps, j);
    && steps[j].Exec? && (steps[j].act.TryLock? || steps[j].act.Restamp?)
    && TopOn(states[j], steps[j].cpu).pc.me == stamp
  }

  /** Step r is the read that gave step j the stamp it stores. */
  predicate ReadFor(states: seq<State>, steps: seq<Step>, j: nat, stamp: Stamp, r: nat)
    requires IsRun(states, steps) && j < |steps|
  {
    assert StepAt(states, steps, j);
    && steps[j].Exec?
    && MadeAt(states, steps, j, ActorOn(states[j], steps[j].cpu), DepthOn(states[j], steps[j].cpu), stamp, r)
  }

  lemma StoredStampWasRead(states: seq<State>, steps: seq<Step>, j: nat, stamp: Stamp) returns (r: nat)
    requires IsRun(states, steps) && j < |steps| && NothingPending(states[0]) && Stores(states, steps, j, stamp)
    ensures ReadFor(states, steps, j, stamp, r) && states[j + 1].word.Held? && states[j + 1].word.stamp == stamp
  {
    assert StepAt(states, steps, j);
    var c := steps[j].cpu;
    TopIsFrame(states[j], c);
    r := StampWasRead(states, steps, j, ActorOn(states[j], c), DepthOn(states[j], c), stamp);
  }

  /**
    Two steps of a run store the same stamp exactly when the two reads their
    stamps come from were of the same CPU with no dispatch on it between them.
   */
  lemma StoredTwiceExactly(states: seq<State>, steps: seq<Step>, i: nat, j: nat, a: Stamp, b: Stamp)
    returns (ri: nat, rj: nat)
    requires IsRun(states, steps) && NothingPending(states[0])
    requires i < j < |steps| && Stores(states, steps, i, a) && Stores(states, steps, j, b)
    ensures ReadFor(states, steps, i, a, ri) && ReadFor(states, steps, j, b, rj)
    ensures a == b <==> a.cpu == b.cpu && NoBump(steps, ri, rj, a.cpu) && NoBump(steps, rj, ri, a.cpu)
  {
    ri := StoredStampWasRead(states, steps, i, a);
    rj := StoredStampWasRead(states, steps, j, b);
    if a.cpu == b.cpu {
      if ri <= rj {
        GenerationsGrow(states, steps, ri, rj, a.cpu);
      } else {
        GenerationsGrow(states, steps, rj, ri, a.cpu);
      }
    }
  }

  // A dispatch between the two stores -----------------------------------------------------

  /** Two CPUs, one thread of one frame. CPU 1 is in generation 0. */
  function TwoCpus(gen: nat, m0: Mode, m1: Mode, f: Frame, word: Word): State {
    State([gen, 0], [m0, m1], [[f]], word)
  }

  const OFF := Dispatches(IDLE_FRAME)
  const ON := Runs(0)

  lemma ThreadSteps(c: nat, act: Act, gen: nat, m0: Mode, m1: Mode, f: Frame, word: Word, f': Frame, word': Word)
    requires c < 2 && [m0, m1][c] == ON && WellFormed(TwoCpus(gen, m0, m1, f, word))
    requires CanExec(TwoCpus(gen, m0, m1, f, word), c, act)
    requires DoExec(TwoCpus(gen, m0, m1, f, word), c, act)
        == SetTop(TwoCpus(gen, m0, m1, f, word), c, f').(word := word')
    ensures Enabled(TwoCpus(gen, m0, m1, f, word), Exec(c, act), true)
    ensures Apply(TwoCpus(gen, m0, m1, f, word), Exec(c, act)) == TwoCpus(gen, m0, m1, f', word')
  {
    assert [f][0 := f'] == [f'];
    assert [[f]][0 := [f']] == [[f']];
  }

  lemma Grow(states: seq<State>, steps: seq<Step>, step: Step, s': State) returns (all: seq<State>, whole: seq<Step>)
    requires IsRun(states, steps)
    requires var s := states[|steps|]; WellFormed(s) && Enabled(s, step, true) && Apply(s, step) == s'
    ensures all == states + [s'] && whole == steps + [step] && IsRun(all, whole)
  {
    all, whole := states + [s'], steps + [step];
    forall i | 0 <= i < |whole| ensures StepAt(all, whole, i) {
      if i < |steps| { assert StepAt(states, steps, i); }
    }
  }

  /** A thread is restored on CPU 0 and stamps itself. */
  lemma Started(me: Stamp) returns (states: seq<State>, steps: seq<Step>)
    requires me == Stamp(0, 0)
    ensures |steps| == 2 && IsRun(states, steps) && Initial(states[0])
    ensures states[2] == TwoCpus(0, ON, OFF, Frame(Stamped(me), false), Word.Free)
  {
    states, steps := [TwoCpus(0, OFF, OFF, IDLE_FRAME, Word.Free)], [];
    assert [OFF, OFF][0 := ON] == [ON, OFF];
    states, steps := Grow(states, steps, Restore(0, 0), TwoCpus(0, ON, OFF, IDLE_FRAME, Word.Free));
    var stamped := Frame(Stamped(me), false);
    ThreadSteps(0, MaskedStamp, 0, ON, OFF, IDLE_FRAME, Word.Free, stamped, Word.Free);
    states, steps := Grow(states, steps, Exec(0, MaskedStamp), TwoCpus(0, ON, OFF, stamped, Word.Free));
  }

  /** It takes the lock and releases it. */
  lemma Taken(states: seq<State>, steps: seq<Step>, me: Stamp) returns (all: seq<State>, whole: seq<Step>)
    requires me == Stamp(0, 0) && IsRun(states, steps)
    requires states[|steps|] == TwoCpus(0, ON, OFF, Frame(Stamped(me), false), Word.Free)
    ensures IsRun(all, whole) && states <= all && steps <= whole && |whole| == |steps| + 2
    ensures all[|whole|] == TwoCpus(0, ON, OFF, IDLE_FRAME, Word.Free)
    ensures whole[|steps|] == Exec(0, TryLock)
  {
    var held, stamped, holding := Held(me, Thread(0), 0, me), Frame(Stamped(me), false), Frame(Idle, true);
    ThreadSteps(0, TryLock, 0, ON, OFF, stamped, Word.Free, holding, held);
    all, whole := Grow(states, steps, Exec(0, TryLock), TwoCpus(0, ON, OFF, holding, held));
    ThreadSteps(0, Release, 0, ON, OFF, holding, held, IDLE_FRAME, Word.Free);
    all, whole := Grow(all, whole, Exec(0, Release), TwoCpus(0, ON, OFF, IDLE_FRAME, Word.Free));
  }

  /** It reads its CPU and the generation again, without masking IRQs. */
  lemma ReadAgain(states: seq<State>, steps: seq<Step>) returns (all: seq<State>, whole: seq<Step>)
    requires IsRun(states, steps) && states[|steps|] == TwoCpus(0, ON, OFF, IDLE_FRAME, Word.Free)
    ensures IsRun(all, whole) && states <= all && steps <= whole && |whole| == |steps| + 2
    ensures all[|whole|] == TwoCpus(0, ON, OFF, Frame(ReadGen(0, 0), false), Word.Free)
  {
    var cpuRead, genRead := Frame(ReadCpu(0), false), Frame(ReadGen(0, 0), false);
    ThreadSteps(0, BeginStamp, 0, ON, OFF, IDLE_FRAME, Word.Free, cpuRead, Word.Free);
    all, whole := Grow(states, steps, Exec(0, BeginStamp), TwoCpus(0, ON, OFF, cpuRead, Word.Free));
    ThreadSteps(0, ReadGeneration, 0, ON, OFF, cpuRead, Word.Free, genRead, Word.Free);
    all, whole := Grow(all, whole, Exec(0, ReadGeneration), TwoCpus(0, ON, OFF, genRead, Word.Free));
  }

  /** So it stamps itself again there. */
  lemma StampedAgain(states: seq<State>, steps: seq<Step>, me: Stamp) returns (all: seq<State>, whole: seq<Step>)
    requires me == Stamp(0, 0) && IsRun(states, steps)
    requires states[|steps|] == TwoCpus(0, ON, OFF, IDLE_FRAME, Word.Free)
    ensures IsRun(all, whole) && states <= all && steps <= whole && |whole| == |steps| + 3
    ensures all[|whole|] == TwoCpus(0, ON, OFF, Frame(Stamped(me), false), Word.Free)
  {
    all, whole := ReadAgain(states, steps);
    var stamped := Frame(Stamped(me), false);
    ThreadSteps(0, CheckCpu, 0, ON, OFF, Frame(ReadGen(0, 0), false), Word.Free, stamped, Word.Free);
    all, whole := Grow(all, whole, Exec(0, CheckCpu), TwoCpus(0, ON, OFF, stamped, Word.Free));
  }

  /** CPU 0 dispatches, CPU 1 restores the thread, and the thread takes the lock there. */
  lemma TakenElsewhere(states: seq<State>, steps: seq<Step>, me: Stamp) returns (all: seq<State>, whole: seq<Step>)
    requires me == Stamp(0, 0) && IsRun(states, steps)
    requires states[|steps|] == TwoCpus(0, ON, OFF, Frame(Stamped(me), false), Word.Free)
    ensures IsRun(all, whole) && states <= all && steps <= whole && |whole| == |steps| + 3
    ensures whole[|steps|] == Bump(0) && whole[|steps| + 2] == Exec(1, TryLock)
    ensures all[|steps| + 2] == TwoCpus(1, OFF, ON, Frame(Stamped(me), false), Word.Free)
  {
    var stamped, holding := Frame(Stamped(me), false), Frame(Idle, true);
    var held := Held(me, Thread(0), 0, Stamp(1, 0));
    assert [0, 0][0 := 1] == [1, 0] && [ON, OFF][0 := OFF] == [OFF, OFF];
    all, whole := Grow(states, steps, Bump(0), TwoCpus(1, OFF, OFF, stamped, Word.Free));
    assert [OFF, OFF][1 := ON] == [OFF, ON];
    all, whole := Grow(all, whole, Restore(1, 0), TwoCpus(1, OFF, ON, stamped, Word.Free));
    ThreadSteps(1, TryLock, 1, OFF, ON, stamped, Word.Free, holding, held);
    all, whole := Grow(all, whole, Exec(1, TryLock), TwoCpus(1, OFF, ON, holding, held));
  }

  /** A thread stores one stamp twice with a dispatch between the stores, and the second time on another CPU. */
  lemma RetakenAfterDispatch() returns (states: seq<State>, steps: seq<Step>, i: nat, k: nat, j: nat)
    ensures IsRun(states, steps) && Initial(states[0]) && i < k < j < |steps|
    ensures Stores(states, steps, i, Stamp(0, 0)) && Stores(states, steps, j, Stamp(0, 0))
    ensures steps[k] == Bump(0) && steps[i].cpu == 0 && steps[j].cpu == 1
  {
    var me := Stamp(0, 0);
    var states1, steps1 := Started(me);
    var states2, steps2 := Taken(states1, steps1, me);
    var states3, steps3 := StampedAgain(states2, steps2, me);
    states, steps := TakenElsewhere(states3, steps3, me);
    i, k, j := 2, 7, 9;
    assert states[2] == states1[2] && steps[2] == steps2[2] && states[0] == states1[0];
  }
}
