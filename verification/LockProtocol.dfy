/**
  The owner-stamped lock as an interleaving machine: any number of CPUs and
  threads, each thread a stack of frames (its own code and the IRQ handlers
  nested on it), every read of the CPU id, the switch generation and the lock
  word a step of its own. Steps of different CPUs interleave freely, and a
  thread can be switched out, and resumed on any CPU, between any two of them.

  The kernel's rules are the guards of two steps. Bump is the only way a thread
  leaves a CPU and Restore the only way one starts (rule (a)); Restore needs a
  dispatcher that holds no guard (rule (b)) and a thread that runs nowhere else
  (rule (c)). Steps are sequentially consistent.
 */
module LockProtocol {
  import opened OwnerStamp

  /**
    Who executes on a CPU: a thread with the IRQs nested on it, or the dispatch
    code between a bump and its restore.
   */
  datatype Actor = Thread(tid: nat) | Dispatcher(cpu: nat)

  /**
    The lock word. `owner` and `depth` name the actor and the frame that stored
    the stamp, `stream` the CPU and generation it was running in; the program
    reads only `stamp`.
   */
  datatype Word = Free | Held(stamp: Stamp, owner: Actor, depth: nat, stream: Stamp)

  /** Where a frame is inside read_stamp, lock and classify. */
  datatype Pc =
    | Idle
    | ReadCpu(cpu: nat)
    | ReadGen(cpu: nat, gen: nat)
    | Stamped(me: Stamp)
    | Loaded(me: Stamp, seen: Word)
    | Judged(me: Stamp, seen: Word, verdict: Contention)

  datatype Frame = Frame(pc: Pc, holds: bool)

  datatype Mode = Runs(tid: nat) | Dispatches(frame: Frame)

  datatype State = State(gens: seq<nat>, modes: seq<Mode>, stacks: seq<seq<Frame>>, word: Word)

  /** One step of the code executing on a CPU. */
  datatype Act =
    | BeginStamp    // read_stamp: the first CPU read
    | ReadGeneration
    | CheckCpu      // read_stamp: the second CPU read
    | MaskedStamp   // CPU and generation with IRQs masked
    | TryLock       // a CAS that succeeds; a failing one changes nothing
    | LoadWord
    | Classify      // the generation read of classify, and its verdict
    | Retry         // CAS again with the same stamp
    | Leave         // give up, or start over with a fresh stamp
    | Restamp
    | Release

  datatype Step =
    | Bump(cpu: nat)
    | Restore(cpu: nat, tid: nat)
    | IrqEnter(cpu: nat)
    | IrqReturn(cpu: nat)
    | Exec(cpu: nat, act: Act)

  const IDLE_FRAME := Frame(Idle, false)

  // The code on a CPU ---------------------------------------------------------

  predicate WellFormed(s: State) {
    && |s.gens| == |s.modes|
    && (forall t :: 0 <= t < |s.stacks| ==> |s.stacks[t]| > 0)
    && (forall c :: 0 <= c < |s.modes| && s.modes[c].Runs? ==> s.modes[c].tid < |s.stacks|)
  }

  function ActorOn(s: State, c: nat): Actor
    requires c < |s.modes|
  {
    match s.modes[c] case Runs(t) => Thread(t) case Dispatches(_) => Dispatcher(c)
  }

  function DepthOn(s: State, c: nat): nat
    requires WellFormed(s) && c < |s.modes|
  {
    match s.modes[c] case Runs(t) => |s.stacks[t]| - 1 case Dispatches(_) => 0
  }

  function TopOn(s: State, c: nat): Frame
    requires WellFormed(s) && c < |s.modes|
  {
    match s.modes[c] case Runs(t) => s.stacks[t][|s.stacks[t]| - 1] case Dispatches(f) => f
  }

  function SetTop(s: State, c: nat, f: Frame): State
    requires WellFormed(s) && c < |s.modes|
  {
    match s.modes[c]
    case Runs(t) => s.(stacks := s.stacks[t := s.stacks[t][|s.stacks[t]| - 1 := f]])
    case Dispatches(_) => s.(modes := s.modes[c := Dispatches(f)])
  }

  function StreamOn(s: State, c: nat): Stamp
    requires c < |s.gens|
  {
    Stamp(c, s.gens[c])
  }

  /** The verdict classify reaches on a loaded word with the generations as they are now. */
  function Verdict(s: State, me: Stamp, seen: Word): Contention
    requires seen.Held? ==> seen.stamp.cpu < |s.gens|
  {
    if seen.Free? then Contention.Free else Judge(seen.stamp, me, s.gens[seen.stamp.cpu])
  }

  // Steps ---------------------------------------------------------------------

  predicate CanExec(s: State, c: nat, act: Act)
    requires WellFormed(s) && c < |s.modes|
  {
    var f := TopOn(s, c);
    match act
    case BeginStamp => f.pc.Idle?
    case ReadGeneration => f.pc.ReadCpu? && f.pc.cpu < |s.gens|
    case CheckCpu => f.pc.ReadGen?
    case MaskedStamp => f.pc.Idle?
    case TryLock => f.pc.Stamped? && s.word.Free?
    case LoadWord => f.pc.Stamped?
    case Classify => f.pc.Loaded? && (f.pc.seen.Held? ==> f.pc.seen.stamp.cpu < |s.gens|)
    case Retry => f.pc.Judged?
    case Leave => !f.pc.Idle?
    case Restamp => f.pc.Stamped? && f.holds && s.word.Held?
    case Release => f.pc.Idle? && f.holds
  }

  function DoExec(s: State, c: nat, act: Act): State
    requires WellFormed(s) && c < |s.modes| && CanExec(s, c, act)
  {
    var f := TopOn(s, c);
    match act
    case BeginStamp => SetTop(s, c, f.(pc := ReadCpu(c)))
    case ReadGeneration => SetTop(s, c, f.(pc := ReadGen(f.pc.cpu, s.gens[f.pc.cpu])))
    case CheckCpu => SetTop(s, c, f.(pc := if f.pc.cpu == c then Stamped(Stamp(c, f.pc.gen)) else Idle))
    case MaskedStamp => SetTop(s, c, f.(pc := Stamped(StreamOn(s, c))))
    case TryLock =>
      SetTop(s, c, Frame(Idle, true)).(word := Held(f.pc.me, ActorOn(s, c), DepthOn(s, c), StreamOn(s, c)))
    case LoadWord => SetTop(s, c, f.(pc := Loaded(f.pc.me, s.word)))
    case Classify => SetTop(s, c, f.(pc := Judged(f.pc.me, f.pc.seen, Verdict(s, f.pc.me, f.pc.seen))))
    case Retry => SetTop(s, c, f.(pc := Stamped(f.pc.me)))
    case Leave => SetTop(s, c, f.(pc := Idle))
    case Restamp =>
      SetTop(s, c, f.(pc := Idle)).(word := s.word.(stamp := f.pc.me, stream := StreamOn(s, c)))
    case Release => SetTop(s, c, IDLE_FRAME).(word := Word.Free)
  }

  predicate RunsNowhere(s: State, t: nat) {
    forall c :: 0 <= c < |s.modes| ==> s.modes[c] != Runs(t)
  }

  /** `ruleB` false drops rule (b): a dispatcher may restore a thread while it holds a guard. */
  predicate Enabled(s: State, step: Step, ruleB: bool)
    requires WellFormed(s)
  {
    step.cpu < |s.modes| &&
    match step
    case Bump(c) => true
    case Restore(c, t) =>
      && s.modes[c].Dispatches? && t < |s.stacks| && RunsNowhere(s, t)
      && (ruleB ==> !s.modes[c].frame.holds)
    case IrqEnter(c) => s.modes[c].Runs?
    case IrqReturn(c) => s.modes[c].Runs? && DepthOn(s, c) > 0 && TopOn(s, c) == IDLE_FRAME
    case Exec(c, act) => CanExec(s, c, act)
  }

  function Apply(s: State, step: Step): State
    requires WellFormed(s) && Enabled(s, step, false)
  {
    match step
    case Bump(c) =>
      var f := if s.modes[c].Dispatches? then s.modes[c].frame else IDLE_FRAME;
      s.(gens := s.gens[c := s.gens[c] + 1], modes := s.modes[c := Dispatches(f)])
    case Restore(c, t) => s.(modes := s.modes[c := Runs(t)])
    case IrqEnter(c) =>
      var t := s.modes[c].tid;
      s.(stacks := s.stacks[t := s.stacks[t] + [IDLE_FRAME]])
    case IrqReturn(c) =>
      var t := s.modes[c].tid;
      s.(stacks := s.stacks[t := s.stacks[t][..|s.stacks[t]| - 1]])
    case Exec(c, act) => DoExec(s, c, act)
  }

  /** Any number of CPUs, all dispatching for the first time; any number of threads; a free lock. */
  predicate Initial(s: State) {
    && WellFormed(s)
    && (forall c :: 0 <= c < |s.modes| ==> s.modes[c] == Dispatches(IDLE_FRAME))
    && (forall t :: 0 <= t < |s.stacks| ==> s.stacks[t] == [IDLE_FRAME])
    && s.word == Word.Free
  }

  /** `steps` is a run from s to s'. */
  predicate Run(s: State, steps: seq<Step>, s': State, ruleB: bool)
    decreases |steps|
  {
    if steps == [] then s == s'
    else WellFormed(s) && Enabled(s, steps[0], ruleB) && Run(Apply(s, steps[0]), steps[1..], s', ruleB)
  }

  ghost predicate Reachable(s: State) {
    exists s0, steps :: Initial(s0) && Run(s0, steps, s, true)
  }

  // What every step keeps -------------------------------------------------------

  predicate At(s: State, a: Actor, c: nat) {
    c < |s.modes| && ActorOn(s, c) == a
  }

  /** A stamp names the current generation of the CPU its taker is on, or one that has ended. */
  predicate StampOk(s: State, a: Actor, st: Stamp) {
    && st.cpu < |s.gens| && st.gen <= s.gens[st.cpu]
    && (st.gen == s.gens[st.cpu] ==> At(s, a, st.cpu))
  }

  predicate WordOk(s: State) {
    s.word.Held? ==>
      && StampOk(s, s.word.owner, s.word.stamp)
      && (s.word.stamp.gen == s.gens[s.word.stamp.cpu] ==> s.word.stream == s.word.stamp)
  }

  /**
    What a frame at depth d of actor a knows about a word it loaded. A word
    with the frame's own, still current, stamp was stored by the same actor in
    that generation; a word stored by the same actor is still in the lock, from
    the same or a lower frame.
   */
  predicate SeenOk(s: State, a: Actor, d: nat, me: Stamp, seen: Word) {
    seen.Held? ==>
      && seen.stamp.cpu < |s.gens| && seen.stamp.gen <= s.gens[seen.stamp.cpu]
      && (seen.stamp == me && me.cpu < |s.gens| && me.gen == s.gens[me.cpu] ==> seen.owner == a && seen.stream == me)
      && (seen.owner == a ==> s.word == seen && seen.depth <= d)
  }

  predicate PcOk(s: State, a: Actor, d: nat, pc: Pc) {
    match pc
    case Idle => true
    case ReadCpu(c) => c < |s.gens|
    case ReadGen(c, g) => c < |s.gens| && g <= s.gens[c]
    case Stamped(me) => StampOk(s, a, me)
    case Loaded(me, seen) => StampOk(s, a, me) && SeenOk(s, a, d, me, seen)
    case Judged(me, seen, v) =>
      && StampOk(s, a, me) && SeenOk(s, a, d, me, seen)
      && (v == Reentry ==> seen.Held? && seen.owner == a && seen.stream == me)
  }

  /** A frame holds the guard exactly when the word names it. */
  predicate HoldsOk(s: State, a: Actor, d: nat, f: Frame) {
    f.holds <==> s.word.Held? && s.word.owner == a && s.word.depth == d
  }

  predicate FrameOk(s: State, a: Actor, d: nat, f: Frame) {
    PcOk(s, a, d, f.pc) && HoldsOk(s, a, d, f)
  }

  predicate HolderExists(s: State) {
    s.word.Held? ==>
      match s.word.owner
      case Thread(t) => t < |s.stacks| && s.word.depth < |s.stacks[t]|
      case Dispatcher(c) => c < |s.modes| && s.modes[c].Dispatches? && s.word.depth == 0
  }

  predicate OneCpuPerThread(s: State) {
    forall c, d :: 0 <= c < |s.modes| && 0 <= d < |s.modes| && s.modes[c].Runs? && s.modes[c] == s.modes[d] ==> c == d
  }

  predicate ThreadsOk(s: State) {
    forall t, d :: 0 <= t < |s.stacks| && 0 <= d < |s.stacks[t]| ==> FrameOk(s, Thread(t), d, s.stacks[t][d])
  }

  predicate DispatchersOk(s: State) {
    forall c :: 0 <= c < |s.modes| && s.modes[c].Dispatches? ==> FrameOk(s, Dispatcher(c), 0, s.modes[c].frame)
  }

  predicate Inv(s: State) {
    WellFormed(s) && OneCpuPerThread(s) && WordOk(s) && HolderExists(s) && ThreadsOk(s) && DispatchersOk(s)
  }

  // Preservation -----------------------------------------------------------------

  /** s' follows s without taking actor a off a CPU except by ending that CPU's generation. */
  predicate Follows(s: State, s': State, a: Actor) {
    && |s.gens| == |s'.gens|
    && (forall c :: 0 <= c < |s.gens| ==> s.gens[c] <= s'.gens[c])
    && (forall c :: 0 <= c < |s.gens| && s.gens[c] == s'.gens[c] && At(s, a, c) ==> At(s', a, c))
  }

  /** From s to s' the word kept its value, or it changed hands without involving frames 0..=d of actor a. */
  predicate WordKeeps(s: State, s': State, a: Actor, d: nat) {
    s'.word == s.word || (
      && (s.word.Held? && s.word.owner == a ==> d < s.word.depth)
      && (s'.word.Held? && s'.word.owner == a ==> d < s'.word.depth))
  }

  /** A frame the step does not execute keeps its invariant. */
  lemma KeepFrame(s: State, s': State, a: Actor, d: nat, f: Frame)
    requires FrameOk(s, a, d, f) && Follows(s, s', a) && WordKeeps(s, s', a, d)
    ensures FrameOk(s', a, d, f)
  {
  }

  lemma KeepWord(s: State, s': State)
    requires WordOk(s) && s'.word == s.word && (s.word.Held? ==> Follows(s, s', s.word.owner))
    ensures WordOk(s')
  {
  }

  lemma BumpKeepsInv(s: State, c: nat)
    requires Inv(s) && Enabled(s, Bump(c), true)
    ensures Inv(Apply(s, Bump(c)))
  {
    var s' := Apply(s, Bump(c));
    forall a ensures Follows(s, s', a) { }
    KeepWord(s, s');
    forall t, d | 0 <= t < |s'.stacks| && 0 <= d < |s'.stacks[t]|
      ensures FrameOk(s', Thread(t), d, s'.stacks[t][d])
    { KeepFrame(s, s', Thread(t), d, s.stacks[t][d]); }
    forall x | 0 <= x < |s'.modes| && s'.modes[x].Dispatches?
      ensures FrameOk(s', Dispatcher(x), 0, s'.modes[x].frame)
    {
      if s.modes[x].Dispatches? { KeepFrame(s, s', Dispatcher(x), 0, s.modes[x].frame); }
    }
  }

  lemma RestoreKeepsInv(s: State, c: nat, t: nat)
    requires Inv(s) && Enabled(s, Restore(c, t), true)
    ensures Inv(Apply(s, Restore(c, t)))
  {
    var s' := Apply(s, Restore(c, t));
    assert s.word.Held? ==> s.word.owner != Dispatcher(c);
    forall a | a != Dispatcher(c) ensures Follows(s, s', a) { }
    KeepWord(s, s');
    forall u, d | 0 <= u < |s'.stacks| && 0 <= d < |s'.stacks[u]|
      ensures FrameOk(s', Thread(u), d, s'.stacks[u][d])
    { KeepFrame(s, s', Thread(u), d, s.stacks[u][d]); }
    forall x | 0 <= x < |s'.modes| && s'.modes[x].Dispatches?
      ensures FrameOk(s', Dispatcher(x), 0, s'.modes[x].frame)
    { KeepFrame(s, s', Dispatcher(x), 0, s.modes[x].frame); }
  }

  lemma IrqKeepsInv(s: State, step: Step)
    requires Inv(s) && (step.IrqEnter? || step.IrqReturn?) && Enabled(s, step, true)
    ensures Inv(Apply(s, step))
  {
    var s' := Apply(s, step);
    forall a ensures Follows(s, s', a) { }
    KeepWord(s, s');
    var t := s.modes[step.cpu].tid;
    assert step.IrqReturn? ==> !s.stacks[t][|s.stacks[t]| - 1].holds;
    forall u, d | 0 <= u < |s'.stacks| && 0 <= d < |s'.stacks[u]|
      ensures FrameOk(s', Thread(u), d, s'.stacks[u][d])
    {
      if d < |s.stacks[u]| { KeepFrame(s, s', Thread(u), d, s.stacks[u][d]); }
    }
    forall x | 0 <= x < |s'.modes| && s'.modes[x].Dispatches?
      ensures FrameOk(s', Dispatcher(x), 0, s'.modes[x].frame)
    { KeepFrame(s, s', Dispatcher(x), 0, s.modes[x].frame); }
  }

  /** s' is s after the code on c moved its frame to f and perhaps changed a word only that frame holds. */
  predicate MovesTop(s: State, c: nat, f: Frame, s': State)
    requires WellFormed(s)
  {
    && c < |s.modes| && s' == SetTop(s, c, f).(word := s'.word)
    && (s'.word == s.word || (
        && (s.word.Held? ==> s.word.owner == ActorOn(s, c) && s.word.depth == DepthOn(s, c))
        && (s'.word.Held? ==> s'.word.owner == ActorOn(s, c) && s'.word.depth == DepthOn(s, c))))
  }

  lemma OtherThreadsKeep(s: State, c: nat, f: Frame, s': State, t: nat, d: nat)
    requires Inv(s) && MovesTop(s, c, f, s') && FrameOk(s', ActorOn(s, c), DepthOn(s, c), f)
    requires t < |s'.stacks| && d < |s'.stacks[t]|
    ensures FrameOk(s', Thread(t), d, s'.stacks[t][d])
  {
    if Thread(t) != ActorOn(s, c) || d != DepthOn(s, c) {
      assert Follows(s, s', Thread(t));
      KeepFrame(s, s', Thread(t), d, s.stacks[t][d]);
    }
  }

  lemma OtherDispatchersKeep(s: State, c: nat, f: Frame, s': State, x: nat)
    requires Inv(s) && MovesTop(s, c, f, s') && FrameOk(s', ActorOn(s, c), DepthOn(s, c), f)
    requires x < |s'.modes| && s'.modes[x].Dispatches?
    ensures FrameOk(s', Dispatcher(x), 0, s'.modes[x].frame)
  {
    if x != c {
      assert Follows(s, s', Dispatcher(x));
      KeepFrame(s, s', Dispatcher(x), 0, s.modes[x].frame);
    }
  }

  /** After a step of the code on c the invariant holds if it holds of the executing frame and the word. */
  lemma OthersKeep(s: State, c: nat, f: Frame, s': State)
    requires Inv(s) && MovesTop(s, c, f, s') && FrameOk(s', ActorOn(s, c), DepthOn(s, c), f)
    requires WordOk(s') && HolderExists(s')
    ensures Inv(s')
  {
    forall t, d | 0 <= t < |s'.stacks| && 0 <= d < |s'.stacks[t]|
      ensures FrameOk(s', Thread(t), d, s'.stacks[t][d])
    { OtherThreadsKeep(s, c, f, s', t, d); }
    forall x | 0 <= x < |s'.modes| && s'.modes[x].Dispatches?
      ensures FrameOk(s', Dispatcher(x), 0, s'.modes[x].frame)
    { OtherDispatchersKeep(s, c, f, s', x); }
  }

  lemma TopIsOk(s: State, c: nat)
    requires Inv(s) && c < |s.modes|
    ensures FrameOk(s, ActorOn(s, c), DepthOn(s, c), TopOn(s, c))
  {
  }

  predicate WritesWord(act: Act) {
    act.TryLock? || act.Restamp? || act.Release?
  }

  /** The executing frame after a step that leaves the word alone, judged in the state before it. */
  /** The acts that load or judge the lock word. */
  predicate LooksAtWord(act: Act) {
    act.LoadWord? || act.Classify? || act.Retry?
  }

  lemma StampingTopIsOk(s: State, c: nat, act: Act)
    requires Inv(s) && Enabled(s, Exec(c, act), true) && !WritesWord(act) && !LooksAtWord(act)
    ensures FrameOk(s, ActorOn(s, c), DepthOn(s, c), TopOn(DoExec(s, c, act), c))
  {
    TopIsOk(s, c);
  }

  lemma LookingTopIsOk(s: State, c: nat, act: Act)
    requires Inv(s) && Enabled(s, Exec(c, act), true) && LooksAtWord(act)
    ensures FrameOk(s, ActorOn(s, c), DepthOn(s, c), TopOn(DoExec(s, c, act), c))
  {
    TopIsOk(s, c);
  }

  lemma NewTopIsOk(s: State, c: nat, act: Act)
    requires Inv(s) && Enabled(s, Exec(c, act), true) && !WritesWord(act)
    ensures FrameOk(s, ActorOn(s, c), DepthOn(s, c), TopOn(DoExec(s, c, act), c))
  {
    if LooksAtWord(act) {
      LookingTopIsOk(s, c, act);
    } else {
      StampingTopIsOk(s, c, act);
    }
  }

  /** Steps that only move the executing frame's own program counter. */
  lemma PcStepKeepsInv(s: State, c: nat, act: Act)
    requires Inv(s) && Enabled(s, Exec(c, act), true) && !WritesWord(act)
    ensures Inv(DoExec(s, c, act))
  {
    NewTopIsOk(s, c, act);
    var s' := DoExec(s, c, act);
    var f := TopOn(s', c);
    assert s' == SetTop(s, c, f);
    FrameStepKeepsInv(s, c, f);
  }

  lemma FrameStepKeepsInv(s: State, c: nat, f: Frame)
    requires Inv(s) && c < |s.modes| && FrameOk(s, ActorOn(s, c), DepthOn(s, c), f)
    ensures Inv(SetTop(s, c, f))
  {
    var s' := SetTop(s, c, f);
    forall a ensures Follows(s, s', a) { }
    KeepWord(s, s');
    KeepFrame(s, s', ActorOn(s, c), DepthOn(s, c), f);
    OthersKeep(s, c, f, s');
  }

  /** Steps that write the lock word. */
  lemma WordStepKeepsInv(s: State, c: nat, act: Act)
    requires Inv(s) && Enabled(s, Exec(c, act), true) && WritesWord(act)
    ensures Inv(DoExec(s, c, act))
  {
    TopIsOk(s, c);
    var s' := DoExec(s, c, act);
    OthersKeep(s, c, TopOn(s', c), s');
  }

  lemma StepKeepsInv(s: State, step: Step)
    requires Inv(s) && Enabled(s, step, true)
    ensures Inv(Apply(s, step))
  {
    match step
    case Bump(c) => BumpKeepsInv(s, c);
    case Restore(c, t) => RestoreKeepsInv(s, c, t);
    case IrqEnter(_) => IrqKeepsInv(s, step);
    case IrqReturn(_) => IrqKeepsInv(s, step);
    case Exec(c, act) =>
      if WritesWord(act) { WordStepKeepsInv(s, c, act); } else { PcStepKeepsInv(s, c, act); }
  }

  lemma {:induction false} RunKeepsInv(s: State, steps: seq<Step>, s': State)
    requires Inv(s) && Run(s, steps, s', true)
    ensures Inv(s')
    decreases |steps|
  {
    if steps == [] {
    } else {
      StepKeepsInv(s, steps[0]);
      RunKeepsInv(Apply(s, steps[0]), steps[1..], s');
    }
  }

  lemma ReachableInv(s: State)
    requires Reachable(s)
    ensures Inv(s)
  {
    var s0, steps :| Initial(s0) && Run(s0, steps, s, true);
    RunKeepsInv(s0, steps, s);
  }

  // The argument, for every run -------------------------------------------------------

  /** The top frame on c has loaded a held word and is about to read the generation. */
  predicate AboutToClassify(s: State, c: nat) {
    WellFormed(s) && c < |s.modes| && TopOn(s, c).pc.Loaded? && TopOn(s, c).pc.seen.Held? && CanExec(s, c, Classify)
  }

  /** The waiter on c is still in the generation it stamped. */
  predicate StillInOwnGeneration(s: State, c: nat)
    requires AboutToClassify(s, c)
  {
    TopOn(s, c).pc.me == StreamOn(s, c)
  }

  lemma CurrentStampIsHere(s: State, c: nat, st: Stamp)
    requires Inv(s) && c < |s.modes| && StampOk(s, ActorOn(s, c), st) && st.gen == s.gens[st.cpu]
    ensures st == StreamOn(s, c)
  {
  }

  /**
    A pair from read_stamp, or read with IRQs masked, names the taker's current
    generation on the CPU it is on, or a generation that has already ended.
   */
  lemma StampNamesOwnOrEndedGeneration(s: State, c: nat, act: Act)
    requires Reachable(s) && WellFormed(s) && c < |s.modes| && CanExec(s, c, act)
    requires (act.CheckCpu? && TopOn(s, c).pc.cpu == c) || act.MaskedStamp?
    ensures TopOn(DoExec(s, c, act), c).pc.Stamped?
    ensures var me := TopOn(DoExec(s, c, act), c).pc.me;
            me == StreamOn(s, c) || (me.cpu < |s.gens| && me.gen < s.gens[me.cpu])
  {
    ReachableInv(s);
    TopIsOk(s, c);
  }

  /**
    Reentry has no false positives: the waiter is still the stream it stamped,
    the stamp it saw was stored in that very stream by the waiter's own actor,
    and the lock still holds it, from the waiter's frame or one below.
   */
  lemma ReentryIsOwnStream(s: State, c: nat)
    requires Reachable(s) && AboutToClassify(s, c)
    requires Verdict(s, TopOn(s, c).pc.me, TopOn(s, c).pc.seen) == Reentry
    ensures StillInOwnGeneration(s, c)
    ensures var seen := TopOn(s, c).pc.seen;
            && seen.stamp == seen.stream == StreamOn(s, c)
            && seen.owner == ActorOn(s, c) && seen.depth <= DepthOn(s, c)
            && s.word == seen
  {
    ReachableInv(s);
    TopIsOk(s, c);
    CurrentStampIsHere(s, c, TopOn(s, c).pc.me);
  }

  /**
    Every verdict on a held word, in terms of where the waiter is now: same-CPU
    verdicts only for a waiter still in the generation it stamped, and Reentry
    always for such a waiter that saw its own stamp.
   */
  lemma VerdictTable(s: State, c: nat)
    requires Reachable(s) && AboutToClassify(s, c)
    ensures var me, seen := TopOn(s, c).pc.me, TopOn(s, c).pc.seen;
            var v, still := Verdict(s, me, seen), StillInOwnGeneration(s, c);
            var current := s.gens[seen.stamp.cpu] == seen.stamp.gen;
            && (v == Reentry <==> still && seen.stamp == me)
            && (v == PreemptedHolder <==> still && seen.stamp.cpu == c && seen.stamp.gen < s.gens[c])
            && (v == OtherCpu <==> current && !(still && seen.stamp.cpu == c))
            && (v == OtherCpuSwitched <==> !current && !(still && seen.stamp.cpu == c))
  {
    ReachableInv(s);
    TopIsOk(s, c);
    var me := TopOn(s, c).pc.me;
    if me.gen == s.gens[me.cpu] { CurrentStampIsHere(s, c, me); }
  }

  /**
    Waiting after a Reentry verdict never succeeds. In every reachable state in
    which a frame still sits at that verdict, wherever its thread runs by then,
    the lock is held with the word it saw, by its own frame or a frame below it
    on the same stack.
   */
  lemma ReentryNeverEnds(s: State, t: nat, d: nat)
    requires Reachable(s) && t < |s.stacks| && d < |s.stacks[t]|
    requires s.stacks[t][d].pc.Judged? && s.stacks[t][d].pc.verdict == Reentry
    ensures s.word == s.stacks[t][d].pc.seen && s.word.Held? && s.word.owner == Thread(t)
    ensures s.word.depth <= d && s.stacks[t][s.word.depth].holds
  {
    ReachableInv(s);
    var k := s.word.depth;
    assert FrameOk(s, Thread(t), d, s.stacks[t][d]);
    assert FrameOk(s, Thread(t), k, s.stacks[t][k]);
  }

  predicate HoldsGuard(s: State, a: Actor, d: nat) {
    match a
    case Thread(t) => t < |s.stacks| && d < |s.stacks[t]| && s.stacks[t][d].holds
    case Dispatcher(c) => c < |s.modes| && s.modes[c].Dispatches? && d == 0 && s.modes[c].frame.holds
  }

  /**
    In every reachable state at most one frame of the whole machine holds the
    guard, and none while the word is free.
   */
  lemma AtMostOneGuard(s: State, a: Actor, d: nat, b: Actor, e: nat)
    requires Reachable(s) && HoldsGuard(s, a, d)
    ensures s.word.Held?
    ensures HoldsGuard(s, b, e) ==> a == b && d == e
  {
    ReachableInv(s);
  }

  // Rule (b) is needed --------------------------------------------------------------------

  /** One CPU in generation 0 and one thread with a single frame. */
  function Small(mode: Mode, f: Frame, word: Word): State {
    State([0], [mode], [[f]], word)
  }

  lemma Prepend(s: State, step: Step, s1: State, rest: seq<Step>, s': State)
    requires WellFormed(s) && Enabled(s, step, false) && Apply(s, step) == s1 && Run(s1, rest, s', false)
    ensures Run(s, [step] + rest, s', false)
  {
    assert ([step] + rest)[1..] == rest;
  }

  lemma DispatcherTakesLock(s': State, rest: seq<Step>)
    requires Run(Small(Dispatches(Frame(Idle, true)), IDLE_FRAME,
                       Held(Stamp(0, 0), Dispatcher(0), 0, Stamp(0, 0))), rest, s', false)
    ensures Run(Small(Dispatches(IDLE_FRAME), IDLE_FRAME, Word.Free),
                [Exec(0, MaskedStamp)] + ([Exec(0, TryLock)] + rest), s', false)
  {
    var s0 := Small(Dispatches(IDLE_FRAME), IDLE_FRAME, Word.Free);
    var s1 := Small(Dispatches(Frame(Stamped(Stamp(0, 0)), false)), IDLE_FRAME, Word.Free);
    var s2 := Small(Dispatches(Frame(Idle, true)), IDLE_FRAME, Held(Stamp(0, 0), Dispatcher(0), 0, Stamp(0, 0)));
    Prepend(s1, Exec(0, TryLock), s2, rest, s');
    Prepend(s0, Exec(0, MaskedStamp), s1, [Exec(0, TryLock)] + rest, s');
  }

  lemma SmallSetTop(f: Frame, g: Frame, word: Word)
    ensures SetTop(Small(Runs(0), f, word), 0, g) == Small(Runs(0), g, word)
  {
    assert [f][0 := g] == [g];
    assert [[f]][0 := [g]] == [[g]];
  }

  lemma ThreadClassifies(word: Word) returns (s': State)
    requires word == Held(Stamp(0, 0), Dispatcher(0), 0, Stamp(0, 0))
    ensures Run(Small(Runs(0), IDLE_FRAME, word),
                [Exec(0, MaskedStamp)] + ([Exec(0, LoadWord)] + [Exec(0, Classify)]), s', false)
    ensures s' == Small(Runs(0), Frame(Judged(Stamp(0, 0), word, Reentry), false), word)
  {
    var s3 := Small(Runs(0), IDLE_FRAME, word);
    var s4 := Small(Runs(0), Frame(Stamped(Stamp(0, 0)), false), word);
    var s5 := Small(Runs(0), Frame(Loaded(Stamp(0, 0), word), false), word);
    s' := Small(Runs(0), Frame(Judged(Stamp(0, 0), word, Reentry), false), word);
    SmallSetTop(s3.stacks[0][0], s4.stacks[0][0], word);
    SmallSetTop(s4.stacks[0][0], s5.stacks[0][0], word);
    SmallSetTop(s5.stacks[0][0], s'.stacks[0][0], word);
    assert Run(s5, [Exec(0, Classify)], s', false) by { Prepend(s5, Exec(0, Classify), s', [], s'); }
    Prepend(s4, Exec(0, LoadWord), s5, [Exec(0, Classify)], s');
    Prepend(s3, Exec(0, MaskedStamp), s4, [Exec(0, LoadWord)] + [Exec(0, Classify)], s');
  }

  /**
    Without rule (b) a dispatcher that restores a thread while holding the lock
    makes that thread report a re-entry.
   */
  lemma RuleBIsNeeded() returns (s0: State, steps: seq<Step>, s: State)
    ensures Initial(s0) && Run(s0, steps, s, false)
    ensures |s.stacks| == 1 && |s.stacks[0]| == 1
    ensures var pc := s.stacks[0][0].pc;
            pc.Judged? && pc.verdict == Reentry && pc.seen.Held? && pc.seen.owner != Thread(0)
  {
    var word := Held(Stamp(0, 0), Dispatcher(0), 0, Stamp(0, 0));
    s0 := Small(Dispatches(IDLE_FRAME), IDLE_FRAME, Word.Free);
    s := ThreadClassifies(word);
    var tail := [Exec(0, MaskedStamp)] + ([Exec(0, LoadWord)] + [Exec(0, Classify)]);
    Prepend(Small(Dispatches(Frame(Idle, true)), IDLE_FRAME, word), Restore(0, 0),
            Small(Runs(0), IDLE_FRAME, word), tail, s);
    DispatcherTakesLock(s, [Restore(0, 0)] + tail);
    steps := [Exec(0, MaskedStamp)] + ([Exec(0, TryLock)] + ([Restore(0, 0)] + tail));
  }
}
