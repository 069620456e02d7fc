/**
  The lock-free bump allocator: concurrent calls that load the offset, compute
  an aligned block, and try to move the offset past it.
 */
module Bump {
  import opened Bits

  const BUMP_SIZE: nat := 128 * 1024

  /** Where the buffer lies, and the width of an address in bits. */
  datatype Env = Env(base: nat, width: nat)

  /** A request for `size` bytes at a multiple of 2^shift. */
  datatype Layout = Layout(size: nat, shift: nat)
  {
    function Align(): nat {
      Pow2(shift)
    }
  }

  /** The request's arithmetic stays within an address. */
  predicate Fits(env: Env, layout: Layout) {
    && layout.shift <= env.width
    && env.base + BUMP_SIZE + layout.Align() <= Pow2(env.width)
    && BUMP_SIZE + layout.Align() + layout.size <= Pow2(env.width)
  }

  function Aligned(env: Env, current: nat, layout: Layout): nat
    requires Fits(env, layout)
  {
    Pow2Monotone(layout.shift, env.width);
    And(env.base + current + layout.Align() - 1, Not(layout.Align() - 1, env.width))
  }

  /** Rounding up gives the first multiple of the alignment at or past the address. */
  lemma AlignedIs(env: Env, current: nat, layout: Layout)
    requires Fits(env, layout) && current <= BUMP_SIZE
    ensures var a := Aligned(env, current, layout);
      a % layout.Align() == 0 && env.base + current <= a < env.base + current + layout.Align()
  {
    var start, p := env.base + current, layout.Align();
    AndNotLowMask(start + p - 1, layout.shift, env.width);
    RoundsUp(start, p, Aligned(env, current, layout));
  }

  lemma RoundsUp(start: nat, p: nat, a: nat)
    requires p > 0 && a == start + p - 1 - (start + p - 1) % p
    ensures a % p == 0 && start <= a < start + p
  {
    DivModUnique(a, p, (start + p - 1) / p, 0);
  }

  function NewOffset(env: Env, current: nat, layout: Layout): int
    requires Fits(env, layout)
  {
    Aligned(env, current, layout) - env.base + layout.size
  }

  // The machine -----------------------------------------------------------------------

  /** A call in progress, and the offset it has loaded, if any. */
  datatype Call = Fresh(layout: Layout) | Loaded(layout: Layout, current: nat)

  datatype Block = Block(address: nat, layout: Layout)
  {
    function End(): nat {
      address + layout.size
    }
  }

  /** The shared offset, the calls in progress, and the blocks returned so far. */
  datatype State = State(offset: nat, calls: map<nat, Call>, blocks: seq<Block>)

  datatype Step =
    | Begin(thread: nat, request: Layout)
    | Load(thread: nat)
    | Fail(thread: nat)
    | Swap(thread: nat)
    | GiveUp(thread: nat)

  predicate Enabled(env: Env, s: State, step: Step) {
    match step
    case Begin(t, layout) => t !in s.calls && Fits(env, layout)
    case Load(t) => t in s.calls && s.calls[t].Fresh?
    case Fail(t) => CanFit(env, s, t)
    case Swap(t) => CanFit(env, s, t) && s.offset == s.calls[t].current
    case GiveUp(t) => HasLoaded(env, s, t) && NewOffset(env, s.calls[t].current, s.calls[t].layout) > BUMP_SIZE
  }

  predicate HasLoaded(env: Env, s: State, t: nat) {
    t in s.calls && s.calls[t].Loaded? && Fits(env, s.calls[t].layout)
  }

  predicate CanFit(env: Env, s: State, t: nat) {
    HasLoaded(env, s, t) && 0 <= NewOffset(env, s.calls[t].current, s.calls[t].layout) <= BUMP_SIZE
  }

  /** A compare-exchange may fail for no reason, and then the call loads again. */
  function Next(env: Env, s: State, step: Step): State
    requires Enabled(env, s, step)
  {
    match step
    case Begin(t, layout) => s.(calls := s.calls[t := Fresh(layout)])
    case Load(t) => s.(calls := s.calls[t := Loaded(s.calls[t].layout, s.offset)])
    case Fail(t) => s.(calls := s.calls[t := Fresh(s.calls[t].layout)])
    case Swap(t) =>
      var call := s.calls[t];
      State(NewOffset(env, call.current, call.layout), s.calls - {t},
            s.blocks + [Block(Aligned(env, call.current, call.layout), call.layout)])
    case GiveUp(t) => s.(calls := s.calls - {t})
  }

  const Init: State := State(0, map[], [])

  predicate Run(env: Env, s: State, steps: seq<Step>)
    decreases |steps|
  {
    steps == [] || (Enabled(env, s, steps[0]) && Run(env, Next(env, s, steps[0]), steps[1..]))
  }

  function After(env: Env, s: State, steps: seq<Step>): State
    requires Run(env, s, steps)
    decreases |steps|
  {
    if steps == [] then s else After(env, Next(env, s, steps[0]), steps[1..])
  }

  // The invariant -------------------------------------------------------------------------

  predicate CallsBehind(env: Env, s: State) {
    forall t :: t in s.calls ==> Fits(env, s.calls[t].layout) && (s.calls[t].Loaded? ==> s.calls[t].current <= s.offset)
  }

  predicate GoodBlock(env: Env, b: Block, limit: nat) {
    b.address % b.layout.Align() == 0 && env.base <= b.address && b.End() <= limit
  }

  predicate BlocksInOrder(env: Env, s: State) {
    && (forall i :: 0 <= i < |s.blocks| ==> GoodBlock(env, s.blocks[i], env.base + s.offset))
    && (forall i, j :: 0 <= i < j < |s.blocks| ==> s.blocks[i].End() <= s.blocks[j].address)
  }

  predicate Inv(env: Env, s: State) {
    s.offset <= BUMP_SIZE && CallsBehind(env, s) && BlocksInOrder(env, s)
  }

  lemma SwapKeepsInv(env: Env, s: State, t: nat)
    requires Inv(env, s) && Enabled(env, s, Swap(t))
    ensures Inv(env, Next(env, s, Swap(t))) && s.offset <= Next(env, s, Swap(t)).offset
  {
    var call := s.calls[t];
    var next := Next(env, s, Swap(t));
    AlignedIs(env, call.current, call.layout);
    forall i | 0 <= i < |next.blocks| ensures GoodBlock(env, next.blocks[i], env.base + next.offset) {
      if i < |s.blocks| {
        assert GoodBlock(env, s.blocks[i], env.base + s.offset);
      }
    }
    forall i, j | 0 <= i < j < |next.blocks| ensures next.blocks[i].End() <= next.blocks[j].address {
      if j == |s.blocks| {
        assert GoodBlock(env, s.blocks[i], env.base + s.offset);
      }
    }
  }

  lemma StepKeepsInv(env: Env, s: State, step: Step)
    requires Inv(env, s) && Enabled(env, s, step)
    ensures Inv(env, Next(env, s, step)) && s.offset <= Next(env, s, step).offset
        && s.blocks <= Next(env, s, step).blocks
  {
    if step.Swap? {
      SwapKeepsInv(env, s, step.thread);
    }
  }

  lemma {:induction false} RunKeepsInv(env: Env, s: State, steps: seq<Step>)
    requires Inv(env, s) && Run(env, s, steps)
    ensures Inv(env, After(env, s, steps)) && s.offset <= After(env, s, steps).offset
        && s.blocks <= After(env, s, steps).blocks
    decreases |steps|
  {
    if steps == [] {
    } else {
      StepKeepsInv(env, s, steps[0]);
      RunKeepsInv(env, Next(env, s, steps[0]), steps[1..]);
    }
  }

  // What callers rely on --------------------------------------------------------------------

  /** In every interleaving the returned blocks are aligned, inside the buffer, and share no byte. */
  lemma BlocksDisjoint(env: Env, steps: seq<Step>, i: nat, j: nat)
    requires Run(env, Init, steps) && i < |After(env, Init, steps).blocks| && j < |After(env, Init, steps).blocks|
    ensures var blocks := After(env, Init, steps).blocks;
      && blocks[i].address % blocks[i].layout.Align() == 0
      && env.base <= blocks[i].address && blocks[i].End() <= env.base + BUMP_SIZE
      && (i != j ==> blocks[i].End() <= blocks[j].address || blocks[j].End() <= blocks[i].address)
  {
    RunKeepsInv(env, Init, steps);
    assert GoodBlock(env, After(env, Init, steps).blocks[i], env.base + After(env, Init, steps).offset);
  }

  /** The offset never goes back, from any point of a run to any later one. */
  lemma OffsetNeverDecreases(env: Env, early: seq<Step>, late: seq<Step>)
    requires Run(env, Init, early) && Run(env, After(env, Init, early), late)
    ensures After(env, Init, early).offset <= After(env, After(env, Init, early), late).offset
  {
    RunKeepsInv(env, Init, early);
    RunKeepsInv(env, After(env, Init, early), late);
  }

  lemma RoundingMonotone(x: nat, y: nat, p: nat)
    requires p > 0 && x <= y
    ensures x - x % p <= y - y % p
  {
    var q, r := x / p, y / p;
    if q > r {
      MulAtLeast(q - r, p);
    } else {
      assert (r - q) * p >= 0;
      assert (r - q) * p == r * p - q * p;
    }
  }

  lemma NewOffsetMonotone(env: Env, early: nat, late: nat, layout: Layout)
    requires Fits(env, layout) && early <= late <= BUMP_SIZE
    ensures NewOffset(env, early, layout) <= NewOffset(env, late, layout)
  {
    var a, p := env.base + layout.Align() - 1, layout.Align();
    AndNotLowMask(a + early, layout.shift, env.width);
    AndNotLowMask(a + late, layout.shift, env.width);
    RoundingMonotone(a + early, a + late, p);
  }

  /** A call that returns null judged by an old offset would not fit at the current one either. */
  lemma NullOnlyWhenFull(env: Env, steps: seq<Step>, t: nat)
    requires Run(env, Init, steps) && Enabled(env, After(env, Init, steps), GiveUp(t))
    ensures var s := After(env, Init, steps);
      NewOffset(env, s.offset, s.calls[t].layout) > BUMP_SIZE
  {
    var s := After(env, Init, steps);
    RunKeepsInv(env, Init, steps);
    NewOffsetMonotone(env, s.calls[t].current, s.offset, s.calls[t].layout);
  }
}
