/**
  Holder fields and consistent_snapshot: any number of threads take, restamp
  and release the lock, store their diagnostic fields after the CAS and clear
  them before the releasing store, while any number of readers run
  consistent_snapshot, one load at a time, against them.

  Acquisitions are numbered in the order of their CASes. The number an
  acquisition leaves on the word and on the fields it stores is history the
  program does not see; the program compares stamps only.
 */
module LockSnapshot {
  import opened OwnerStamp

  datatype Word = Free | Held(stamp: Stamp, acq: nat)

  datatype Field = Cleared | Stored(value: nat, acq: nat)

  /** A thread's guard; `releasing` once its drop has started. */
  datatype Guard = NoGuard | Guard(acq: nat, releasing: bool)

  /** consistent_snapshot: the first word, the fields read so far, and the word of the second load. */
  datatype Reader =
    | Ready
    | Reading(first: Word, got: map<nat, Field>)
    | Returned(first: Word, got: map<nat, Field>, last: Word)

  /** `stamps[a]` is the set of stamps acquisition a has stored in the word. */
  datatype State = State(word: Word, fields: seq<Field>, guards: seq<Guard>, readers: seq<Reader>,
                         stamps: seq<set<Stamp>>)

  datatype Step =
    | TryLock(t: nat, stamp: Stamp)
    | StoreField(t: nat, i: nat, value: nat)
    | Restamp(t: nat, stamp: Stamp)
    | BeginDrop(t: nat)
    | ClearField(t: nat, i: nat)
    | Release(t: nat)
    | FirstLoad(r: nat)
    | ReadField(r: nat, i: nat)
    | SecondLoad(r: nat)

  predicate Holds(s: State, t: nat, releasing: bool) {
    t < |s.guards| && s.guards[t].Guard? && s.guards[t].releasing == releasing && s.word.Held?
        && s.word.acq < |s.stamps|
  }

  predicate Enabled(s: State, step: Step) {
    match step
    case TryLock(t, stamp) => t < |s.guards| && s.guards[t].NoGuard? && s.word.Free?
    case StoreField(t, i, v) => Holds(s, t, false) && i < |s.fields|
    case Restamp(t, stamp) => Holds(s, t, false)
    case BeginDrop(t) => Holds(s, t, false)
    case ClearField(t, i) => Holds(s, t, true) && i < |s.fields|
    case Release(t) => Holds(s, t, true) && forall i :: 0 <= i < |s.fields| ==> s.fields[i].Cleared?
    case FirstLoad(r) => r < |s.readers| && s.readers[r].Ready?
    case ReadField(r, i) => r < |s.readers| && s.readers[r].Reading? && i < |s.fields|
    case SecondLoad(r) => r < |s.readers| && s.readers[r].Reading? && s.readers[r].first.Held?
  }

  function Apply(s: State, step: Step): State
    requires Enabled(s, step)
  {
    match step
    case TryLock(t, stamp) =>
      var a := |s.stamps|;
      s.(word := Held(stamp, a), guards := s.guards[t := Guard(a, false)], stamps := s.stamps + [{stamp}])
    case StoreField(t, i, v) => s.(fields := s.fields[i := Stored(v, s.guards[t].acq)])
    case Restamp(t, stamp) =>
      var a := s.word.acq;
      s.(word := Held(stamp, a), stamps := s.stamps[a := s.stamps[a] + {stamp}])
    case BeginDrop(t) => s.(guards := s.guards[t := s.guards[t].(releasing := true)])
    case ClearField(t, i) => s.(fields := s.fields[i := Cleared])
    case Release(t) => s.(word := Word.Free, guards := s.guards[t := NoGuard])
    case FirstLoad(r) =>
      if s.word.Held? then s.(readers := s.readers[r := Reading(s.word, map[])]) else s
    case ReadField(r, i) =>
      var Reading(first, got) := s.readers[r];
      s.(readers := s.readers[r := Reading(first, got[i := s.fields[i]])])
    case SecondLoad(r) =>
      var Reading(first, got) := s.readers[r];
      var same := s.word.Held? && s.word.stamp == first.stamp;
      s.(readers := s.readers[r := if same then Returned(first, got, s.word) else Ready])
  }

  predicate Initial(s: State) {
    && s.word.Free? && s.stamps == []
    && (forall i :: 0 <= i < |s.fields| ==> s.fields[i].Cleared?)
    && (forall t :: 0 <= t < |s.guards| ==> s.guards[t].NoGuard?)
    && (forall r :: 0 <= r < |s.readers| ==> s.readers[r].Ready?)
  }

  predicate Run(s: State, steps: seq<Step>, s': State)
    decreases |steps|
  {
    if steps == [] then s == s' else Enabled(s, steps[0]) && Run(Apply(s, steps[0]), steps[1..], s')
  }

  ghost predicate Reachable(s: State) {
    exists s0, steps :: Initial(s0) && Run(s0, steps, s)
  }

  // What every step keeps ---------------------------------------------------------

  /** The word belongs to the latest acquisition and carries one of its stamps. */
  predicate WordOk(s: State) {
    s.word.Held? ==> s.word.acq + 1 == |s.stamps| && s.word.stamp in s.stamps[s.word.acq]
  }

  predicate GuardsOk(s: State) {
    && (forall t :: 0 <= t < |s.guards| && s.guards[t].Guard? ==> s.word.Held? && s.guards[t].acq == s.word.acq)
    && (forall t, u ::
          0 <= t < |s.guards| && 0 <= u < |s.guards| && s.guards[t].Guard? && s.guards[u].Guard? ==> t == u)
  }

  predicate FieldsOk(s: State) {
    forall i :: 0 <= i < |s.fields| && s.fields[i].Stored? ==> s.word.Held? && s.fields[i].acq == s.word.acq
  }

  /** Every stored field in `got` belongs to an acquisition between `lo` and `hi`, both included. */
  predicate GotBetween(got: map<nat, Field>, lo: nat, hi: int) {
    forall i :: i in got && got[i].Stored? ==> lo <= got[i].acq <= hi
  }

  predicate FirstOk(s: State, first: Word) {
    first.Held? && first.acq < |s.stamps| && first.stamp in s.stamps[first.acq]
  }

  predicate ReaderOk(s: State, r: Reader) {
    match r
    case Ready => true
    case Reading(first, got) => FirstOk(s, first) && GotBetween(got, first.acq, |s.stamps| - 1)
    case Returned(first, got, last) =>
      && FirstOk(s, first) && FirstOk(s, last) && first.stamp == last.stamp && first.acq <= last.acq
      && GotBetween(got, first.acq, last.acq)
  }

  predicate Inv(s: State) {
    && WordOk(s) && GuardsOk(s) && FieldsOk(s)
    && (forall r :: 0 <= r < |s.readers| ==> ReaderOk(s, s.readers[r]))
  }

  lemma WriterKeepsInv(s: State, step: Step)
    requires Inv(s) && Enabled(s, step) && !step.FirstLoad? && !step.ReadField? && !step.SecondLoad?
    ensures Inv(Apply(s, step))
  {
    var s' := Apply(s, step);
    forall r | 0 <= r < |s'.readers| ensures ReaderOk(s', s'.readers[r]) {
      assert ReaderOk(s, s.readers[r]);
    }
  }

  lemma ReaderKeepsInv(s: State, step: Step)
    requires Inv(s) && Enabled(s, step) && (step.FirstLoad? || step.ReadField? || step.SecondLoad?)
    ensures Inv(Apply(s, step))
  {
    var s' := Apply(s, step);
    assert ReaderOk(s, s.readers[step.r]);
    forall r | 0 <= r < |s'.readers| ensures ReaderOk(s', s'.readers[r]) {
      if r != step.r { assert ReaderOk(s, s.readers[r]); }
    }
  }

  lemma {:induction false} RunKeepsInv(s: State, steps: seq<Step>, s': State)
    requires Inv(s) && Run(s, steps, s')
    ensures Inv(s')
    decreases |steps|
  {
    if steps == [] {
    } else {
      var step := steps[0];
      if step.FirstLoad? || step.ReadField? || step.SecondLoad? {
        ReaderKeepsInv(s, step);
      } else {
        WriterKeepsInv(s, step);
      }
      RunKeepsInv(Apply(s, step), steps[1..], s');
    }
  }

  lemma ReachableInv(s: State)
    requires Reachable(s)
    ensures Inv(s)
  {
    var s0, steps :| Initial(s0) && Run(s0, steps, s);
    RunKeepsInv(s0, steps, s);
  }

  // What consistent_snapshot returns ---------------------------------------------------

  /** At most one guard exists, and only while the word holds its acquisition. */
  lemma AtMostOneGuard(s: State, t: nat, u: nat)
    requires Reachable(s) && t < |s.guards| && u < |s.guards| && s.guards[t].Guard? && s.guards[u].Guard?
    ensures t == u && s.word.Held? && s.word.acq == s.guards[t].acq
  {
    ReachableInv(s);
  }

  /** No two acquisitions have ever stored the same stamp. */
  predicate StampsNotReused(s: State) {
    forall a, b :: 0 <= a < b < |s.stamps| ==> s.stamps[a] !! s.stamps[b]
  }

  /**
    A snapshot that returns Some read, in every field, either a cleared value
    or one stored by an acquisition from the first load's to the second's: never
    an earlier holder's, nor one later than the word it returned.
   */
  lemma SnapshotWithinTwoLoads(s: State, r: nat, i: nat)
    requires Reachable(s) && r < |s.readers| && s.readers[r].Returned? && i in s.readers[r].got
    ensures var Returned(first, got, last) := s.readers[r];
            && first.Held? && last.Held? && first.stamp == last.stamp
            && (got[i].Stored? ==> first.acq <= got[i].acq <= last.acq)
  {
    ReachableInv(s);
    assert ReaderOk(s, s.readers[r]);
  }

  /**
    With no stamp word reused, the fields are cleared or the fields of the one
    acquisition that owns the returned stamp.
   */
  lemma SnapshotIsOfTheStampsOwner(s: State, r: nat, i: nat, a: nat)
    requires Reachable(s) && StampsNotReused(s)
    requires r < |s.readers| && s.readers[r].Returned? && i in s.readers[r].got
    requires s.readers[r].first.Held? && a < |s.stamps| && s.readers[r].first.stamp in s.stamps[a]
    ensures s.readers[r].got[i].Stored? ==> s.readers[r].got[i].acq == a
  {
    ReachableInv(s);
    assert ReaderOk(s, s.readers[r]);
    var Returned(first, got, last) := s.readers[r];
    assert first.stamp in s.stamps[first.acq] && last.stamp in s.stamps[last.acq];
    assert a == first.acq == last.acq;
  }

  // A reused stamp defeats the check ---------------------------------------------------

  lemma Prepend(s: State, step: Step, s1: State, rest: seq<Step>, s': State)
    requires Enabled(s, step) && Apply(s, step) == s1 && Run(s1, rest, s')
    ensures Run(s, [step] + rest, s')
  {
    assert ([step] + rest)[1..] == rest;
  }

  const ME := Stamp(0, 7)

  function Tiny(word: Word, f: Field, g: Guard, r: Reader, stamps: seq<set<Stamp>>): State {
    State(word, [f], [g], [r], stamps)
  }

  lemma RetakenLock(r: Reader, s': State, rest: seq<Step>)
    requires Run(Tiny(Held(ME, 1), Stored(5, 1), Guard(1, false), r, [{ME}, {ME}]), rest, s')
    ensures Run(Tiny(Held(ME, 0), Cleared, Guard(0, false), r, [{ME}]),
                [BeginDrop(0)] + ([Release(0)] + ([TryLock(0, ME)] + ([StoreField(0, 0, 5)] + rest))), s')
  {
    var s1 := Tiny(Held(ME, 0), Cleared, Guard(0, false), r, [{ME}]);
    var s2 := Tiny(Held(ME, 0), Cleared, Guard(0, true), r, [{ME}]);
    var s3 := Tiny(Word.Free, Cleared, NoGuard, r, [{ME}]);
    var s4 := Tiny(Held(ME, 1), Cleared, Guard(1, false), r, [{ME}, {ME}]);
    var s5 := Tiny(Held(ME, 1), Stored(5, 1), Guard(1, false), r, [{ME}, {ME}]);
    Prepend(s4, StoreField(0, 0, 5), s5, rest, s');
    Prepend(s3, TryLock(0, ME), s4, [StoreField(0, 0, 5)] + rest, s');
    Prepend(s2, Release(0), s3, [TryLock(0, ME)] + ([StoreField(0, 0, 5)] + rest), s');
    Prepend(s1, BeginDrop(0), s2, [Release(0)] + ([TryLock(0, ME)] + ([StoreField(0, 0, 5)] + rest)), s');
  }

  lemma ReaderFinishes() returns (s: State)
    ensures s == Tiny(Held(ME, 1), Stored(5, 1), Guard(1, false),
                      Returned(Held(ME, 0), map[0 := Stored(5, 1)], Held(ME, 1)), [{ME}, {ME}])
    ensures Run(Tiny(Held(ME, 1), Stored(5, 1), Guard(1, false), Reading(Held(ME, 0), map[]), [{ME}, {ME}]),
                [ReadField(0, 0)] + ([SecondLoad(0)] + []), s)
  {
    var got := map[0 := Stored(5, 1)];
    var s6 := Tiny(Held(ME, 1), Stored(5, 1), Guard(1, false), Reading(Held(ME, 0), map[]), [{ME}, {ME}]);
    var s7 := Tiny(Held(ME, 1), Stored(5, 1), Guard(1, false), Reading(Held(ME, 0), got), [{ME}, {ME}]);
    s := Tiny(Held(ME, 1), Stored(5, 1), Guard(1, false), Returned(Held(ME, 0), got, Held(ME, 1)), [{ME}, {ME}]);
    Prepend(s7, SecondLoad(0), s, [], s);
    Prepend(s6, ReadField(0, 0), s7, [SecondLoad(0)] + [], s);
  }

  lemma FirstTake(s: State, tail: seq<Step>)
    requires Run(Tiny(Held(ME, 0), Cleared, Guard(0, false), Reading(Held(ME, 0), map[]), [{ME}]), tail, s)
    ensures Reachable(s)
  {
    var s0 := Tiny(Word.Free, Cleared, NoGuard, Ready, []);
    var s1 := Tiny(Held(ME, 0), Cleared, Guard(0, false), Ready, [{ME}]);
    var s2 := Tiny(Held(ME, 0), Cleared, Guard(0, false), Reading(Held(ME, 0), map[]), [{ME}]);
    Prepend(s1, FirstLoad(0), s2, tail, s);
    Prepend(s0, TryLock(0, ME), s1, [FirstLoad(0)] + tail, s);
    assert Initial(s0);
  }

  /** The same stamp released and taken again between the loads: the snapshot returns the later acquisition's field. */
  lemma ReusedStampMixesHolders() returns (s: State)
    ensures Reachable(s) && !StampsNotReused(s)
    ensures |s.readers| == 1 && s.readers[0].Returned? && s.readers[0].first == Held(ME, 0)
    ensures 0 in s.readers[0].got && s.readers[0].got[0] == Stored(5, 1)
  {
    s := ReaderFinishes();
    var rest := [ReadField(0, 0)] + ([SecondLoad(0)] + []);
    RetakenLock(Reading(Held(ME, 0), map[]), s, rest);
    FirstTake(s, [BeginDrop(0)] + ([Release(0)] + ([TryLock(0, ME)] + ([StoreField(0, 0, 5)] + rest))));
    assert ME in s.stamps[0] * s.stamps[1];
  }
}
