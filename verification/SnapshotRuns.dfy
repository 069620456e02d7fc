/**
  Snapshots in runs of the lock protocol: the stamps that the acquisitions of a
  snapshot run store are those of a run of the interleaving machine, so whether
  a stamp is reused is decided by where in that run the stamps were read.
 */
module SnapshotRuns {
  import opened OwnerStamp
  import P = LockProtocol
  import R = StampReuse
  import S = LockSnapshot

  /** A stamp put in the lock word, by a CAS that takes the lock or by a restamp. */
  datatype Store = Store(stamp: Stamp, takes: bool)

  /** One more store: of a new acquisition, or of the last one. */
  function Add(groups: seq<set<Stamp>>, store: Store): seq<set<Stamp>> {
    if store.takes then groups + [{store.stamp}]
    else if groups == [] then []
    else groups[|groups| - 1 := groups[|groups| - 1] + {store.stamp}]
  }

  /** The stamps of each acquisition, when these stores follow. */
  function Grouped(groups: seq<set<Stamp>>, stores: seq<Store>): seq<set<Stamp>>
    decreases |stores|
  {
    if stores == [] then groups else Grouped(Add(groups, stores[0]), stores[1..])
  }

  lemma {:induction false} GroupedLast(groups: seq<set<Stamp>>, stores: seq<Store>, last: Store)
    ensures Grouped(groups, stores + [last]) == Add(Grouped(groups, stores), last)
    decreases |stores|
  {
    if stores == [] {
    } else {
      assert (stores + [last])[1..] == stores[1..] + [last];
      GroupedLast(Add(groups, stores[0]), stores[1..], last);
    }
  }

  // Stores of a snapshot run ------------------------------------------------------------

  function StoreOf(step: S.Step): seq<Store> {
    match step
    case TryLock(_, stamp) => [Store(stamp, true)]
    case Restamp(_, stamp) => [Store(stamp, false)]
    case _ => []
  }

  function SnapshotStores(steps: seq<S.Step>): seq<Store> {
    if steps == [] then [] else StoreOf(steps[0]) + SnapshotStores(steps[1..])
  }

  lemma StepStores(s: S.State, step: S.Step)
    requires S.Inv(s) && S.Enabled(s, step)
    ensures S.Apply(s, step).stamps == Grouped(s.stamps, StoreOf(step))
  {
  }

  lemma {:induction false} GroupedTwice(groups: seq<set<Stamp>>, a: seq<Store>, b: seq<Store>)
    ensures Grouped(groups, a + b) == Grouped(Grouped(groups, a), b)
    decreases |a|
  {
    if a == [] {
      assert a + b == b;
    } else {
      assert (a + b)[1..] == a[1..] + b;
      GroupedTwice(Add(groups, a[0]), a[1..], b);
    }
  }

  lemma {:induction false} RunStores(s: S.State, steps: seq<S.Step>, s': S.State)
    requires S.Inv(s) && S.Run(s, steps, s')
    ensures s'.stamps == Grouped(s.stamps, SnapshotStores(steps))
    decreases |steps|
  {
    if steps == [] {
    } else {
      var next := S.Apply(s, steps[0]);
      S.RunKeepsInv(s, [steps[0]], next);
      StepStores(s, steps[0]);
      RunStores(next, steps[1..], s');
      GroupedTwice(s.stamps, StoreOf(steps[0]), SnapshotStores(steps[1..]));
    }
  }

  // Stores of a protocol run -------------------------------------------------------------

  predicate IsStore(step: P.Step) {
    step.Exec? && (step.act.TryLock? || step.act.Restamp?)
  }

  predicate Takes(step: P.Step) {
    step.Exec? && step.act.TryLock?
  }

  function StampAt(states: seq<P.State>, steps: seq<P.Step>, i: nat): Stamp
    requires R.IsRun(states, steps) && i < |steps| && IsStore(steps[i])
  {
    assert R.StepAt(states, steps, i);
    P.TopOn(states[i], steps[i].cpu).pc.me
  }

  /** The stores of the first n steps. */
  function ProtocolStores(states: seq<P.State>, steps: seq<P.Step>, n: nat): seq<Store>
    requires R.IsRun(states, steps) && n <= |steps|
  {
    if n == 0 then []
    else if IsStore(steps[n - 1]) then
      ProtocolStores(states, steps, n - 1) + [Store(StampAt(states, steps, n - 1), Takes(steps[n - 1]))]
    else ProtocolStores(states, steps, n - 1)
  }

  /** How often the lock was taken in the first n steps. */
  function Taken(steps: seq<P.Step>, n: nat): nat
    requires n <= |steps|
  {
    if n == 0 then 0 else Taken(steps, n - 1) + if Takes(steps[n - 1]) then 1 else 0
  }

  /** Step i stores this stamp for acquisition a. */
  predicate StoresFor(states: seq<P.State>, steps: seq<P.Step>, i: nat, a: nat, stamp: Stamp)
    requires R.IsRun(states, steps)
  {
    i < |steps| && IsStore(steps[i]) && StampAt(states, steps, i) == stamp && Taken(steps, i + 1) == a + 1
  }

  ghost predicate StoredFor(states: seq<P.State>, steps: seq<P.Step>, n: nat, a: nat, stamp: Stamp)
    requires R.IsRun(states, steps)
  {
    exists i: nat :: i < n && StoresFor(states, steps, i, a, stamp)
  }

  lemma HeldWasTaken(states: seq<P.State>, steps: seq<P.Step>, n: nat)
    requires R.IsRun(states, steps) && P.Initial(states[0]) && n <= |steps| && states[n].word.Held?
    ensures Taken(steps, n) > 0
  {
    if n > 0 {
      assert R.StepAt(states, steps, n - 1);
      if states[n - 1].word.Held? { HeldWasTaken(states, steps, n - 1); }
    }
  }

  /** The groups are the acquisitions: their number and the stamps of each. */
  lemma {:induction false} GroupsExactly(states: seq<P.State>, steps: seq<P.Step>, n: nat, a: nat, stamp: Stamp)
    requires R.IsRun(states, steps) && P.Initial(states[0]) && n <= |steps|
    ensures var groups := Grouped([], ProtocolStores(states, steps, n));
      && |groups| == Taken(steps, n)
      && (a < |groups| ==> (stamp in groups[a] <==> StoredFor(states, steps, n, a, stamp)))
      && (a >= |groups| ==> !StoredFor(states, steps, n, a, stamp))
    decreases n
  {
    if n == 0 {
    } else {
      var m := n - 1;
      GroupsExactly(states, steps, m, a, stamp);
      assert R.StepAt(states, steps, m);
      StoredForStep(states, steps, m, a, stamp);
      if IsStore(steps[m]) {
        GroupedLast([], ProtocolStores(states, steps, m), Store(StampAt(states, steps, m), Takes(steps[m])));
        if !Takes(steps[m]) { HeldWasTaken(states, steps, m); }
      }
    }
  }

  lemma StoredForStep(states: seq<P.State>, steps: seq<P.Step>, m: nat, a: nat, stamp: Stamp)
    requires R.IsRun(states, steps) && m < |steps|
    ensures StoredFor(states, steps, m + 1, a, stamp) <==>
      StoredFor(states, steps, m, a, stamp) || StoresFor(states, steps, m, a, stamp)
  {
  }

  // When a stamp is reused ------------------------------------------------------------------

  /** The stamps of stores i and j were read on one CPU with no dispatch on it between the reads. */
  ghost predicate SameRead(states: seq<P.State>, steps: seq<P.Step>, i: nat, j: nat)
    requires R.IsRun(states, steps) && i < |steps| && j < |steps| && IsStore(steps[i]) && IsStore(steps[j])
  {
    var a, b := StampAt(states, steps, i), StampAt(states, steps, j);
    exists ri: nat, rj: nat ::
      && R.ReadFor(states, steps, i, a, ri) && R.ReadFor(states, steps, j, b, rj)
      && a.cpu == b.cpu && R.NoBump(steps, ri, rj, a.cpu) && R.NoBump(steps, rj, ri, a.cpu)
  }

  lemma SameReadExactly(states: seq<P.State>, steps: seq<P.Step>, i: nat, j: nat)
    requires R.IsRun(states, steps) && P.Initial(states[0])
    requires i < j < |steps| && IsStore(steps[i]) && IsStore(steps[j])
    ensures StampAt(states, steps, i) == StampAt(states, steps, j) <==> SameRead(states, steps, i, j)
  {
    var a, b := StampAt(states, steps, i), StampAt(states, steps, j);
    var ri, rj := R.StoredTwiceExactly(states, steps, i, j, a, b);
    if SameRead(states, steps, i, j) {
      var r: nat, q: nat :|
        && R.ReadFor(states, steps, i, a, r) && R.ReadFor(states, steps, j, b, q)
        && a.cpu == b.cpu && R.NoBump(steps, r, q, a.cpu) && R.NoBump(steps, q, r, a.cpu);
      if r <= q {
        R.GenerationsGrow(states, steps, r, q, a.cpu);
      } else {
        R.GenerationsGrow(states, steps, q, r, a.cpu);
      }
    }
  }

  /** Two acquisitions of the run store stamps from such reads. */
  ghost predicate ReadsAgain(states: seq<P.State>, steps: seq<P.Step>, i: nat, j: nat)
    requires R.IsRun(states, steps)
  {
    && i < j < |steps| && IsStore(steps[i]) && IsStore(steps[j])
    && Taken(steps, i + 1) != Taken(steps, j + 1) && SameRead(states, steps, i, j)
  }

  /** The snapshot run stores the stamps of the protocol run, in order. */
  predicate SameStores(states: seq<P.State>, steps: seq<P.Step>, snapshots: seq<S.Step>)
    requires R.IsRun(states, steps)
  {
    SnapshotStores(snapshots) == ProtocolStores(states, steps, |steps|)
  }

  predicate RunsTogether(states: seq<P.State>, steps: seq<P.Step>, s0: S.State, snapshots: seq<S.Step>, s: S.State) {
    && R.IsRun(states, steps) && P.Initial(states[0])
    && S.Initial(s0) && S.Run(s0, snapshots, s) && SameStores(states, steps, snapshots)
  }

  lemma StampsAre(states: seq<P.State>, steps: seq<P.Step>, s0: S.State, snapshots: seq<S.Step>, s: S.State,
                  a: nat, stamp: Stamp)
    requires RunsTogether(states, steps, s0, snapshots, s)
    ensures a < |s.stamps| && stamp in s.stamps[a] <==> StoredFor(states, steps, |steps|, a, stamp)
  {
    RunStores(s0, snapshots, s);
    GroupsExactly(states, steps, |steps|, a, stamp);
  }

  lemma StoreWasTaken(states: seq<P.State>, steps: seq<P.Step>, i: nat)
    requires R.IsRun(states, steps) && P.Initial(states[0]) && i < |steps| && IsStore(steps[i])
    ensures Taken(steps, i + 1) > 0
  {
    assert R.StepAt(states, steps, i);
    if !Takes(steps[i]) { HeldWasTaken(states, steps, i); }
  }

  lemma {:induction false} TakenGrows(steps: seq<P.Step>, m: nat, n: nat)
    requires m <= n <= |steps|
    ensures Taken(steps, m) <= Taken(steps, n)
    decreases n
  {
    if m == n {
    } else {
      TakenGrows(steps, m, n - 1);
    }
  }

  lemma ReadAgainIsReused(states: seq<P.State>, steps: seq<P.Step>, s0: S.State, snapshots: seq<S.Step>, s: S.State,
                          i: nat, j: nat)
    requires RunsTogether(states, steps, s0, snapshots, s) && ReadsAgain(states, steps, i, j)
    ensures !S.StampsNotReused(s)
  {
    StoreWasTaken(states, steps, i);
    StoreWasTaken(states, steps, j);
    SameReadExactly(states, steps, i, j);
    TakenGrows(steps, i + 1, j + 1);
    var x, a, b := StampAt(states, steps, i), Taken(steps, i + 1) - 1, Taken(steps, j + 1) - 1;
    assert StoresFor(states, steps, i, a, x) && StoresFor(states, steps, j, b, x);
    StampsAre(states, steps, s0, snapshots, s, a, x);
    StampsAre(states, steps, s0, snapshots, s, b, x);
    assert x in s.stamps[a] * s.stamps[b];
  }

  lemma ReusedIsReadAgain(states: seq<P.State>, steps: seq<P.Step>, s0: S.State, snapshots: seq<S.Step>, s: S.State,
                          a: nat, b: nat, x: Stamp) returns (i: nat, j: nat)
    requires RunsTogether(states, steps, s0, snapshots, s)
    requires a < b < |s.stamps| && x in s.stamps[a] && x in s.stamps[b]
    ensures ReadsAgain(states, steps, i, j)
  {
    StampsAre(states, steps, s0, snapshots, s, a, x);
    StampsAre(states, steps, s0, snapshots, s, b, x);
    i :| i < |steps| && StoresFor(states, steps, i, a, x);
    j :| j < |steps| && StoresFor(states, steps, j, b, x);
    if j <= i { TakenGrows(steps, j + 1, i + 1); }
    SameReadExactly(states, steps, i, j);
  }

  /**
    No stamp is reused, as the snapshots need, exactly when no two acquisitions
    store stamps read on one CPU with no dispatch on it between the reads.
   */
  lemma NotReusedExactly(states: seq<P.State>, steps: seq<P.Step>, s0: S.State, snapshots: seq<S.Step>, s: S.State)
    requires RunsTogether(states, steps, s0, snapshots, s)
    ensures S.StampsNotReused(s) <==> forall i: nat, j: nat :: !ReadsAgain(states, steps, i, j)
  {
    if S.StampsNotReused(s) {
      forall i: nat, j: nat ensures !ReadsAgain(states, steps, i, j) {
        if ReadsAgain(states, steps, i, j) { ReadAgainIsReused(states, steps, s0, snapshots, s, i, j); }
      }
    }
    if forall i: nat, j: nat :: !ReadsAgain(states, steps, i, j) {
      forall a, b | 0 <= a < b < |s.stamps| ensures s.stamps[a] !! s.stamps[b] {
        forall x | x in s.stamps[a] ensures x !in s.stamps[b] {
          if x in s.stamps[b] {
            var i, j := ReusedIsReadAgain(states, steps, s0, snapshots, s, a, b, x);
            assert false;
          }
        }
      }
    }
  }

  /**
    So a snapshot returns cleared fields or the fields of the acquisition that
    owns its stamp, in every run in which no two acquisitions do that.
   */
  lemma SnapshotIsOfTheOwner(states: seq<P.State>, steps: seq<P.Step>, s0: S.State, snapshots: seq<S.Step>, s: S.State,
                             r: nat, f: nat, a: nat)
    requires RunsTogether(states, steps, s0, snapshots, s)
    requires forall i: nat, j: nat :: !ReadsAgain(states, steps, i, j)
    requires r < |s.readers| && s.readers[r].Returned? && f in s.readers[r].got
    requires s.readers[r].first.Held? && a < |s.stamps| && s.readers[r].first.stamp in s.stamps[a]
    ensures s.readers[r].got[f].Stored? ==> s.readers[r].got[f].acq == a
  {
    NotReusedExactly(states, steps, s0, snapshots, s);
    S.SnapshotIsOfTheStampsOwner(s, r, f, a);
  }
}
