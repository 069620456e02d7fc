/**
  What every run of root grants, attenuations with fresh ids and revocations
  keeps about the capability table.
 */
module CapabilityRuns {
  import opened Basics
  import opened Capabilities

  datatype Op =
    | GrantRoot(token: Token)
    | AttenuateHandle(handle: nat, cap: Capability, expiry: Option<nat>, holder: nat, id: nat)
    | RevokeId(id: nat)

  /** No token of the table, live or revoked, has this id. */
  predicate FreshId(ts: Table, id: nat) {
    forall i :: 0 <= i < |ts| && ts[i].Some? ==> ts[i].value.id != id
  }

  predicate Allowed(ts: Table, op: Op) {
    match op
    case GrantRoot(token) => FreshId(ts, token.id) && !token.revoked && token.parent.None?
    case AttenuateHandle(_, _, _, _, id) => FreshId(ts, id)
    case RevokeId(_) => true
  }

  ghost function Apply(ts: Table, op: Op): Table {
    match op
    case GrantRoot(token) => Granted(ts, token).0
    case AttenuateHandle(handle, cap, expiry, holder, id) => Attenuated(ts, handle, cap, expiry, holder, id).0
    case RevokeId(id) => Revoked(ts, id)
  }

  function Empty(): Table {
    seq(MAX_CAPS_PER_PROCESS, _ => None)
  }

  ghost predicate Run(ts: Table, ops: seq<Op>)
    decreases |ops|
  {
    ops == [] || (Allowed(ts, ops[0]) && Run(Apply(ts, ops[0]), ops[1..]))
  }

  ghost function After(ts: Table, ops: seq<Op>): Table
    requires Run(ts, ops)
    decreases |ops|
  {
    if ops == [] then ts else After(Apply(ts, ops[0]), ops[1..])
  }

  // The invariant -----------------------------------------------------------------

  predicate UniqueIds(ts: Table) {
    forall i, j :: 0 <= i < j < |ts| && ts[i].Some? && ts[j].Some? ==> ts[i].value.id != ts[j].value.id
  }

  /** The token in slot j is the one the token in slot i was attenuated from. */
  predicate ParentOf(ts: Table, j: nat, i: nat) {
    i < |ts| && j < |ts| && ts[i].Some? && ts[j].Some? && ts[i].value.parent == Some(ts[j].value.id)
  }

  ghost predicate Rooted(ts: Table) {
    forall i: nat :: i < |ts| && ts[i].Some? && ts[i].value.parent.Some?
        ==> exists j: nat :: j < i && ParentOf(ts, j, i)
  }

  ghost predicate LinksNarrow(ts: Table) {
    forall i: nat, j: nat :: ParentOf(ts, j, i)
        ==> j < i && ts[j].value.capability.CanAttenuateTo(ts[i].value.capability)
  }

  ghost predicate ParentsLive(ts: Table) {
    forall i: nat, j: nat :: ParentOf(ts, j, i) && Live(ts, i) ==> Live(ts, j)
  }

  /** Taken slots come before free ones. */
  predicate Packed(ts: Table) {
    forall i, j :: 0 <= i < j < |ts| && ts[j].Some? ==> ts[i].Some?
  }

  ghost predicate Inv(ts: Table) {
    UniqueIds(ts) && Packed(ts) && Rooted(ts) && LinksNarrow(ts) && ParentsLive(ts)
  }

  // A new token at the first free slot ----------------------------------------------

  lemma PutKeepsShape(ts: Table, k: nat, token: Token)
    requires UniqueIds(ts) && Packed(ts) && FreshId(ts, token.id)
    requires k == FirstFree(ts) < |ts|
    ensures UniqueIds(ts[k := Some(token)]) && Packed(ts[k := Some(token)])
    ensures forall j :: k <= j < |ts| ==> ts[j].None?
  {
  }

  /** A token whose id is new is nobody's parent, so no old link changes. */
  lemma PutKeepsLinks(ts: Table, k: nat, token: Token, j: nat, i: nat)
    requires Rooted(ts) && FreshId(ts, token.id) && k < |ts| && ts[k].None? && token.parent != Some(token.id)
    ensures i != k ==> (ParentOf(ts[k := Some(token)], j, i) <==> ParentOf(ts, j, i))
    ensures ParentOf(ts[k := Some(token)], j, k)
        <==> j != k && j < |ts| && ts[j].Some? && token.parent == Some(ts[j].value.id)
  {
  }

  lemma PutKeepsInv(ts: Table, k: nat, token: Token, p: nat)
    requires Inv(ts) && FreshId(ts, token.id) && !token.revoked
    requires k == FirstFree(ts) < |ts|
    requires token.parent.Some? ==>
      p < |ts| && Live(ts, p) && token.parent == Some(ts[p].value.id)
          && ts[p].value.capability.CanAttenuateTo(token.capability)
    ensures Inv(ts[k := Some(token)])
  {
    var now := ts[k := Some(token)];
    PutKeepsShape(ts, k, token);
    forall i: nat | i < |now| && now[i].Some? && now[i].value.parent.Some?
      ensures exists j: nat :: j < i && ParentOf(now, j, i)
    {
      if i == k {
        PutKeepsLinks(ts, k, token, p, k);
        assert ParentOf(now, p, i);
      } else {
        var j: nat :| j < i && ParentOf(ts, j, i);
        PutKeepsLinks(ts, k, token, j, i);
        assert ParentOf(now, j, i);
      }
    }
    forall i: nat, j: nat | ParentOf(now, j, i)
      ensures j < i && now[j].value.capability.CanAttenuateTo(now[i].value.capability)
          && (Live(now, i) ==> Live(now, j))
    {
      PutKeepsLinks(ts, k, token, j, i);
      if i == k {
        assert j == p;
      } else {
        assert ParentOf(ts, j, i);
      }
    }
  }

  // Revocation ------------------------------------------------------------------------

  lemma RevokedSlot(ts: Table, id: nat, i: nat)
    requires i < |ts|
    ensures Revoked(ts, id)[i] == if Doomed(ts, id, i) then Mark(ts[i]) else ts[i]
    ensures Live(Revoked(ts, id), i) <==> Live(ts, i) && !Doomed(ts, id, i)
  {
  }

  lemma RevokedLinks(ts: Table, id: nat, j: nat, i: nat)
    ensures ParentOf(Revoked(ts, id), j, i) <==> ParentOf(ts, j, i)
  {
    if i < |ts| { RevokedSlot(ts, id, i); }
    if j < |ts| { RevokedSlot(ts, id, j); }
  }

  lemma RevokeKeepsInv(ts: Table, id: nat)
    requires Inv(ts)
    ensures Inv(Revoked(ts, id))
  {
    var now := Revoked(ts, id);
    forall i: nat | i < |ts|
      ensures now[i].Some? == ts[i].Some?
          && (ts[i].Some? ==> now[i].value.(revoked := false) == ts[i].value.(revoked := false))
    {
      RevokedSlot(ts, id, i);
    }
    assert Rooted(now) by {
      forall i: nat | i < |now| && now[i].Some? && now[i].value.parent.Some?
        ensures exists j: nat :: j < i && ParentOf(now, j, i)
      {
        var j: nat :| j < i && ParentOf(ts, j, i);
        RevokedLinks(ts, id, j, i);
        assert ParentOf(now, j, i);
      }
    }
    forall i: nat, j: nat | ParentOf(now, j, i)
      ensures j < i && now[j].value.capability.CanAttenuateTo(now[i].value.capability)
          && (Live(now, i) ==> Live(now, j))
    {
      RevokedLinks(ts, id, j, i);
      RevokedSlot(ts, id, i);
      RevokedSlot(ts, id, j);
      if Live(now, i) && Doomed(ts, id, j) {
        DoomChild(ts, id, j, i);
      }
    }
  }

  // Runs ------------------------------------------------------------------------------

  lemma StepKeepsInv(ts: Table, op: Op)
    requires Inv(ts) && Allowed(ts, op)
    ensures Inv(Apply(ts, op))
  {
    match op
    case GrantRoot(token) =>
      if FirstFree(ts) < |ts| { PutKeepsInv(ts, FirstFree(ts), token, 0); }
    case AttenuateHandle(handle, cap, expiry, holder, id) =>
      var found := Lookup(ts, handle);
      if found.Some? && found.value.capability.CanAttenuateTo(cap) && FirstFree(ts) < |ts| {
        PutKeepsInv(ts, FirstFree(ts), Child(found.value, cap, expiry, holder, id), handle);
      }
    case RevokeId(id) =>
      RevokeKeepsInv(ts, id);
  }

  lemma {:induction false} RunKeepsInv(ts: Table, ops: seq<Op>)
    requires Inv(ts) && Run(ts, ops)
    ensures Inv(After(ts, ops))
    decreases |ops|
  {
    if ops == [] {
    } else {
      StepKeepsInv(ts, ops[0]);
      RunKeepsInv(Apply(ts, ops[0]), ops[1..]);
    }
  }

  /** Slots from an ancestor down to a token, one parent link at a time. */
  predicate Chain(ts: Table, chain: seq<nat>) {
    && chain != []
    && (forall k :: 0 <= k < |chain| ==> chain[k] < |ts| && ts[chain[k]].Some?)
    && (forall k :: 0 < k < |chain| ==> ParentOf(ts, chain[k - 1], chain[k]))
  }

  lemma {:induction false} ChainKept(ts: Table, chain: seq<nat>)
    requires Inv(ts) && Chain(ts, chain)
    ensures ts[chain[0]].value.capability.CanAttenuateTo(ts[chain[|chain| - 1]].value.capability)
    ensures Live(ts, chain[|chain| - 1]) ==> forall k :: 0 <= k < |chain| ==> Live(ts, chain[k])
    decreases |chain|
  {
    var n := |chain| - 1;
    if n == 0 {
      AttenuationIsPreorder(ts[chain[0]].value.capability, ts[chain[0]].value.capability,
          ts[chain[0]].value.capability);
    } else {
      var up := chain[..n];
      assert Chain(ts, up);
      assert ParentOf(ts, up[n - 1], chain[n]);
      ChainKept(ts, up);
      assert forall k :: 0 <= k < n ==> up[k] == chain[k];
      AttenuationIsPreorder(ts[chain[0]].value.capability, ts[chain[n - 1]].value.capability,
          ts[chain[n]].value.capability);
    }
  }

  /** In every run, a live token's ancestors are live, and each of them could be attenuated to it directly. */
  lemma AncestorsLiveAndBroader(ops: seq<Op>, chain: seq<nat>)
    requires Run(Empty(), ops) && Chain(After(Empty(), ops), chain)
    ensures var ts := After(Empty(), ops);
      && ts[chain[0]].value.capability.CanAttenuateTo(ts[chain[|chain| - 1]].value.capability)
      && (Live(ts, chain[|chain| - 1]) ==> forall k :: 0 <= k < |chain| ==> Live(ts, chain[k]))
  {
    RunKeepsInv(Empty(), ops);
    ChainKept(After(Empty(), ops), chain);
  }

  lemma {:induction false} ReachesRoot(ts: Table, i: nat) returns (chain: seq<nat>)
    requires Inv(ts) && i < |ts| && ts[i].Some?
    ensures Chain(ts, chain) && chain[|chain| - 1] == i && ts[chain[0]].value.parent.None?
    decreases i
  {
    if ts[i].value.parent.None? {
      chain := [i];
    } else {
      var j: nat :| j < i && ParentOf(ts, j, i);
      var up := ReachesRoot(ts, j);
      chain := up + [i];
      ChainExtends(ts, up, i);
    }
  }

  lemma ChainExtends(ts: Table, chain: seq<nat>, i: nat)
    requires Chain(ts, chain) && ParentOf(ts, chain[|chain| - 1], i)
    ensures Chain(ts, chain + [i])
  {
  }

  /**
    In every run, a live token descends from a granted one: its parent links
    lead to a root, and every token on the way is live and could be attenuated
    to it directly.
   */
  lemma LiveFromRoot(ops: seq<Op>, i: nat) returns (chain: seq<nat>)
    requires Run(Empty(), ops) && Live(After(Empty(), ops), i)
    ensures var ts := After(Empty(), ops);
      && Chain(ts, chain) && chain[|chain| - 1] == i && ts[chain[0]].value.parent.None?
      && (forall k :: 0 <= k < |chain| ==> Live(ts, chain[k]))
      && (forall k :: 0 <= k < |chain| ==> ts[chain[k]].value.capability.CanAttenuateTo(ts[i].value.capability))
  {
    var ts := After(Empty(), ops);
    RunKeepsInv(Empty(), ops);
    chain := ReachesRoot(ts, i);
    ChainKept(ts, chain);
    forall k | 0 <= k < |chain| ensures ts[chain[k]].value.capability.CanAttenuateTo(ts[i].value.capability) {
      ChainSuffix(ts, chain, k);
      ChainKept(ts, chain[k..]);
    }
  }

  lemma ChainSuffix(ts: Table, chain: seq<nat>, k: nat)
    requires Chain(ts, chain) && k < |chain|
    ensures Chain(ts, chain[k..])
  {
    var down := chain[k..];
    forall n | 0 < n < |down| ensures ParentOf(ts, down[n - 1], down[n]) {
      assert ParentOf(ts, chain[k + n - 1], chain[k + n]);
    }
  }

  /** What a slot's token may still become: only revoked. */
  predicate SameToken(was: Option<Token>, now: Option<Token>) {
    was.Some? ==> now.Some? && (now == was || now == Some(was.value.(revoked := true)))
  }

  lemma StepKeepsToken(ts: Table, op: Op, i: nat)
    requires i < |ts|
    ensures |Apply(ts, op)| == |ts| && SameToken(ts[i], Apply(ts, op)[i])
  {
    match op
    case GrantRoot(_) =>
    case AttenuateHandle(_, _, _, _, _) =>
    case RevokeId(id) => RevokedSlot(ts, id, i);
  }

  /** A handle names the same token for ever, so looking it up later yields that token unchanged or nothing. */
  lemma {:induction false} HandleNamesOneToken(ts: Table, ops: seq<Op>, handle: nat)
    requires Run(ts, ops) && handle < |ts| && ts[handle].Some?
    ensures |After(ts, ops)| == |ts| && SameToken(ts[handle], After(ts, ops)[handle])
    ensures var found := Lookup(After(ts, ops), handle); found == None || found == ts[handle]
    decreases |ops|
  {
    if ops == [] {
    } else {
      StepKeepsToken(ts, ops[0], handle);
      HandleNamesOneToken(Apply(ts, ops[0]), ops[1..], handle);
    }
  }

  // Cascades depend on descent only ------------------------------------------------------

  /** Slot i holds `id` or one of its descendants. */
  ghost predicate Descends(ts: Table, id: nat, i: nat) {
    exists chain :: Chain(ts, chain) && ts[chain[0]].value.id == id && chain[|chain| - 1] == i
  }

  /** In a table reached by a run, revoking an id revokes every descendant that is still live and nothing else. */
  lemma DoomedExactlyDescendants(ts: Table, id: nat, i: nat)
    requires Inv(ts)
    ensures Doomed(ts, id, i) <==> Live(ts, i) && Descends(ts, id, i)
  {
    if Doomed(ts, id, i) {
      var path :| RevokePath(ts, id, path) && path[|path| - 1] == i;
      assert Chain(ts, path);
    }
    if Live(ts, i) && Descends(ts, id, i) {
      var chain :| Chain(ts, chain) && ts[chain[0]].value.id == id && chain[|chain| - 1] == i;
      ChainKept(ts, chain);
      assert RevokePath(ts, id, chain);
    }
  }

  lemma DescentKept(ts: Table, id: nat, other: nat, i: nat)
    ensures Descends(Revoked(ts, other), id, i) <==> Descends(ts, id, i)
  {
    var now := Revoked(ts, other);
    if Descends(ts, id, i) {
      var chain :| Chain(ts, chain) && ts[chain[0]].value.id == id && chain[|chain| - 1] == i;
      ChainAcross(ts, other, chain);
      assert Chain(now, chain) && now[chain[0]].value.id == id;
    }
    if Descends(now, id, i) {
      var chain :| Chain(now, chain) && now[chain[0]].value.id == id && chain[|chain| - 1] == i;
      ChainAcross(ts, other, chain);
      assert Chain(ts, chain) && ts[chain[0]].value.id == id;
    }
  }

  lemma ChainAcross(ts: Table, other: nat, chain: seq<nat>)
    ensures Chain(Revoked(ts, other), chain) <==> Chain(ts, chain)
    ensures Chain(ts, chain) ==> Revoked(ts, other)[chain[0]].value.id == ts[chain[0]].value.id
  {
    forall k | 0 <= k < |chain| && chain[k] < |ts| ensures Revoked(ts, other)[chain[k]].Some? == ts[chain[k]].Some? {
      RevokedSlot(ts, other, chain[k]);
    }
    forall k | 0 < k < |chain|
      ensures ParentOf(Revoked(ts, other), chain[k - 1], chain[k]) <==> ParentOf(ts, chain[k - 1], chain[k])
    {
      RevokedLinks(ts, other, chain[k - 1], chain[k]);
    }
  }

  lemma TwoRevocations(ts: Table, a: nat, b: nat, i: nat)
    requires Inv(ts) && i < |ts|
    ensures Revoked(Revoked(ts, a), b)[i]
         == if Live(ts, i) && (Descends(ts, a, i) || Descends(ts, b, i)) then Mark(ts[i]) else ts[i]
  {
    var once := Revoked(ts, a);
    RevokeKeepsInv(ts, a);
    RevokedSlot(ts, a, i);
    RevokedSlot(once, b, i);
    DoomedExactlyDescendants(ts, a, i);
    DoomedExactlyDescendants(once, b, i);
    DescentKept(ts, b, a, i);
  }

  /** In every run, two revocations leave the same table in either order, and repeating one changes nothing. */
  lemma RevocationsCommute(ops: seq<Op>, a: nat, b: nat)
    requires Run(Empty(), ops)
    ensures var ts := After(Empty(), ops);
      && Revoked(Revoked(ts, a), b) == Revoked(Revoked(ts, b), a)
      && Revoked(Revoked(ts, a), a) == Revoked(ts, a)
  {
    var ts := After(Empty(), ops);
    RunKeepsInv(Empty(), ops);
    forall i: nat | i < |ts|
      ensures Revoked(Revoked(ts, a), b)[i] == Revoked(Revoked(ts, b), a)[i]
      ensures Revoked(Revoked(ts, a), a)[i] == Revoked(ts, a)[i]
    {
      TwoRevocations(ts, a, b, i);
      TwoRevocations(ts, b, a, i);
      TwoRevocations(ts, a, a, i);
      RevokedSlot(ts, a, i);
      DoomedExactlyDescendants(ts, a, i);
    }
  }
}
