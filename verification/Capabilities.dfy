/**
  Capabilities and the per-process capability table: granting, attenuating and
  revoking tokens, and what every run of these keeps.
 */
module Capabilities {
  import opened Basics

  const MAX_CAPS_PER_PROCESS: nat := 256

  datatype Capability =
    | ChannelCreate
    | ChannelAccess(channel: nat)
    | SharedMemoryCreate
    | SharedMemoryAccess(region: nat)
    | SpawnAgent
    | DebugPrint
    | GpuMmioAccess
    | GpuBufferCreate
    | GpuBufferAccess(buffer: nat)
    | DisplayControl
    | CompositorCreateSurface
    | CompositorFullscreen
    | CompositorOverlay
    | CompositorInputAccess
  {
    predicate Permits(action: Capability) {
      match this
      case ChannelCreate => action.ChannelCreate?
      case ChannelAccess(held) => action.ChannelAccess? && held == action.channel
      case SharedMemoryCreate => action.SharedMemoryCreate?
      case SharedMemoryAccess(held) => action.SharedMemoryAccess? && held == action.region
      case SpawnAgent => action.SpawnAgent?
      case DebugPrint => action.DebugPrint?
      case GpuMmioAccess => action.GpuMmioAccess?
      case GpuBufferCreate => action.GpuBufferCreate?
      case GpuBufferAccess(held) => action.GpuBufferAccess? && held == action.buffer
      case DisplayControl => action.DisplayControl?
      case CompositorCreateSurface => action.CompositorCreateSurface?
      case CompositorFullscreen => action.CompositorFullscreen?
      case CompositorOverlay => action.CompositorOverlay?
      case CompositorInputAccess => action.CompositorInputAccess?
    }

    predicate CanAttenuateTo(other: Capability) {
      || (ChannelCreate? && other.ChannelAccess?)
      || (SharedMemoryCreate? && other.SharedMemoryAccess?)
      || (GpuBufferCreate? && other.GpuBufferAccess?)
      || Permits(other)
    }
  }

  lemma PermitsExactly(a: Capability, b: Capability)
    ensures a.Permits(b) <==> a == b
  {
  }

  /**
    Attenuation is a preorder, and it never widens: what an attenuated capability
    permits, its origin can be attenuated to.
   */
  lemma AttenuationIsPreorder(a: Capability, b: Capability, c: Capability)
    ensures a.CanAttenuateTo(a)
    ensures a.CanAttenuateTo(b) && b.CanAttenuateTo(c) ==> a.CanAttenuateTo(c)
    ensures a.CanAttenuateTo(b) && b.CanAttenuateTo(a) ==> a == b
    ensures a.CanAttenuateTo(b) && b.Permits(c) ==> a.CanAttenuateTo(c)
  {
    PermitsExactly(a, a);
    PermitsExactly(a, b);
    PermitsExactly(b, a);
    PermitsExactly(b, c);
    PermitsExactly(a, c);
  }

  datatype Token = Token(
    id: nat,
    capability: Capability,
    holder: nat,
    delegatable: bool,
    revoked: bool,
    parent: Option<nat>,
    usageCount: nat,
    createdAt: nat,
    expiresAt: Option<nat>)

  type Table = seq<Option<Token>>

  datatype Error = Eperm | Enospc

  datatype Result<T> = Ok(value: T) | Err(error: Error)

  predicate Live(ts: Table, i: nat) {
    i < |ts| && ts[i].Some? && !ts[i].value.revoked
  }

  function LiveCount(ts: Table): nat {
    if ts == [] then 0
    else LiveCount(ts[..|ts| - 1]) + if Live(ts, |ts| - 1) then 1 else 0
  }

  // Cascade revocation, by paths -------------------------------------------------

  /** Live tokens from one named `id` down parent links. */
  predicate RevokePath(ts: Table, id: nat, path: seq<nat>) {
    && path != []
    && (forall k :: 0 <= k < |path| ==> Live(ts, path[k]))
    && ts[path[0]].value.id == id
    && (forall k :: 0 < k < |path| ==> ts[path[k]].value.parent == Some(ts[path[k - 1]].value.id))
  }

  /** Slot i holds a live token that is `id` or descends from a live `id` through live tokens. */
  ghost predicate Doomed(ts: Table, id: nat, i: nat) {
    exists path :: RevokePath(ts, id, path) && path[|path| - 1] == i
  }

  function Mark(t: Option<Token>): Option<Token> {
    match t case None => None case Some(token) => Some(token.(revoked := true))
  }

  ghost function Revoked(ts: Table, id: nat): (r: Table)
    ensures |r| == |ts|
  {
    seq(|ts|, i requires 0 <= i < |ts| => if Doomed(ts, id, i) then Mark(ts[i]) else ts[i])
  }

  lemma DoomRoot(ts: Table, id: nat, i: nat)
    requires Live(ts, i) && ts[i].value.id == id
    ensures Doomed(ts, id, i)
  {
    assert RevokePath(ts, id, [i]);
    assert [i][|[i]| - 1] == i;
  }

  lemma DoomChild(ts: Table, id: nat, j: nat, i: nat)
    requires Doomed(ts, id, j) && Live(ts, i) && ts[i].value.parent == Some(ts[j].value.id)
    ensures Doomed(ts, id, i)
  {
    var path :| RevokePath(ts, id, path) && path[|path| - 1] == j;
    var longer := path + [i];
    assert RevokePath(ts, id, longer);
    assert longer[|longer| - 1] == i;
  }

  /** The marks revoke makes: indices of tokens it has revoked so far. */
  ghost predicate MarkedTable(ts: Table, marks: seq<nat>, now: Table) {
    |now| == |ts| && forall i :: 0 <= i < |ts| ==> now[i] == if i in marks then Mark(ts[i]) else ts[i]
  }

  ghost predicate RootsMarked(ts: Table, id: nat, marks: seq<nat>) {
    forall i: nat :: Live(ts, i) && ts[i].value.id == id ==> i in marks
  }

  /** No live unmarked token has a marked parent. */
  ghost predicate Closed(ts: Table, marks: seq<nat>) {
    ClosedBelow(ts, marks, |ts|)
  }

  ghost predicate ClosedBelow(ts: Table, marks: seq<nat>, n: nat) {
    forall i: nat :: i < n ==> ClosedAt(ts, marks, i)
  }

  ghost predicate ClosedAt(ts: Table, marks: seq<nat>, i: nat) {
    Live(ts, i) && i !in marks ==>
      forall j :: j in marks && Live(ts, j) ==> ts[i].value.parent != Some(ts[j].value.id)
  }

  lemma ClosedNext(ts: Table, marks: seq<nat>, n: nat)
    requires ClosedBelow(ts, marks, n) && ClosedAt(ts, marks, n)
    ensures ClosedBelow(ts, marks, n + 1)
  {
    forall i: nat | i < n + 1 ensures ClosedAt(ts, marks, i) {
      if i < n {
        assert ClosedAt(ts, marks, i);
      }
    }
  }

  lemma {:induction false} ClosedCoversPath(ts: Table, id: nat, marks: seq<nat>, path: seq<nat>)
    requires RootsMarked(ts, id, marks) && Closed(ts, marks) && RevokePath(ts, id, path)
    ensures path[|path| - 1] in marks
    decreases |path|
  {
    var n := |path| - 1;
    if n == 0 {
    } else {
      assert RevokePath(ts, id, path[..n]);
      ClosedCoversPath(ts, id, marks, path[..n]);
      assert path[..n][n - 1] == path[n - 1];
      assert ClosedAt(ts, marks, path[n]);
    }
  }

  /** A closed set of marks, all of them doomed, is exactly the doomed tokens. */
  lemma MarksAreDoomed(ts: Table, id: nat, marks: seq<nat>, now: Table)
    requires RootsMarked(ts, id, marks) && Closed(ts, marks)
    requires forall i :: i in marks ==> Doomed(ts, id, i)
    requires MarkedTable(ts, marks, now)
    ensures now == Revoked(ts, id)
  {
    forall i | 0 <= i < |ts| ensures i in marks <==> Doomed(ts, id, i) {
      if Doomed(ts, id, i) {
        var path :| RevokePath(ts, id, path) && path[|path| - 1] == i;
        ClosedCoversPath(ts, id, marks, path);
      }
    }
  }

  lemma {:induction false} FewIndices(s: set<nat>, n: nat)
    requires forall i :: i in s ==> i < n
    ensures |s| <= n
  {
    if n == 0 {
      assert s == {};
    } else {
      FewIndices(s - {n - 1}, n - 1);
      assert |s| <= |s - {n - 1}| + 1;
    }
  }

  predicate Distinct(marks: seq<nat>) {
    forall j, k :: 0 <= j < k < |marks| ==> marks[j] != marks[k]
  }

  lemma {:induction false} RoomForId(marks: seq<nat>, n: nat)
    requires Distinct(marks) && forall k :: 0 <= k < |marks| ==> marks[k] < n
    ensures |marks| <= n
  {
    var s := set i | i in marks;
    FewIndices(s, n);
    SetOfDistinct(marks, s);
  }

  lemma {:induction false} SetOfDistinct(marks: seq<nat>, s: set<nat>)
    requires Distinct(marks) && forall i :: i in s <==> i in marks
    ensures |s| == |marks|
  {
    if marks == [] {
      assert s == {};
    } else {
      var last := marks[|marks| - 1];
      SetOfDistinct(marks[..|marks| - 1], s - {last});
    }
  }

  /** The ids of the marked tokens, all doomed, listed in the order they were marked. */
  ghost predicate Listed(ts: Table, id: nat, marks: seq<nat>, ids: seq<Option<nat>>) {
    && |marks| <= |ids|
    && Distinct(marks)
    && (forall k :: 0 <= k < |marks| ==> Live(ts, marks[k]) && Doomed(ts, id, marks[k]))
    && (forall k :: 0 <= k < |marks| ==> ids[k] == Some(ts[marks[k]].value.id))
  }

  lemma ChildOfMark(ts: Table, id: nat, marks: seq<nat>, ids: seq<Option<nat>>, i: nat)
    requires Listed(ts, id, marks, ids) && Live(ts, i) && ts[i].value.parent in ids[..|marks|]
    ensures Doomed(ts, id, i)
  {
    var k :| 0 <= k < |marks| && ids[..|marks|][k] == ts[i].value.parent;
    DoomChild(ts, id, marks[k], i);
  }

  lemma ListedParent(ts: Table, id: nat, marks: seq<nat>, ids: seq<Option<nat>>, i: nat)
    requires Listed(ts, id, marks, ids) && Live(ts, i) && ts[i].value.parent !in ids[..|marks|]
    ensures forall j :: j in marks ==> ts[i].value.parent != Some(ts[j].value.id)
  {
    forall j | j in marks ensures ts[i].value.parent != Some(ts[j].value.id) {
      var k :| 0 <= k < |marks| && marks[k] == j;
      assert ids[..|marks|][k] == Some(ts[j].value.id);
    }
  }

  lemma {:induction false} CountUpdate(ts: Table, i: nat, t: Option<Token>)
    requires i < |ts|
    ensures LiveCount(ts[i := t])
         == LiveCount(ts) - (if Live(ts, i) then 1 else 0) + (if t.Some? && !t.value.revoked then 1 else 0)
  {
    var n := |ts| - 1;
    if i < n {
      CountUpdate(ts[..n], i, t);
      assert ts[i := t][..n] == ts[..n][i := t];
    } else {
      assert ts[i := t][..n] == ts[..n];
    }
  }

  lemma {:induction false} NoneIsZero(ts: Table)
    requires forall i :: 0 <= i < |ts| ==> ts[i].None?
    ensures LiveCount(ts) == 0
  {
    if ts == [] {
    } else {
      NoneIsZero(ts[..|ts| - 1]);
    }
  }

  function SaturatingDecrement(n: nat): nat {
    if n == 0 then 0 else n - 1
  }

  // Granting ------------------------------------------------------------------------

  function FirstFree(ts: Table): (i: nat)
    ensures i <= |ts| && (i < |ts| ==> ts[i].None?) && forall j :: 0 <= j < i ==> ts[j].Some?
  {
    if ts == [] then 0
    else if ts[0].None? then 0
    else 1 + FirstFree(ts[1..])
  }

  function Granted(ts: Table, token: Token): (Table, Result<nat>) {
    var i := FirstFree(ts);
    if i < |ts| then (ts[i := Some(token)], Ok(i)) else (ts, Err(Enospc))
  }

  function Lookup(ts: Table, handle: nat): Option<Token> {
    if handle < |ts| && ts[handle].Some? && !ts[handle].value.revoked then ts[handle] else None
  }

  function Child(parent: Token, cap: Capability, expiry: Option<nat>, holder: nat, id: nat): Token {
    Token(id, cap, holder, false, false, Some(parent.id), 0, parent.createdAt, expiry)
  }

  function Attenuated(ts: Table, handle: nat, cap: Capability, expiry: Option<nat>, holder: nat, id: nat)
    : (Table, Result<nat>)
  {
    match Lookup(ts, handle)
    case None => (ts, Err(Eperm))
    case Some(parent) =>
      if !parent.capability.CanAttenuateTo(cap) then (ts, Err(Eperm))
      else Granted(ts, Child(parent, cap, expiry, holder, id))
  }

  predicate Authorizes(token: Token, cap: Capability, now: nat) {
    && !token.revoked
    && (token.expiresAt.Some? ==> now < token.expiresAt.value)
    && token.capability.Permits(cap)
  }

  // The table -------------------------------------------------------------------------

  class CapabilityTable {
    const tokens: array<Option<Token>>
    var count: nat

    ghost predicate Valid()
      reads this, tokens
    {
      tokens.Length == MAX_CAPS_PER_PROCESS && count == LiveCount(tokens[..])
    }

    constructor ()
      ensures Valid() && fresh(tokens) && count == 0
      ensures tokens[..] == seq(MAX_CAPS_PER_PROCESS, _ => None)
    {
      tokens := new Option<Token>[MAX_CAPS_PER_PROCESS](_ => None);
      count := 0;
      new;
      NoneIsZero(tokens[..]);
      assert tokens[..] == seq(MAX_CAPS_PER_PROCESS, _ => None);
    }

    /** Fills the first free slot; `count` stays the number of live tokens unless the token came already revoked. */
    method Grant(token: Token) returns (r: Result<nat>)
      requires Valid()
      modifies this, tokens
      ensures (tokens[..], r) == Granted(old(tokens[..]), token)
      ensures Valid() <==> r.Err? || !token.revoked
    {
      ghost var ts := tokens[..];
      for i := 0 to tokens.Length
        invariant count == old(count) && tokens[..] == ts && i <= FirstFree(ts)
      {
        if tokens[i].None? {
          CountUpdate(ts, i, Some(token));
          tokens[i] := Some(token);
          count := count + 1;
          assert tokens[..] == ts[i := Some(token)];
          return Ok(i);
        }
      }
      r := Err(Enospc);
    }

    method Get(handle: nat) returns (t: Option<Token>)
      requires Valid()
      ensures t == Lookup(tokens[..], handle)
    {
      if handle >= MAX_CAPS_PER_PROCESS {
        return None;
      }
      t := tokens[handle];
      if t.Some? && t.value.revoked {
        t := None;
      }
    }

    /** The id of the first live, unexpired token that permits the action; None exactly when there is none. */
    method FindAuthorizingToken(cap: Capability, now: nat) returns (id: Option<nat>)
      requires Valid()
      ensures id.None? ==>
        forall i :: 0 <= i < tokens.Length && tokens[i].Some? ==> !Authorizes(tokens[i].value, cap, now)
      ensures id.Some? ==> exists i ::
        && 0 <= i < tokens.Length && tokens[i].Some? && Authorizes(tokens[i].value, cap, now)
        && id.value == tokens[i].value.id
        && forall j :: 0 <= j < i && tokens[j].Some? ==> !Authorizes(tokens[j].value, cap, now)
    {
      for i := 0 to tokens.Length
        invariant forall j :: 0 <= j < i && tokens[j].Some? ==> !Authorizes(tokens[j].value, cap, now)
      {
        if tokens[i].Some? {
          var token := tokens[i].value;
          if token.revoked {
            continue;
          }
          if token.expiresAt.Some? && now >= token.expiresAt.value {
            continue;
          }
          if token.capability.Permits(cap) {
            return Some(token.id);
          }
        }
      }
      id := None;
    }

    method Attenuate(handle: nat, cap: Capability, expiry: Option<nat>, holder: nat, id: nat) returns (r: Result<nat>)
      requires Valid()
      modifies this, tokens
      ensures Valid() && (tokens[..], r) == Attenuated(old(tokens[..]), handle, cap, expiry, holder, id)
    {
      var parent := Get(handle);
      if parent.None? {
        return Err(Eperm);
      }
      if !parent.value.capability.CanAttenuateTo(cap) {
        return Err(Eperm);
      }
      r := Grant(Child(parent.value, cap, expiry, holder, id));
    }

    /** Cascade revocation: exactly the doomed tokens are marked, and `count` follows. */
    method Revoke(id: nat)
      requires Valid()
      modifies this, tokens
      ensures Valid() && tokens[..] == Revoked(old(tokens[..]), id)
    {
      var ids := new Option<nat>[MAX_CAPS_PER_PROCESS](_ => None);
      ghost var ts := tokens[..];
      ghost var marks: seq<nat>;
      var n: nat;
      marks, n := MarkRoots(ts, id, ids);
      var changed := true;
      while changed
        modifies this, tokens, ids
        invariant Progress(ts, id, marks, ids[..], n) && RootsMarked(ts, id, marks)
        invariant !changed ==> Closed(ts, marks)
        decreases MAX_CAPS_PER_PROCESS - n, changed
      {
        marks, n, changed := MarkChildren(ts, id, marks, ids, n);
      }
      MarksAreDoomed(ts, id, marks, tokens[..]);
    }

    /** Revokes every live token with the given id. */
    method MarkRoots(ghost ts: Table, id: nat, ids: array<Option<nat>>) returns (ghost marks: seq<nat>, n: nat)
      requires Valid() && ts == tokens[..] && ids.Length == MAX_CAPS_PER_PROCESS
      modifies this, tokens, ids
      ensures Progress(ts, id, marks, ids[..], n) && RootsMarked(ts, id, marks)
    {
      marks, n := [], 0;
      for i := 0 to tokens.Length
        invariant Progress(ts, id, marks, ids[..], n)
        invariant forall j :: j in marks ==> j < i
        invariant forall j: nat :: j < i && Live(ts, j) && ts[j].value.id == id ==> j in marks
      {
        assert tokens[..][i] == ts[i];
        if tokens[i].Some? && tokens[i].value.id == id && !tokens[i].value.revoked {
          DoomRoot(ts, id, i);
          marks, n := MarkSlot(ts, id, marks, ids, n, i, id);
        }
      }
    }

    /** One pass over the table, revoking live tokens whose parent is listed. */
    method MarkChildren(ghost ts: Table, ghost id: nat, ghost marked: seq<nat>, ids: array<Option<nat>>, listed: nat)
      returns (ghost marks: seq<nat>, n: nat, changed: bool)
      requires Progress(ts, id, marked, ids[..], listed) && RootsMarked(ts, id, marked)
      modifies this, tokens, ids
      ensures Progress(ts, id, marks, ids[..], n) && RootsMarked(ts, id, marks)
      ensures if changed then n > listed else n == listed && Closed(ts, marks)
    {
      marks, n, changed := marked, listed, false;
      for i := 0 to tokens.Length
        invariant Progress(ts, id, marks, ids[..], n) && RootsMarked(ts, id, marks)
        invariant if changed then n > listed else n == listed && ClosedBelow(ts, marks, i)
      {
        var hit;
        marks, n, hit := MarkIfChild(ts, id, marks, ids, n, i);
        changed := changed || hit;
        if !changed {
          ClosedNext(ts, marks, i);
        }
      }
    }

    method MarkIfChild(ghost ts: Table, ghost id: nat, ghost marked: seq<nat>, ids: array<Option<nat>>, listed: nat,
                       i: nat)
      returns (ghost marks: seq<nat>, n: nat, hit: bool)
      requires i < tokens.Length && Progress(ts, id, marked, ids[..], listed)
      modifies this, tokens, ids
      ensures Progress(ts, id, marks, ids[..], n)
      ensures if hit then n == listed + 1 && marks == marked + [i]
              else n == listed && marks == marked && ClosedAt(ts, marks, i)
    {
      marks, n, hit := marked, listed, false;
      assert tokens[..][i] == if i in marks then Mark(ts[i]) else ts[i];
      if tokens[i].Some? && !tokens[i].value.revoked && tokens[i].value.parent.Some? {
        if tokens[i].value.parent in ids[..n] {
          ChildOfMark(ts, id, marks, ids[..], i);
          marks, n := MarkSlot(ts, id, marks, ids, n, i, tokens[i].value.id);
          hit := true;
        } else {
          ListedParent(ts, id, marks, ids[..], i);
        }
      }
    }

    /** Where a revocation of `id` stands: what is marked, and whose ids are listed. */
    ghost predicate Progress(ts: Table, id: nat, marks: seq<nat>, ids: seq<Option<nat>>, n: nat)
      reads this, tokens
    {
      && Valid()
      && |ts| == |ids| == MAX_CAPS_PER_PROCESS
      && MarkedTable(ts, marks, tokens[..])
      && n == |marks| <= |ids|
      && Listed(ts, id, marks, ids)
    }

    /** Revokes slot i and lists its id; the list always has room for it. */
    method MarkSlot(ghost ts: Table, ghost id: nat, ghost marks: seq<nat>, ids: array<Option<nat>>, n: nat, i: nat,
                    tokenId: nat)
      returns (ghost marked: seq<nat>, m: nat)
      requires Progress(ts, id, marks, ids[..], n)
      requires Doomed(ts, id, i) && Live(ts, i) && i !in marks && ts[i].value.id == tokenId
      modifies this, tokens, ids
      ensures marked == marks + [i] && m == n + 1
      ensures Progress(ts, id, marked, ids[..], m)
    {
      CountUpdate(tokens[..], i, Mark(tokens[i]));
      RoomForId(marks + [i], |ts|);
      ghost var was := tokens[..];
      tokens[i] := Mark(tokens[i]);
      assert tokens[..] == was[i := Mark(was[i])];
      marked, m := marks + [i], n;
      if m < MAX_CAPS_PER_PROCESS {
        ids[m] := Some(tokenId);
        m := m + 1;
      }
      count := SaturatingDecrement(count);
    }
  }
}
