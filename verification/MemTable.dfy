/**
  The in-memory index of content-addressed blocks: a sorted vector searched by
  bisection, against a reference-counted map.
 */
module MemTable {
  import opened Basics

  /** A content hash, compared byte by byte. */
  type Key = seq<Byte>

  datatype BlockLocation = BlockLocation(offset: nat, size: nat, tier: nat)

  datatype Entry = Entry(key: Key, location: BlockLocation, refcount: nat)

  /** What the reference map holds for a key. */
  datatype Block = Block(location: BlockLocation, refcount: nat)

  datatype Search = Found(index: nat) | Missing(position: nat)

  datatype InsertResult = New | Dedup | MemTableFull

  // The order of keys -------------------------------------------------------------

  predicate Less(a: Key, b: Key) {
    b != [] && (a == [] || a[0] < b[0] || (a[0] == b[0] && Less(a[1..], b[1..])))
  }

  lemma {:induction false} LessTrans(a: Key, b: Key, c: Key)
    requires Less(a, b) && Less(b, c)
    ensures Less(a, c)
    decreases |a|
  {
    if a == [] || !(a[0] == b[0] == c[0]) {
    } else {
      LessTrans(a[1..], b[1..], c[1..]);
    }
  }

  lemma {:induction false} LessIrreflexive(a: Key)
    ensures !Less(a, a)
  {
    if a == [] {
    } else {
      LessIrreflexive(a[1..]);
    }
  }

  lemma {:induction false} LessTotal(a: Key, b: Key)
    ensures a == b || Less(a, b) || Less(b, a)
    decreases |a|
  {
    if a == [] || b == [] || a[0] != b[0] {
    } else {
      LessTotal(a[1..], b[1..]);
      assert a == [a[0]] + a[1..] && b == [b[0]] + b[1..];
    }
  }

  // The vector as a map --------------------------------------------------------------

  ghost predicate Sorted(es: seq<Entry>) {
    forall i, j :: 0 <= i < j < |es| ==> Less(es[i].key, es[j].key)
  }

  lemma KeysDistinct(es: seq<Entry>)
    requires Sorted(es)
    ensures forall i, j :: 0 <= i < |es| && 0 <= j < |es| && es[i].key == es[j].key ==> i == j
  {
    forall i, j | 0 <= i < j < |es| ensures es[i].key != es[j].key {
      LessIrreflexive(es[i].key);
      assert Less(es[i].key, es[j].key);
    }
  }

  ghost function Contents(es: seq<Entry>): map<Key, Block>
    requires Sorted(es)
  {
    KeysDistinct(es);
    map i | 0 <= i < |es| :: es[i].key := Block(es[i].location, es[i].refcount)
  }

  ghost predicate HasKey(es: seq<Entry>, k: Key) {
    exists i :: 0 <= i < |es| && es[i].key == k
  }

  lemma ContentsAt(es: seq<Entry>, i: nat)
    requires Sorted(es) && i < |es|
    ensures es[i].key in Contents(es) && Contents(es)[es[i].key] == Block(es[i].location, es[i].refcount)
  {
    KeysDistinct(es);
  }

  lemma ContentsIs(es: seq<Entry>, m: map<Key, Block>)
    requires Sorted(es)
    requires forall k :: k in m <==> HasKey(es, k)
    requires forall i :: 0 <= i < |es| ==> es[i].key in m && m[es[i].key] == Block(es[i].location, es[i].refcount)
    ensures Contents(es) == m
  {
    KeysDistinct(es);
    forall k ensures k in Contents(es) <==> k in m {
      assert k in m <==> HasKey(es, k);
    }
  }

  /** Where a key belongs: everything before is smaller, everything from there on larger. */
  ghost predicate Gap(es: seq<Entry>, key: Key, p: nat) {
    && p <= |es|
    && (forall i :: 0 <= i < p ==> Less(es[i].key, key))
    && (forall i :: p <= i < |es| ==> Less(key, es[i].key))
  }

  lemma GapIsAbsent(es: seq<Entry>, key: Key, p: nat)
    requires Sorted(es) && Gap(es, key, p)
    ensures key !in Contents(es)
  {
    LessIrreflexive(key);
  }

  lemma InsertKeepsOrder(es: seq<Entry>, p: nat, e: Entry)
    requires Sorted(es) && Gap(es, e.key, p)
    ensures Sorted(es[..p] + [e] + es[p..])
  {
  }

  lemma InsertAt(es: seq<Entry>, p: nat, e: Entry)
    requires Sorted(es) && Gap(es, e.key, p)
    ensures Sorted(es[..p] + [e] + es[p..])
    ensures Contents(es[..p] + [e] + es[p..]) == Contents(es)[e.key := Block(e.location, e.refcount)]
  {
    var now := es[..p] + [e] + es[p..];
    var m := Contents(es)[e.key := Block(e.location, e.refcount)];
    InsertKeepsOrder(es, p, e);
    GapIsAbsent(es, e.key, p);
    forall i | 0 <= i < |now| ensures now[i].key in m && m[now[i].key] == Block(now[i].location, now[i].refcount) {
      if i != p {
        var j := if i < p then i else i - 1;
        assert now[i] == es[j];
        ContentsAt(es, j);
      }
    }
    forall k ensures k in m <==> HasKey(now, k) {
      InsertedKeys(es, p, e, now, k);
      assert k in Contents(es) <==> HasKey(es, k);
    }
    ContentsIs(now, m);
  }

  lemma InsertedKeys(es: seq<Entry>, p: nat, e: Entry, now: seq<Entry>, k: Key)
    requires p <= |es| && now == es[..p] + [e] + es[p..]
    ensures HasKey(now, k) <==> k == e.key || HasKey(es, k)
  {
    if HasKey(now, k) {
      var i :| 0 <= i < |now| && now[i].key == k;
      assert i == p || es[if i < p then i else i - 1].key == k;
    }
    if HasKey(es, k) {
      var i :| 0 <= i < |es| && es[i].key == k;
      assert now[if i < p then i else i + 1].key == k;
    }
    assert now[p] == e;
  }

  lemma RemoveAt(es: seq<Entry>, p: nat)
    requires Sorted(es) && p < |es|
    ensures Sorted(es[..p] + es[p + 1..])
    ensures Contents(es[..p] + es[p + 1..]) == Contents(es) - {es[p].key}
  {
    var now := es[..p] + es[p + 1..];
    var m := Contents(es) - {es[p].key};
    KeysDistinct(es);
    assert forall i :: 0 <= i < |now| ==> now[i] == es[if i < p then i else i + 1];
    forall k ensures k in m <==> HasKey(now, k) {
      RemovedKeys(es, p, now, k);
      assert k in Contents(es) <==> HasKey(es, k);
    }
    ContentsIs(now, m);
  }

  lemma RemovedKeys(es: seq<Entry>, p: nat, now: seq<Entry>, k: Key)
    requires Sorted(es) && p < |es| && now == es[..p] + es[p + 1..]
    ensures HasKey(now, k) <==> k != es[p].key && HasKey(es, k)
  {
    KeysDistinct(es);
    if HasKey(now, k) {
      var i :| 0 <= i < |now| && now[i].key == k;
      assert es[if i < p then i else i + 1].key == k;
    }
    if HasKey(es, k) && k != es[p].key {
      var i :| 0 <= i < |es| && es[i].key == k;
      assert now[if i < p then i else i - 1].key == k;
    }
  }

  lemma UpdateAt(es: seq<Entry>, p: nat, n: nat)
    requires Sorted(es) && p < |es|
    ensures Sorted(es[p := es[p].(refcount := n)])
    ensures Contents(es[p := es[p].(refcount := n)]) == Contents(es)[es[p].key := Block(es[p].location, n)]
  {
    var now := es[p := es[p].(refcount := n)];
    var m := Contents(es)[es[p].key := Block(es[p].location, n)];
    KeysDistinct(es);
    forall i | 0 <= i < |now| ensures now[i].key in m && m[now[i].key] == Block(now[i].location, now[i].refcount) {
      ContentsAt(es, i);
    }
    forall k ensures k in m <==> HasKey(now, k) {
      assert k in Contents(es) <==> HasKey(es, k);
      UpdatedKeys(es, now, k);
    }
    ContentsIs(now, m);
  }

  lemma UpdatedKeys(es: seq<Entry>, now: seq<Entry>, k: Key)
    requires |es| == |now| && forall i :: 0 <= i < |es| ==> now[i].key == es[i].key
    ensures HasKey(now, k) <==> HasKey(es, k)
  {
    if HasKey(es, k) {
      var i :| 0 <= i < |es| && es[i].key == k;
      assert now[i].key == k;
    }
  }

  lemma {:induction false} ContentsSize(es: seq<Entry>)
    requires Sorted(es)
    ensures |Contents(es)| == |es|
    decreases |es|
  {
    if es == [] {
      assert Contents(es) == map[];
    } else {
      var n := |es| - 1;
      ContentsSize(es[..n]);
      AddLast(es[..n], es[n], es);
    }
  }

  lemma AddLast(es: seq<Entry>, e: Entry, now: seq<Entry>)
    requires Sorted(now) && now == es + [e] && Sorted(es)
    ensures |Contents(now)| == |Contents(es)| + 1
  {
    var n := |es|;
    assert forall i :: 0 <= i < n ==> now[i] == es[i] && Less(now[i].key, now[n].key);
    InsertAt(es, n, e);
    assert es[..n] + [e] + es[n..] == now;
    GapIsAbsent(es, e.key, n);
  }

  // The reference map -----------------------------------------------------------------------

  function Inserted(m: map<Key, Block>, capacity: nat, key: Key, location: BlockLocation)
    : (map<Key, Block>, InsertResult)
  {
    if key in m then (m[key := m[key].(refcount := (m[key].refcount + 1) % U32)], Dedup)
    else if |m| >= capacity then (m, MemTableFull)
    else (m[key := Block(location, 1)], New)
  }

  function Removed(m: map<Key, Block>, key: Key): (map<Key, Block>, Option<BlockLocation>) {
    if key in m then (m - {key}, Some(m[key].location)) else (m, None)
  }

  function Decremented(m: map<Key, Block>, key: Key): (map<Key, Block>, Option<(BlockLocation, bool)>) {
    if key !in m then (m, None)
    else if m[key].refcount <= 1 then (m - {key}, Some((m[key].location, true)))
    else (m[key := m[key].(refcount := m[key].refcount - 1)], Some((m[key].location, false)))
  }

  // The table -------------------------------------------------------------------------------

  class MemTable {
    var entries: seq<Entry>
    const capacity: nat

    ghost predicate Valid()
      reads this
    {
      Sorted(entries) && |entries| <= capacity
    }

    ghost function Model(): map<Key, Block>
      reads this
      requires Valid()
    {
      Contents(entries)
    }

    constructor (capacity: nat)
      ensures Valid() && Model() == map[] && this.capacity == capacity
    {
      entries := [];
      this.capacity := capacity;
    }

    method BinarySearch(key: Key) returns (r: Search)
      requires Valid()
      ensures match r
              case Found(i) => i < |entries| && entries[i].key == key
              case Missing(p) => Gap(entries, key, p)
    {
      var low, high := 0, |entries|;
      while low < high
        invariant 0 <= low <= high <= |entries|
        invariant forall i :: 0 <= i < low ==> Less(entries[i].key, key)
        invariant forall i :: high <= i < |entries| ==> Less(key, entries[i].key)
      {
        var mid := low + (high - low) / 2;
        var k := entries[mid].key;
        if k == key {
          return Found(mid);
        }
        LessTotal(k, key);
        if Less(k, key) {
          forall i | 0 <= i < mid ensures Less(entries[i].key, key) {
            LessTrans(entries[i].key, k, key);
          }
          low := mid + 1;
        } else {
          forall i | mid < i < |entries| ensures Less(key, entries[i].key) {
            LessTrans(key, k, entries[i].key);
          }
          high := mid;
        }
      }
      r := Missing(low);
    }

    method Get(key: Key) returns (r: Option<Entry>)
      requires Valid()
      ensures if key in Model() then r == Some(Entry(key, Model()[key].location, Model()[key].refcount)) else r == None
    {
      var found := BinarySearch(key);
      match found
      case Found(i) =>
        ContentsAt(entries, i);
        r := Some(entries[i]);
      case Missing(p) =>
        GapIsAbsent(entries, key, p);
        r := None;
    }

    method Insert(key: Key, location: BlockLocation) returns (r: InsertResult)
      requires Valid()
      modifies this
      ensures Valid() && (Model(), r) == Inserted(old(Model()), capacity, key, location)
    {
      var found := BinarySearch(key);
      match found
      case Found(i) =>
        var count := (entries[i].refcount + 1) % U32;
        ContentsAt(entries, i);
        UpdateAt(entries, i, count);
        entries := entries[i := entries[i].(refcount := count)];
        r := Dedup;
      case Missing(p) =>
        GapIsAbsent(entries, key, p);
        ContentsSize(entries);
        if |entries| >= capacity {
          return MemTableFull;
        }
        var entry := Entry(key, location, 1);
        InsertAt(entries, p, entry);
        entries := entries[..p] + [entry] + entries[p..];
        r := New;
    }

    method Remove(key: Key) returns (r: Option<BlockLocation>)
      requires Valid()
      modifies this
      ensures Valid() && (Model(), r) == Removed(old(Model()), key)
    {
      var found := BinarySearch(key);
      match found
      case Found(i) =>
        ContentsAt(entries, i);
        RemoveAt(entries, i);
        r := Some(entries[i].location);
        entries := entries[..i] + entries[i + 1..];
      case Missing(p) =>
        GapIsAbsent(entries, key, p);
        r := None;
    }

    method DecRef(key: Key) returns (r: Option<(BlockLocation, bool)>)
      requires Valid()
      modifies this
      ensures Valid() && (Model(), r) == Decremented(old(Model()), key)
    {
      var found := BinarySearch(key);
      match found
      case Found(i) =>
        ContentsAt(entries, i);
        var entry := entries[i];
        if entry.refcount <= 1 {
          RemoveAt(entries, i);
          entries := entries[..i] + entries[i + 1..];
          r := Some((entry.location, true));
        } else {
          UpdateAt(entries, i, entry.refcount - 1);
          entries := entries[i := entry.(refcount := entry.refcount - 1)];
          r := Some((entry.location, false));
        }
      case Missing(p) =>
        GapIsAbsent(entries, key, p);
        r := None;
    }
  }

  // Every run ---------------------------------------------------------------------------------

  datatype Op = InsertOp(key: Key, location: BlockLocation) | RemoveOp(key: Key) | DecRefOp(key: Key)

  function Apply(m: map<Key, Block>, capacity: nat, op: Op): map<Key, Block> {
    match op
    case InsertOp(key, location) => Inserted(m, capacity, key, location).0
    case RemoveOp(key) => Removed(m, key).0
    case DecRefOp(key) => Decremented(m, key).0
  }

  /** The maps a run from the empty table goes through. */
  predicate IsRun(capacity: nat, ops: seq<Op>, maps: seq<map<Key, Block>>) {
    |maps| == |ops| + 1 && maps[0] == map[] && forall i: nat :: i < |ops| ==> StepAt(capacity, ops, maps, i)
  }

  predicate StepAt(capacity: nat, ops: seq<Op>, maps: seq<map<Key, Block>>, i: nat)
    requires i < |ops| && |maps| == |ops| + 1
  {
    maps[i + 1] == Apply(maps[i], capacity, ops[i])
  }

  /** What an operation adds to the inserts minus the decrements of a key. */
  function Change(op: Op, key: Key): int {
    if op.key != key then 0 else match op case InsertOp(_, _) => 1 case DecRefOp(_) => -1 case RemoveOp(_) => 0
  }

  /** The inserts of a key minus its decrements, from operation `start` up to operation n. */
  function Net(ops: seq<Op>, key: Key, start: nat, n: nat): int
    requires start <= n <= |ops|
    decreases n - start
  {
    if n == start then 0 else Net(ops, key, start, n - 1) + Change(ops[n - 1], key)
  }

  lemma NetStep(ops: seq<Op>, key: Key, start: nat, n: nat)
    requires start <= n < |ops|
    ensures Net(ops, key, start, start) == 0
    ensures Net(ops, key, start, n + 1) == Net(ops, key, start, n) + Change(ops[n], key)
  {
  }

  /** Operation `start` inserted the absent key, which is then present up to point n. */
  predicate PresentSince(ops: seq<Op>, maps: seq<map<Key, Block>>, key: Key, start: nat, n: nat) {
    && start < n < |maps| && start < |ops|
    && ops[start].InsertOp? && ops[start].key == key && key !in maps[start]
    && forall k :: start < k <= n ==> key in maps[k]
  }

  lemma {:induction false} CameIn(capacity: nat, ops: seq<Op>, maps: seq<map<Key, Block>>, key: Key, n: nat)
    returns (start: nat)
    requires IsRun(capacity, ops, maps) && n < |maps| && key in maps[n]
    ensures PresentSince(ops, maps, key, start, n)
    decreases n
  {
    assert StepAt(capacity, ops, maps, n - 1);
    if key in maps[n - 1] {
      start := CameIn(capacity, ops, maps, key, n - 1);
    } else {
      start := n - 1;
    }
  }

  /** What one operation does to a key that is there before and after. */
  lemma OneStep(m: map<Key, Block>, capacity: nat, op: Op, key: Key)
    requires key in m && key in Apply(m, capacity, op)
    ensures Apply(m, capacity, op)[key].location == m[key].location
    ensures var count := m[key].refcount + Change(op, key);
      m[key].refcount >= 1 ==> count >= 1 && (count < U32 ==> Apply(m, capacity, op)[key].refcount == count)
    ensures m[key].refcount < U32 ==> Apply(m, capacity, op)[key].refcount < U32
  {
  }

  lemma FirstStep(m: map<Key, Block>, capacity: nat, op: Op, key: Key)
    requires key !in m && key in Apply(m, capacity, op)
    ensures op.InsertOp? && op.key == key && Apply(m, capacity, op)[key] == Block(op.location, 1)
        && Change(op, key) == 1
  {
  }

  lemma {:induction false} LocationKept(capacity: nat, ops: seq<Op>, maps: seq<map<Key, Block>>, key: Key, start: nat,
                                        n: nat)
    requires IsRun(capacity, ops, maps) && PresentSince(ops, maps, key, start, n)
    ensures maps[n][key].location == ops[start].location && maps[n][key].refcount < U32
    decreases n
  {
    assert StepAt(capacity, ops, maps, n - 1);
    if n == start + 1 {
      FirstStep(maps[start], capacity, ops[start], key);
    } else {
      LocationKept(capacity, ops, maps, key, start, n - 1);
      OneStep(maps[n - 1], capacity, ops[n - 1], key);
    }
  }

  /** The inserts minus the decrements since the key came in have fitted 32 bits at every point up to n. */
  predicate NetFits(ops: seq<Op>, key: Key, start: nat, n: nat)
    requires n <= |ops|
  {
    forall k :: start < k <= n ==> Net(ops, key, start, k) < U32
  }

  /** The count has been the inserts minus the decrements at every point up to n. */
  predicate CountsUpTo(ops: seq<Op>, maps: seq<map<Key, Block>>, key: Key, start: nat, n: nat)
    requires |maps| == |ops| + 1 && PresentSince(ops, maps, key, start, n)
  {
    forall k :: start < k <= n ==> maps[k][key].refcount == Net(ops, key, start, k)
  }

  lemma CountStep(m: map<Key, Block>, capacity: nat, op: Op, next: map<Key, Block>, key: Key, before: int, after: int)
    requires next == Apply(m, capacity, op) && key in m && key in next
    requires m[key].refcount == before >= 1 && after == before + Change(op, key) < U32
    ensures next[key].refcount == after >= 1
  {
    OneStep(m, capacity, op, key);
  }

  lemma CountStart(m: map<Key, Block>, capacity: nat, op: Op, next: map<Key, Block>, key: Key)
    requires next == Apply(m, capacity, op) && key !in m && key in next
    ensures next[key].refcount == Change(op, key) == 1
  {
    FirstStep(m, capacity, op, key);
  }

  lemma {:induction false} CountWhileItFits(capacity: nat, ops: seq<Op>, maps: seq<map<Key, Block>>, key: Key,
                                            start: nat, n: nat)
    requires IsRun(capacity, ops, maps) && PresentSince(ops, maps, key, start, n) && NetFits(ops, key, start, n)
    ensures maps[n][key].refcount == Net(ops, key, start, n) >= 1
    decreases n
  {
    var k := n - 1;
    assert StepAt(capacity, ops, maps, k);
    NetStep(ops, key, start, k);
    if n == start + 1 {
      CountStart(maps[k], capacity, ops[k], maps[n], key);
    } else {
      CountWhileItFits(capacity, ops, maps, key, start, k);
      CountStep(maps[k], capacity, ops[k], maps[n], key, Net(ops, key, start, k), Net(ops, key, start, n));
    }
  }

  /**
    At every point of every run, a key in the table came in by an insert after
    which it was never absent, and holds that insert's location. Its count has
    been the inserts minus the decrements since, at least one, exactly as long
    as that number has fitted 32 bits.
   */
  lemma RefcountExactly(capacity: nat, ops: seq<Op>, maps: seq<map<Key, Block>>, key: Key, n: nat) returns (start: nat)
    requires IsRun(capacity, ops, maps) && n < |maps| && key in maps[n]
    ensures PresentSince(ops, maps, key, start, n) && maps[n][key].location == ops[start].location
    ensures CountsUpTo(ops, maps, key, start, n) <==> NetFits(ops, key, start, n)
    ensures NetFits(ops, key, start, n) ==> maps[n][key].refcount >= 1
  {
    start := CameIn(capacity, ops, maps, key, n);
    forall k | start < k <= n ensures maps[k][key].location == ops[start].location && maps[k][key].refcount < U32 {
      LocationKept(capacity, ops, maps, key, start, k);
    }
    if NetFits(ops, key, start, n) {
      forall k | start < k <= n ensures maps[k][key].refcount == Net(ops, key, start, k) >= 1 {
        CountWhileItFits(capacity, ops, maps, key, start, k);
      }
    }
  }

  /** The table after i inserts of one key. */
  function AfterInserts(key: Key, location: BlockLocation, i: nat): map<Key, Block> {
    if i == 0 then map[] else map[key := Block(location, i % U32)]
  }

  lemma InsertsStep(capacity: nat, key: Key, location: BlockLocation, i: nat)
    requires capacity > 0
    ensures Apply(AfterInserts(key, location, i), capacity, InsertOp(key, location))
         == AfterInserts(key, location, i + 1)
  {
    if i > 0 {
      NextModulo(i);
      var m := AfterInserts(key, location, i);
      assert m[key := Block(location, (i + 1) % U32)] == AfterInserts(key, location, i + 1);
    }
  }

  lemma NextModulo(i: nat)
    ensures (i % U32 + 1) % U32 == (i + 1) % U32
  {
  }

  /** n inserts of one key, and a decrement. */
  function InsertsThenDecrement(key: Key, location: BlockLocation, n: nat): seq<Op> {
    seq(n, _ => InsertOp(key, location)) + [DecRefOp(key)]
  }

  lemma {:induction false} NetOfInserts(key: Key, location: BlockLocation, n: nat, k: nat)
    requires k <= n
    ensures Net(InsertsThenDecrement(key, location, n), key, 0, k) == k
  {
    if k == 0 {
    } else {
      NetOfInserts(key, location, n, k - 1);
    }
  }

  lemma InsertsRun(capacity: nat, key: Key, location: BlockLocation, n: nat) returns (maps: seq<map<Key, Block>>)
    requires capacity > 0 && n > 0
    ensures IsRun(capacity, InsertsThenDecrement(key, location, n), maps)
    ensures maps[n - 1] == AfterInserts(key, location, n - 1) && maps[n] == AfterInserts(key, location, n)
  {
    var ops := InsertsThenDecrement(key, location, n);
    var last := Apply(AfterInserts(key, location, n), capacity, DecRefOp(key));
    maps := seq(n + 1, i requires 0 <= i => AfterInserts(key, location, i)) + [last];
    forall i: nat | i < |ops| ensures StepAt(capacity, ops, maps, i) {
      if i < n { InsertsStep(capacity, key, location, i); }
    }
  }

  /**
    A run of 2^32 inserts of one key: the last one takes its count from
    2^32 - 1 to 0, and one decrement then frees the block, with 2^32 - 1
    references to it left.
   */
  lemma WrappedCountFreesEarly(capacity: nat, key: Key, location: BlockLocation)
    returns (ops: seq<Op>, maps: seq<map<Key, Block>>)
    requires capacity > 0
    ensures IsRun(capacity, ops, maps) && |ops| == U32 + 1 && Net(ops, key, 0, U32 + 1) == U32 - 1
    ensures maps[U32 - 1] == map[key := Block(location, U32 - 1)] && maps[U32] == map[key := Block(location, 0)]
    ensures maps[U32 + 1] == map[] && Decremented(maps[U32], key).1 == Some((location, true))
  {
    ops := InsertsThenDecrement(key, location, U32);
    maps := InsertsRun(capacity, key, location, U32);
    NetOfInserts(key, location, U32, U32);
    assert StepAt(capacity, ops, maps, U32);
    assert maps[U32] - {key} == map[];
  }

  /** The inserts of a key up to point n. */
  function Inserts(ops: seq<Op>, key: Key, n: nat): nat
    requires n <= |ops|
  {
    if n == 0 then 0 else Inserts(ops, key, n - 1) + if ops[n - 1].InsertOp? && ops[n - 1].key == key then 1 else 0
  }

  /** The count fits as long as fewer than 2^32 inserts name its key. */
  lemma {:induction false} FewInsertsFit(ops: seq<Op>, key: Key, start: nat, n: nat)
    requires start <= n <= |ops|
    ensures Net(ops, key, start, n) <= Inserts(ops, key, n)
    decreases n
  {
    if n == start {
    } else {
      FewInsertsFit(ops, key, start, n - 1);
    }
  }
}
