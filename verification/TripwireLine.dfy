/**
  The `[tripwire]` line: the pairs write_line prints and their text, and each
  key's values found again among the pairs.
 */
module TripwireLine {
  import opened Basics
  import opened Text
  import opened Decimal
  import opened TripwireKeys

  const LINE_PREFIX: string := "[tripwire]"

  datatype LineSrc = Hb | G1 | Panic | Exc
  {
    function Name(): string {
      match this case Hb => "hb" case G1 => "g1" case Panic => "panic" case Exc => "exc"
    }
  }

  datatype LineMode = NonZero | Full

  type Pair = (string, string)

  // The line ---------------------------------------------------------------------

  function Clamp(ncpu: nat): nat {
    if ncpu < 1 then 1 else if ncpu > MAX_CPUS then MAX_CPUS else ncpu
  }

  function Count(k: Key, ncpu: nat): nat {
    WidthOf(k).Values(ncpu)
  }

  function ValuesOf(value: (Key, nat) -> nat, k: Key, n: nat): (vs: seq<nat>)
    ensures |vs| == n
  {
    seq(n, i requires 0 <= i < n => value(k, i))
  }

  function DecAll(vs: seq<nat>): (parts: seq<string>)
    ensures |parts| == |vs|
  {
    if vs == [] then [] else DecAll(vs[..|vs| - 1]) + [Dec(vs[|vs| - 1])]
  }

  function ValueText(vs: seq<nat>): string
    requires |vs| > 0
  {
    Join(DecAll(vs), ',')
  }

  predicate AllZero(value: (Key, nat) -> nat, k: Key, n: nat) {
    forall i :: 0 <= i < n ==> value(k, i) == 0
  }

  predicate Printed(mode: LineMode, value: (Key, nat) -> nat, ncpu: nat, k: Key) {
    mode.Full? || AlwaysPrinted(k) || !AllZero(value, k, Count(k, ncpu))
  }

  function KeyPair(value: (Key, nat) -> nat, ncpu: nat, k: Key): Pair
    requires ncpu > 0
  {
    (TripwireKeys.Name(k), ValueText(ValuesOf(value, k, Count(k, ncpu))))
  }

  /** A key's pair, and whether the line prints it. */
  datatype Entry = Entry(pair: Pair, printed: bool)

  function Entries(mode: LineMode, value: (Key, nat) -> nat, ncpu: nat): seq<Entry>
    requires ncpu > 0
  {
    seq(KEY_COUNT, k requires 0 <= k < KEY_COUNT => Entry(KeyPair(value, ncpu, k), Printed(mode, value, ncpu, k)))
  }

  /** The printed ones, in order. */
  function Kept(entries: seq<Entry>): seq<Pair> {
    if entries == [] then []
    else
      var last := entries[|entries| - 1];
      Kept(entries[..|entries| - 1]) + (if last.printed then [last.pair] else [])
  }

  function PrefixPairs(src: LineSrc, cpu: nat, t: nat, ncpu: nat): seq<Pair> {
    [("v", Dec(1)), ("src", src.Name()), ("cpu", Dec(cpu)), ("t", Dec(t)), ("ncpu", Dec(ncpu))]
  }

  /** Every pair of the line before its closing `n`. */
  function LinePairs(src: LineSrc, mode: LineMode, cpu: nat, t: nat, ncpu: nat, value: (Key, nat) -> nat): seq<Pair> {
    PrefixPairs(src, cpu, t, Clamp(ncpu)) + Kept(Entries(mode, value, Clamp(ncpu)))
  }

  function Render(p: Pair): string {
    p.0 + "=" + p.1
  }

  function Spaced(pairs: seq<Pair>): string {
    if pairs == [] then "" else Spaced(pairs[..|pairs| - 1]) + " " + Render(pairs[|pairs| - 1])
  }

  function Closed(pairs: seq<Pair>): seq<Pair> {
    pairs + [("n", Dec(|pairs|))]
  }

  /** The line without its newline. */
  function Body(pairs: seq<Pair>): string {
    LINE_PREFIX + Spaced(Closed(pairs))
  }

  function LineText(pairs: seq<Pair>): string {
    Body(pairs) + "\n"
  }

  // Values among pairs -----------------------------------------------------------------

  function Lookup(pairs: seq<Pair>, name: string): Option<string> {
    if pairs == [] then None
    else if pairs[|pairs| - 1].0 == name then Some(pairs[|pairs| - 1].1)
    else Lookup(pairs[..|pairs| - 1], name)
  }

  predicate AllDigits(s: string) {
    forall i :: 0 <= i < |s| ==> IsDigit(s[i])
  }

  function ValuesIn(parts: seq<string>): (vs: seq<nat>)
    requires forall i :: 0 <= i < |parts| ==> AllDigits(parts[i])
  {
    if parts == [] then []
    else
      assert AllDigits(parts[|parts| - 1]);
      ValuesIn(parts[..|parts| - 1]) + [Value(parts[|parts| - 1])]
  }

  /** A key's n values on a parsed line; a missing key is 0. None if the text is not numbers. */
  function ReadKey(pairs: seq<Pair>, k: Key, n: nat): Option<seq<nat>> {
    match Lookup(pairs, TripwireKeys.Name(k))
    case None => Some(seq(n, _ => 0))
    case Some(text) =>
      var parts := Split(text, ',');
      if forall i :: 0 <= i < |parts| ==> AllDigits(parts[i]) then Some(ValuesIn(parts)) else None
  }

  predicate CleanText(s: string) {
    s != "" && Without(s, ' ') && Without(s, '\t') && Without(s, '=') && Without(s, '\n')
  }

  predicate CleanPair(p: Pair) {
    CleanText(p.0) && CleanText(p.1)
  }

  lemma {:induction false} JoinAppend(parts: seq<string>, c: char, last: string)
    requires |parts| > 0
    ensures Join(parts + [last], c) == Join(parts, c) + [c] + last
  {
    if |parts| > 1 {
      assert (parts + [last])[1..] == parts[1..] + [last];
      JoinAppend(parts[1..], c, last);
    } else {
      assert (parts + [last])[1..] == [last];
    }
  }

  lemma DecIsClean(v: nat)
    ensures CleanText(Dec(v)) && Without(Dec(v), ',')
  {
    DecWithout(v, ' '); DecWithout(v, '\t'); DecWithout(v, '='); DecWithout(v, '\n'); DecWithout(v, ',');
  }

  // Values ------------------------------------------------------------------------------------

  lemma {:induction false} DecAllFacts(vs: seq<nat>)
    ensures forall i ::
      0 <= i < |vs| ==> CleanText(DecAll(vs)[i]) && Without(DecAll(vs)[i], ',') && AllDigits(DecAll(vs)[i])
    ensures ValuesIn(DecAll(vs)) == vs
  {
    if vs == [] {
    } else {
      var n := |vs| - 1;
      DecAllFacts(vs[..n]);
      DecIsClean(vs[n]);
      ValueOfDec(vs[n]);
      ValuesInLast(DecAll(vs[..n]), Dec(vs[n]));
      assert vs[..n] + [vs[n]] == vs;
    }
  }

  lemma ValuesInLast(parts: seq<string>, last: string)
    requires AllDigits(last) && forall i :: 0 <= i < |parts| ==> AllDigits(parts[i])
    ensures forall i :: 0 <= i < |parts + [last]| ==> AllDigits((parts + [last])[i])
    ensures ValuesIn(parts + [last]) == ValuesIn(parts) + [Value(last)]
  {
    assert (parts + [last])[..|parts|] == parts;
  }

  lemma ValueTextRoundTrip(vs: seq<nat>)
    requires |vs| > 0
    ensures CleanText(ValueText(vs)) && Split(ValueText(vs), ',') == DecAll(vs)
  {
    DecAllFacts(vs);
    SplitOfJoin(DecAll(vs), ',');
    JoinWithout(DecAll(vs), ',', ' ');
    JoinWithout(DecAll(vs), ',', '\t');
    JoinWithout(DecAll(vs), ',', '=');
    JoinWithout(DecAll(vs), ',', '\n');
  }

  lemma {:induction false} KeptIsClean(entries: seq<Entry>)
    requires forall k :: 0 <= k < |entries| ==> CleanPair(entries[k].pair)
    ensures forall i :: 0 <= i < |Kept(entries)| ==> CleanPair(Kept(entries)[i])
  {
    if entries == [] {
    } else {
      KeptIsClean(entries[..|entries| - 1]);
    }
  }

  lemma EntryIsClean(value: (Key, nat) -> nat, ncpu: nat, k: Key)
    requires ncpu > 0
    ensures CleanPair(KeyPair(value, ncpu, k))
  {
    NameFacts(k);
    ValueTextRoundTrip(ValuesOf(value, k, Count(k, ncpu)));
  }

  lemma SourceIsClean(src: LineSrc)
    ensures CleanText(src.Name())
  {
    match src
    case Hb => assert CleanText("hb");
    case G1 => assert CleanText("g1");
    case Panic => assert CleanText("panic");
    case Exc => assert CleanText("exc");
  }

  lemma PrefixIsClean(src: LineSrc, cpu: nat, t: nat, ncpu: nat)
    ensures forall i :: 0 <= i < 5 ==> CleanPair(PrefixPairs(src, cpu, t, ncpu)[i])
  {
    DecIsClean(1); DecIsClean(cpu); DecIsClean(t); DecIsClean(ncpu);
    SourceIsClean(src);
    assert CleanText("v") && CleanText("src") && CleanText("cpu") && CleanText("t") && CleanText("ncpu");
  }

  lemma LookupAppend(front: seq<Pair>, p: Pair, name: string)
    ensures Lookup(front + [p], name) == if p.0 == name then Some(p.1) else Lookup(front, name)
  {
    assert (front + [p])[..|front|] == front;
  }

  predicate DistinctNames(entries: seq<Entry>) {
    forall i, j :: 0 <= i < j < |entries| ==> entries[i].pair.0 != entries[j].pair.0
  }

  lemma {:induction false} LookupAbsent(before: seq<Pair>, entries: seq<Entry>, name: string)
    requires Lookup(before, name).None? && forall k :: 0 <= k < |entries| ==> entries[k].pair.0 != name
    ensures Lookup(before + Kept(entries), name).None?
  {
    if entries == [] {
      assert before + [] == before;
    } else {
      var n := |entries| - 1;
      var front, p := Kept(entries[..n]), entries[n].pair;
      LookupAbsent(before, entries[..n], name);
      assert before + (front + [p]) == (before + front) + [p];
      assert front + [] == front;
      LookupAppend(before + front, p, name);
    }
  }

  /** A kept entry is found under its name, a left-out one is not, after pairs that do not mention it. */
  lemma {:induction false} LookupEntry(before: seq<Pair>, entries: seq<Entry>, k: nat)
    requires k < |entries| && DistinctNames(entries) && Lookup(before, entries[k].pair.0).None?
    ensures Lookup(before + Kept(entries), entries[k].pair.0)
         == if entries[k].printed then Some(entries[k].pair.1) else None
    decreases |entries|
  {
    var n := |entries| - 1;
    var front, p, name := Kept(entries[..n]), entries[n].pair, entries[k].pair.0;
    if k < n { LookupEntry(before, entries[..n], k); } else { LookupAbsent(before, entries[..n], name); }
    assert before + (front + [p]) == (before + front) + [p];
    assert front + [] == front;
    LookupAppend(before + front, p, name);
  }

  lemma PrefixNamesNoKey(src: LineSrc, cpu: nat, t: nat, ncpu: nat, k: Key)
    ensures Lookup(PrefixPairs(src, cpu, t, ncpu), TripwireKeys.Name(k)).None?
  {
    var p := PrefixPairs(src, cpu, t, ncpu);
    var name := TripwireKeys.Name(k);
    assert p == [] + [p[0]] + [p[1]] + [p[2]] + [p[3]] + [p[4]];
    LookupAppend([], p[0], name);
    LookupAppend([] + [p[0]], p[1], name);
    LookupAppend([] + [p[0]] + [p[1]], p[2], name);
    LookupAppend([] + [p[0]] + [p[1]] + [p[2]], p[3], name);
    LookupAppend([] + [p[0]] + [p[1]] + [p[2]] + [p[3]], p[4], name);
    NoKeyIsCalled(k);
  }

  lemma NoKeyIsCalled(k: Key)
    ensures var name := TripwireKeys.Name(k);
            name != "v" && name != "src" && name != "cpu" && name != "t" && name != "ncpu"
  {
    NameFacts(k);
    assert |"v"| == 1 && |"t"| == 1;
    assert Hash("src") == 10825 && Hash("cpu") == 11209 && Hash("ncpu") == 10536;
  }

  lemma EntriesAreDistinct(mode: LineMode, value: (Key, nat) -> nat, ncpu: nat)
    requires ncpu > 0
    ensures DistinctNames(Entries(mode, value, ncpu))
  {
    var entries := Entries(mode, value, ncpu);
    forall i, j | 0 <= i < j < |entries| ensures entries[i].pair.0 != entries[j].pair.0 {
      if entries[i].pair.0 == entries[j].pair.0 { NamesAreDistinct(i, j); }
    }
  }

  lemma ReadBack(src: LineSrc, mode: LineMode, cpu: nat, t: nat, n: nat, value: (Key, nat) -> nat, k: Key)
    requires n > 0
    ensures ReadKey(PrefixPairs(src, cpu, t, n) + Kept(Entries(mode, value, n)), k, Count(k, n))
         == Some(ValuesOf(value, k, Count(k, n)))
  {
    var prefix, entries := PrefixPairs(src, cpu, t, n), Entries(mode, value, n);
    PrefixNamesNoKey(src, cpu, t, n, k);
    EntriesAreDistinct(mode, value, n);
    LookupEntry(prefix, entries, k);
    ReadOne(prefix + Kept(entries), k, ValuesOf(value, k, Count(k, n)));
  }

  lemma ReadOne(pairs: seq<Pair>, k: Key, vs: seq<nat>)
    requires |vs| > 0
    requires match Lookup(pairs, TripwireKeys.Name(k))
             case None => forall i :: 0 <= i < |vs| ==> vs[i] == 0
             case Some(text) => text == ValueText(vs)
    ensures ReadKey(pairs, k, |vs|) == Some(vs)
  {
    if Lookup(pairs, TripwireKeys.Name(k)).Some? {
      ValueTextRoundTrip(vs);
      DecAllFacts(vs);
    } else {
      assert vs == seq(|vs|, _ => 0);
    }
  }
}
