/**
  The writer side of the tripwire line: put_dec and write_line on a fixed
  buffer, and the line-length bound that keeps the buffer from overflowing.
 */
module TripwireWriter {
  import opened Basics
  import opened Bits
  import opened Text
  import opened Decimal
  import opened TripwireKeys
  import opened TripwireLine

  // put_dec ---------------------------------------------------------------------

  lemma DivTen(v: nat, d: nat)
    requires d > 0
    ensures (v / d) / 10 == v / (10 * d)
    ensures v < 10 * d <==> v / d < 10
  {
    var q, r := v / d, v % d;
    var h, e := q / 10, q % 10;
    Regroup10(h, e, d);
    assert v == h * (10 * d) + (e * d + r);
    assert e * d + r < 10 * d by { AtMostNine(e, d); }
    DivModUnique(v, 10 * d, h, e * d + r);
    if h > 0 { MulAtLeast(h, 10 * d); }
  }

  lemma Regroup10(h: nat, e: nat, d: nat)
    ensures (10 * h + e) * d == h * (10 * d) + e * d
  {
  }

  lemma AtMostNine(e: nat, d: nat)
    requires e <= 9
    ensures e * d <= 9 * d
  {
  }

  /** The digits of v above the one worth d. */
  function Above(v: nat, d: nat): string
    requires d > 0
  {
    if v < 10 * d then "" else Dec(v / (10 * d))
  }

  lemma NextDigit(v: nat, d: nat)
    requires d > 0
    ensures Above(v, d) + [Digit((v / d) % 10)] == Dec(v / d)
  {
    DivTen(v, d);
  }

  lemma AfterDigit(before: string, v: nat, d: nat)
    requires d > 0
    ensures before + Above(v, d) + [Digit((v / d) % 10)] == before + Dec(v / d)
  {
    NextDigit(v, d);
  }

  lemma {:induction false} Pow10Positive(e: nat)
    ensures Pow10(e) > 0 && (Pow10(e) > 1 ==> e > 0)
  {
    if e == 0 {
    } else {
      Pow10Positive(e - 1);
    }
  }

  /** A power above one has a tenth, which prints what is left above it. */
  lemma NextPower(v: nat, e: nat)
    requires 1 < Pow10(e) <= v
    ensures e > 0 && Pow10(e) / 10 == Pow10(e - 1) && 0 < Pow10(e - 1) <= v
    ensures Above(v, Pow10(e - 1)) == Dec(v / Pow10(e))
  {
    Pow10Positive(e);
    Pow10Positive(e - 1);
  }

  // Pieces of the line --------------------------------------------------------------

  lemma SpacedLast(pairs: seq<Pair>, p: Pair)
    ensures Spaced(pairs + [p]) == Spaced(pairs) + " " + Render(p)
  {
    assert (pairs + [p])[..|pairs|] == pairs;
  }

  lemma CloseLine(before: string, pairs: seq<Pair>)
    ensures before + LINE_PREFIX + Spaced(pairs + [("n", Dec(|pairs|))]) + ['\n'] == before + LineText(pairs)
  {
    Assoc(before, LINE_PREFIX, Spaced(Closed(pairs)), "\n");
  }

  lemma Assoc(a: string, b: string, c: string, d: string)
    ensures a + b + c + d == a + (b + c + d)
  {
  }

  lemma PrefixInSteps(src: LineSrc, cpu: nat, t: nat, n: nat)
    ensures [("v", Dec(1)), ("src", src.Name())] + [("cpu", Dec(cpu))] + [("t", Dec(t))] + [("ncpu", Dec(n))]
         == PrefixPairs(src, cpu, t, n)
  {
  }

  lemma Regroup(base: string, line: string, name: string, text: string)
    ensures base + line + [' '] + name + ['='] + text == base + (line + " " + Render((name, text)))
  {
  }

  lemma KeptStep(pairs: seq<Pair>, entries: seq<Entry>, k: nat)
    requires k < |entries|
    ensures var before, after := pairs + Kept(entries[..k]), pairs + Kept(entries[..k + 1]);
            after == if entries[k].printed then before + [entries[k].pair] else before
  {
    assert entries[..k + 1][..k] == entries[..k];
    var front := Kept(entries[..k]);
    if entries[k].printed {
      assert pairs + (front + [entries[k].pair]) == (pairs + front) + [entries[k].pair];
    } else {
      assert front + [] == front;
    }
  }

  lemma JoinOne(vs: seq<nat>)
    requires |vs| == 1
    ensures ValueText(vs) == Dec(vs[0])
  {
    assert vs[..0] == [];
    assert DecAll(vs) == [Dec(vs[0])];
  }

  lemma JoinNext(before: string, value: (Key, nat) -> nat, k: Key, idx: nat)
    requires idx > 0
    ensures before + ValueText(ValuesOf(value, k, idx)) + [','] + Dec(value(k, idx))
         == before + ValueText(ValuesOf(value, k, idx + 1))
  {
    var vs, ws := ValuesOf(value, k, idx), ValuesOf(value, k, idx + 1);
    assert ws[..idx] == vs;
    JoinAppend(DecAll(vs), ',', Dec(value(k, idx)));
    Assoc(before, ValueText(vs), ",", Dec(value(k, idx)));
  }

  /** Whether all of a key's values are 0. */
  method IsZero(value: (Key, nat) -> nat, k: Key, n: nat) returns (zero: bool)
    ensures zero == AllZero(value, k, n)
  {
    for i := 0 to n
      invariant AllZero(value, k, i)
    {
      if value(k, i) != 0 {
        return false;
      }
    }
    zero := true;
  }

  // The longest line -------------------------------------------------------------------

  const VALUE_LEN: nat := 20  // digits of u64::MAX

  /** The most a key can take: its space, name, `=`, values for MAX_CPUS CPUs, and the commas. */
  function MaxKeyLen(k: Key): nat {
    var values := Count(k, MAX_CPUS);
    1 + |TripwireKeys.Name(k)| + 1 + values * VALUE_LEN + (values - 1)
  }

  function MaxKeyLens(): seq<nat> {
    seq(KEY_COUNT, k requires 0 <= k < KEY_COUNT => MaxKeyLen(k))
  }

  function Sum(lens: seq<nat>): nat {
    if lens == [] then 0 else Sum(lens[..|lens| - 1]) + lens[|lens| - 1]
  }

  // 3, 5, 5, 3, 6 and 3 for ` v=`, ` src=`, ` cpu=`, ` t=`, ` ncpu=` and ` n=`.
  const MAX_LINE_LEN: nat :=
    |LINE_PREFIX| + (3 + 1) + (5 + 5) + (5 + 3) + (3 + VALUE_LEN) + (6 + 1) + Sum(MaxKeyLens()) + (3 + 2) + 1

  function PairsLen(pairs: seq<Pair>): nat {
    if pairs == [] then 0
    else PairsLen(pairs[..|pairs| - 1]) + 2 + |pairs[|pairs| - 1].0| + |pairs[|pairs| - 1].1|
  }

  lemma {:induction false} SpacedLen(pairs: seq<Pair>)
    ensures |Spaced(pairs)| == PairsLen(pairs)
  {
    if pairs == [] {
    } else {
      SpacedLen(pairs[..|pairs| - 1]);
    }
  }

  lemma PairsLenLast(pairs: seq<Pair>, p: Pair)
    ensures PairsLen(pairs + [p]) == PairsLen(pairs) + 2 + |p.0| + |p.1|
  {
    assert (pairs + [p])[..|pairs|] == pairs;
  }

  lemma ValueLen(v: nat)
    requires v < U64
    ensures |Dec(v)| <= VALUE_LEN
  {
    assert Pow10(10) == 10_000_000_000;
    assert Pow10(20) == 100_000_000_000_000_000_000;
    DecLength(v, 20);
  }

  lemma {:induction false} ValueTextLen(vs: seq<nat>)
    requires |vs| > 0 && forall i :: 0 <= i < |vs| ==> vs[i] < U64
    ensures |ValueText(vs)| <= |vs| * VALUE_LEN + (|vs| - 1)
    ensures (forall i :: 0 <= i < |vs| ==> |Dec(vs[i])| == VALUE_LEN)
        ==> |ValueText(vs)| == |vs| * VALUE_LEN + (|vs| - 1)
  {
    var n := |vs| - 1;
    ValueLen(vs[n]);
    if n == 0 {
      JoinOne(vs);
    } else {
      ValueTextLen(vs[..n]);
      JoinAppend(DecAll(vs[..n]), ',', Dec(vs[n]));
    }
  }

  /** A key's pair never takes more than MaxKeyLen. */
  lemma KeyLen(value: (Key, nat) -> nat, ncpu: nat, k: Key)
    requires 0 < ncpu <= MAX_CPUS && forall i :: value(k, i) < U64
    ensures PairLen(KeyPair(value, ncpu, k)) <= MaxKeyLen(k)
    ensures ncpu == MAX_CPUS && (forall i :: |Dec(value(k, i))| == VALUE_LEN) ==>
              PairLen(KeyPair(value, ncpu, k)) == MaxKeyLen(k)
  {
    ValueTextLen(ValuesOf(value, k, Count(k, ncpu)));
  }

  function PairLen(p: Pair): nat {
    2 + |p.0| + |p.1|
  }

  lemma {:induction false} KeptLen(before: seq<Pair>, entries: seq<Entry>, lens: seq<nat>)
    requires |entries| == |lens| && forall k :: 0 <= k < |entries| ==> PairLen(entries[k].pair) <= lens[k]
    ensures PairsLen(before + Kept(entries)) <= PairsLen(before) + Sum(lens)
    ensures |before + Kept(entries)| <= |before| + |entries|
  {
    if entries == [] {
      assert before + Kept(entries) == before;
    } else {
      var n := |entries| - 1;
      KeptLen(before, entries[..n], lens[..n]);
      KeptLast(before, entries);
      PairsLenLast(before + Kept(entries[..n]), entries[n].pair);
    }
  }

  lemma {:induction false} KeptLenExact(before: seq<Pair>, entries: seq<Entry>, lens: seq<nat>)
    requires |entries| == |lens|
    requires forall k :: 0 <= k < |entries| ==> entries[k].printed && PairLen(entries[k].pair) == lens[k]
    ensures PairsLen(before + Kept(entries)) == PairsLen(before) + Sum(lens)
    ensures |before + Kept(entries)| == |before| + |entries|
  {
    if entries == [] {
      assert before + Kept(entries) == before;
    } else {
      var n := |entries| - 1;
      KeptLenExact(before, entries[..n], lens[..n]);
      KeptLast(before, entries);
      PairsLenLast(before + Kept(entries[..n]), entries[n].pair);
    }
  }

  lemma KeptLast(before: seq<Pair>, entries: seq<Entry>)
    requires entries != []
    ensures var n := |entries| - 1; var front := before + Kept(entries[..n]);
            before + Kept(entries) == if entries[n].printed then front + [entries[n].pair] else front
  {
    var n := |entries| - 1;
    KeptStep(before, entries, n);
    assert entries[..n + 1] == entries;
  }

  lemma PrefixLen(src: LineSrc, cpu: nat, t: nat, ncpu: nat)
    requires cpu < 256 && t < U64 && ncpu <= MAX_CPUS
    ensures PairsLen(PrefixPairs(src, cpu, t, ncpu)) <= (3 + 1) + (5 + 5) + (5 + 3) + (3 + VALUE_LEN) + (6 + 1)
    ensures src == Panic && cpu == 255 && |Dec(t)| == VALUE_LEN ==>
      PairsLen(PrefixPairs(src, cpu, t, ncpu)) == (3 + 1) + (5 + 5) + (5 + 3) + (3 + VALUE_LEN) + (6 + 1)
  {
    PrefixInSteps(src, cpu, t, ncpu);
    var q1 := [] + [("v", Dec(1))];
    var q2 := q1 + [("src", src.Name())];
    assert q2 == [("v", Dec(1)), ("src", src.Name())];
    var q3 := q2 + [("cpu", Dec(cpu))];
    var q4 := q3 + [("t", Dec(t))];
    PairsLenLast([], ("v", Dec(1)));
    PairsLenLast(q1, ("src", src.Name()));
    PairsLenLast(q2, ("cpu", Dec(cpu)));
    PairsLenLast(q3, ("t", Dec(t)));
    PairsLenLast(q4, ("ncpu", Dec(ncpu)));
    SrcLen(src);
    SmallLens(cpu, ncpu);
    ValueLen(t);
  }

  lemma SrcLen(src: LineSrc)
    ensures |src.Name()| <= 5 && |Panic.Name()| == 5
  {
    match src case Hb => case G1 => case Panic => case Exc =>
  }

  lemma SmallLens(cpu: nat, ncpu: nat)
    requires cpu < 256 && ncpu <= MAX_CPUS
    ensures |Dec(1)| == 1 && |Dec(cpu)| <= 3 && |Dec(255)| == 3 && |Dec(ncpu)| == 1
  {
    assert Pow10(3) == 1000;
    DecLength(cpu, 3);
    assert |Dec(2)| == 1 && |Dec(25)| == 2;
  }

  /** No line is longer than MAX_LINE_LEN, whatever the source, mode, CPU, tick, CPU count and u64 values. */
  lemma LineFits(src: LineSrc, mode: LineMode, cpu: nat, t: nat, ncpu: nat, value: (Key, nat) -> nat)
    requires cpu < 256 && t < U64 && forall k, i :: value(k, i) < U64
    ensures |LineText(LinePairs(src, mode, cpu, t, ncpu, value))| <= MAX_LINE_LEN
  {
    var n := Clamp(ncpu);
    var prefix, entries, lens := PrefixPairs(src, cpu, t, n), Entries(mode, value, n), MaxKeyLens();
    forall k | 0 <= k < |entries| ensures PairLen(entries[k].pair) <= lens[k] { KeyLen(value, n, k); }
    PrefixLen(src, cpu, t, n);
    KeptLen(prefix, entries, lens);
    ClosedLen(prefix + Kept(entries));
  }

  lemma ClosedLen(pairs: seq<Pair>)
    requires |pairs| <= 66
    ensures |LineText(pairs)| == |LINE_PREFIX| + PairsLen(pairs) + 3 + |Dec(|pairs|)| + 1
    ensures |Dec(|pairs|)| <= 2 && (|pairs| == 66 ==> |Dec(|pairs|)| == 2)
  {
    SpacedLen(Closed(pairs));
    PairsLenLast(pairs, ("n", Dec(|pairs|)));
    assert Pow10(2) == 100;
    DecLength(|pairs|, 2);
  }

  /** The bound is attained by every full panic line of CPU 255 with MAX_CPUS CPUs whose numbers all have 20 digits. */
  lemma LongestLine(t: nat, value: (Key, nat) -> nat)
    requires t < U64 && |Dec(t)| == VALUE_LEN
    requires forall k, i :: value(k, i) < U64 && |Dec(value(k, i))| == VALUE_LEN
    ensures |LineText(LinePairs(Panic, Full, 255, t, MAX_CPUS, value))| == MAX_LINE_LEN
  {
    var prefix, entries, lens := PrefixPairs(Panic, 255, t, MAX_CPUS), Entries(Full, value, MAX_CPUS), MaxKeyLens();
    forall k | 0 <= k < |entries| ensures entries[k].printed && PairLen(entries[k].pair) == lens[k] {
      KeyLen(value, MAX_CPUS, k);
    }
    PrefixLen(Panic, 255, t, MAX_CPUS);
    KeptLenExact(prefix, entries, lens);
    ClosedLen(prefix + Kept(entries));
  }

  lemma {:induction false} DecLengthAtLeast(v: nat, n: nat)
    requires v >= Pow10(n)
    ensures |Dec(v)| > n
    decreases n
  {
    if n == 0 {
    } else {
      Pow10Positive(n - 1);
      DecLengthAtLeast(v / 10, n - 1);
    }
  }

  lemma MaxValueLen()
    ensures |Dec(U64 - 1)| == VALUE_LEN
  {
    ValueLen(U64 - 1);
    assert Pow10(10) == 10_000_000_000;
    assert Pow10(19) == 10_000_000_000_000_000_000;
    DecLengthAtLeast(U64 - 1, 19);
  }

  // The buffer ---------------------------------------------------------------------

  /** The largest power of ten not above v, or 1; a product past 64 bits (checked_mul) ends the search. */
  method TopPower(v: nat) returns (div: nat, ghost e: nat)
    requires v < U64
    ensures div == Pow10(e) && v < 10 * div && (e == 0 || div <= v)
  {
    div, e := 1, 0;
    while div * 10 < U64 && div * 10 <= v
      invariant div == Pow10(e) && div > 0 && (e == 0 || div <= v)
      decreases v - div
    {
      div, e := div * 10, e + 1;
    }
  }

  /** A fixed buffer; `stream` is everything ever put, of which the buffer keeps what fits. */
  class BufSink {
    const buf: array<char>
    var len: nat
    var overflowed: bool
    ghost var stream: string

    ghost predicate Valid()
      reads this, buf
    {
      && len == (if |stream| < buf.Length then |stream| else buf.Length)
      && buf[..len] == stream[..len]
      && overflowed == (|stream| > buf.Length)
    }

    constructor (capacity: nat)
      ensures Valid() && stream == "" && buf.Length == capacity && fresh(buf)
    {
      buf := new char[capacity](_ => '\0');
      len, overflowed, stream := 0, false, "";
    }

    method Put(c: char)
      requires Valid()
      modifies this, buf
      ensures Valid() && stream == old(stream) + [c]
    {
      if len < buf.Length {
        buf[len] := c;
        len := len + 1;
      } else {
        overflowed := true;
      }
      stream := stream + [c];
    }

    method PutStr(s: string)
      requires Valid()
      modifies this, buf
      ensures Valid() && stream == old(stream) + s
    {
      for i := 0 to |s|
        invariant Valid() && stream == old(stream) + s[..i]
      {
        Put(s[i]);
        assert s[..i + 1] == s[..i] + [s[i]];
        assert old(stream) + s[..i + 1] == (old(stream) + s[..i]) + [s[i]];
      }
      assert s[..|s|] == s;
    }

    /** put_dec: the decimal digits of v, most significant first. */
    method PutDec(v: nat)
      requires Valid() && v < U64
      modifies this, buf
      ensures Valid() && stream == old(stream) + Dec(v)
    {
      ghost var e;
      var div;
      div, e := TopPower(v);
      while true
        invariant Valid() && div == Pow10(e) && div > 0 && (e == 0 || div <= v)
        invariant stream == old(stream) + Above(v, div)
        decreases e
      {
        AfterDigit(old(stream), v, div);
        Put(Digit((v / div) % 10));
        if div <= 1 {
          break;
        }
        NextPower(v, e);
        div, e := div / 10, e - 1;
      }
    }

    /** ` name=` and a text: one more pair of the line begun at `base`. */
    method PutText(name: string, text: string, ghost base: string, ghost pairs: seq<Pair>)
      requires Valid() && stream == base + Spaced(pairs)
      modifies this, buf
      ensures Valid() && stream == base + Spaced(pairs + [(name, text)])
    {
      Put(' ');
      PutStr(name);
      Put('=');
      PutStr(text);
      SpacedLast(pairs, (name, text));
      Regroup(base, Spaced(pairs), name, text);
    }

    /** ` name=` and a number. */
    method PutNumber(name: string, v: nat, ghost base: string, ghost pairs: seq<Pair>)
      requires Valid() && v < U64 && stream == base + Spaced(pairs)
      modifies this, buf
      ensures Valid() && stream == base + Spaced(pairs + [(name, Dec(v))])
    {
      Put(' ');
      PutStr(name);
      Put('=');
      PutDec(v);
      SpacedLast(pairs, (name, Dec(v)));
      Regroup(base, Spaced(pairs), name, Dec(v));
    }

    /** The version and the source of the line begun at `base`. */
    method PutSource(src: LineSrc, ghost base: string) returns (ghost pairs: seq<Pair>)
      requires Valid() && stream == base
      modifies this, buf
      ensures Valid() && pairs == [("v", Dec(1)), ("src", src.Name())] && stream == base + Spaced(pairs)
    {
      pairs := [];
      PutNumber("v", 1, base, pairs);
      pairs := pairs + [("v", Dec(1))];
      PutText("src", src.Name(), base, pairs);
      pairs := pairs + [("src", src.Name())];
    }

    /** Three more numbers of the line begun at `base`. */
    method PutPlace(cpu: nat, t: nat, n: nat, ghost base: string, ghost pairs: seq<Pair>)
      requires Valid() && cpu < 256 && t < U64 && n <= MAX_CPUS && stream == base + Spaced(pairs)
      modifies this, buf
      ensures Valid()
      ensures stream == base + Spaced(pairs + [("cpu", Dec(cpu))] + [("t", Dec(t))] + [("ncpu", Dec(n))])
    {
      PutNumber("cpu", cpu, base, pairs);
      ghost var withCpu := pairs + [("cpu", Dec(cpu))];
      PutNumber("t", t, base, withCpu);
      PutNumber("ncpu", n, base, withCpu + [("t", Dec(t))]);
    }

    method PutPrefix(src: LineSrc, cpu: nat, t: nat, n: nat)
      requires Valid() && cpu < 256 && t < U64 && n <= MAX_CPUS
      modifies this, buf
      ensures Valid() && stream == old(stream) + LINE_PREFIX + Spaced(PrefixPairs(src, cpu, t, n))
    {
      PutStr(LINE_PREFIX);
      ghost var base := stream;
      ghost var pairs := PutSource(src, base);
      PutPlace(cpu, t, n, base, pairs);
      PrefixInSteps(src, cpu, t, n);
    }

    /** The values of key k, comma-separated. */
    method PutValues(value: (Key, nat) -> nat, k: Key, count: nat)
      requires Valid() && count > 0 && forall i :: value(k, i) < U64
      modifies this, buf
      ensures Valid() && stream == old(stream) + ValueText(ValuesOf(value, k, count))
    {
      PutDec(value(k, 0));
      JoinOne(ValuesOf(value, k, 1));
      for idx := 1 to count
        invariant Valid() && stream == old(stream) + ValueText(ValuesOf(value, k, idx))
      {
        Put(',');
        PutDec(value(k, idx));
        JoinNext(old(stream), value, k, idx);
      }
    }

    /** One more key of the line begun at `base`. */
    method PutKey(value: (Key, nat) -> nat, ncpu: nat, k: Key, ghost base: string, ghost pairs: seq<Pair>)
      requires Valid() && ncpu > 0 && stream == base + Spaced(pairs)
      requires forall i :: value(k, i) < U64
      modifies this, buf
      ensures Valid() && stream == base + Spaced(pairs + [KeyPair(value, ncpu, k)])
    {
      var name, count := TripwireKeys.Name(k), Count(k, ncpu);
      Put(' ');
      PutStr(name);
      Put('=');
      PutValues(value, k, count);
      ghost var text := ValueText(ValuesOf(value, k, count));
      SpacedLast(pairs, (name, text));
      Regroup(base, Spaced(pairs), name, text);
    }

    /** The keys of the line begun at `base`, and the number of its tokens so far. */
    method PutKeys(mode: LineMode, n: nat, value: (Key, nat) -> nat, ghost base: string, ghost prefix: seq<Pair>)
      returns (tokens: nat)
      requires Valid() && n > 0 && |prefix| == 5 && stream == base + Spaced(prefix)
      requires forall k, i :: value(k, i) < U64
      modifies this, buf
      ensures Valid() && stream == base + Spaced(prefix + Kept(Entries(mode, value, n)))
      ensures tokens == |prefix + Kept(Entries(mode, value, n))| <= 66
    {
      tokens := 5;
      ghost var entries := Entries(mode, value, n);
      assert prefix + Kept(entries[..0]) == prefix;
      for k := 0 to KEY_COUNT
        invariant Valid() && tokens == |prefix + Kept(entries[..k])| <= 5 + k
        invariant stream == base + Spaced(prefix + Kept(entries[..k]))
      {
        KeptStep(prefix, entries, k);
        var zero := IsZero(value, k, Count(k, n));
        if mode == Full || AlwaysPrinted(k) || !zero {
          PutKey(value, n, k, base, prefix + Kept(entries[..k]));
          tokens := tokens + 1;
        }
      }
      assert entries[..KEY_COUNT] == entries;
    }

    /** write_line. */
    method WriteLine(src: LineSrc, mode: LineMode, cpu: nat, t: nat, ncpu: nat, value: (Key, nat) -> nat)
      requires Valid() && cpu < 256 && t < U64
      requires forall k, i :: value(k, i) < U64
      modifies this, buf
      ensures Valid() && stream == old(stream) + LineText(LinePairs(src, mode, cpu, t, ncpu, value))
    {
      var n := Clamp(ncpu);
      PutPrefix(src, cpu, t, n);
      ghost var base, prefix := old(stream) + LINE_PREFIX, PrefixPairs(src, cpu, t, n);
      var tokens := PutKeys(mode, n, value, base, prefix);
      ghost var pairs := LinePairs(src, mode, cpu, t, ncpu, value);
      PutNumber("n", tokens, base, pairs);
      Put('\n');
      CloseLine(old(stream), pairs);
    }
  }
}
