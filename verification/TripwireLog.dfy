/**
  Written lines and the reader: which records give a line, whatever else was
  printed on them and wherever the line was cut, and what the line gives back.
 */
module TripwireLog {
  import opened Basics
  import opened Text
  import opened Decimal
  import opened TripwireKeys
  import opened TripwireLine
  import opened TripwireReader

  // Whole lines ---------------------------------------------------------------------------

  /** Pairs that a line may carry: clean, and none that could pass for its count. */
  predicate Writable(pairs: seq<Pair>) {
    AllClean(pairs) && forall i :: 0 <= i < |pairs| ==> pairs[i].0 != "n"
  }

  lemma CountedIsComplete(pairs: seq<Pair>)
    ensures Complete(Closed(pairs)) && Closed(pairs)[..|pairs|] == pairs
  {
    ValueOfDec(|pairs|);
    assert Closed(pairs)[|pairs|] == ("n", Dec(|pairs|));
  }

  lemma ClosedIsClean(pairs: seq<Pair>)
    requires AllClean(pairs)
    ensures AllClean(Closed(pairs))
  {
    DecIsClean(|pairs|);
    assert CleanText("n");
  }

  lemma {:induction false} SpacedStarts(pairs: seq<Pair>)
    requires pairs != []
    ensures Spaced(pairs) != "" && Spaced(pairs)[0] == ' '
  {
    if |pairs| == 1 {
      assert pairs[..0] == [] && Spaced(pairs[..0]) == "";
    } else {
      SpacedStarts(pairs[..|pairs| - 1]);
    }
  }

  /** What follows the marker of a line has the fields of what follows its prefix. */
  lemma BodyFields(pairs: seq<Pair>, k: nat)
    requires |MARKER| <= k <= |Body(pairs)|
    ensures MARKER <= Body(pairs)[..k]
    ensures Fields(Body(pairs)[..k][|MARKER|..]) == Fields(Spaced(Closed(pairs))[..k - |LINE_PREFIX|])
  {
    var text := Spaced(Closed(pairs));
    SpacedStarts(Closed(pairs));
    var cut := text[..k - |LINE_PREFIX|];
    assert cut == " " + cut[1..];
    FieldsOfBlank(cut[1..]);
    assert MARKER == LINE_PREFIX + " ";
    assert Body(pairs)[..k] == LINE_PREFIX + cut == MARKER + cut[1..];
    assert Body(pairs)[..k][|MARKER|..] == cut[1..];
  }

  predicate AllBlank(s: string) {
    forall i :: 0 <= i < |s| ==> Blank(s[i])
  }

  lemma {:induction false} FieldsThenBlanks(s: string, blanks: string)
    requires AllBlank(blanks)
    ensures Fields(s + blanks) == Fields(s)
    decreases |s| + |blanks|
  {
    var whole := s + blanks;
    if s == "" {
      assert whole == blanks;
      if blanks != "" {
        FieldsThenBlanks("", blanks[1..]);
        assert "" + blanks[1..] == blanks[1..];
      }
    } else if Blank(s[0]) {
      assert whole[1..] == s[1..] + blanks;
      FieldsThenBlanks(s[1..], blanks);
    } else {
      var n := Span(s, Blank);
      SpanIs(whole, Blank, n);
      assert whole[..n] == s[..n] && whole[n..] == s[n..] + blanks;
      FieldsThenBlanks(s[n..], blanks);
    }
  }

  lemma {:induction false} TrimmedBlanks(s: string, blanks: string)
    requires AllBlank(blanks) && (s != "" ==> !Blank(s[|s| - 1]))
    ensures Trimmed(s + blanks) == s
  {
    if blanks == "" {
      assert s + blanks == s;
    } else {
      var n := |blanks| - 1;
      assert (s + blanks)[..|s| + n] == s + blanks[..n];
      TrimmedBlanks(s, blanks[..n]);
    }
  }

  lemma BodyEnds(pairs: seq<Pair>)
    requires AllClean(pairs)
    ensures !Blank(Body(pairs)[|Body(pairs)| - 1])
  {
    var digits := Dec(|pairs|);
    var all := Closed(pairs);
    assert all[..|pairs|] == pairs && all[|pairs|] == ("n", digits);
    assert Spaced(all) == Spaced(pairs) + " " + Render(("n", digits));
    assert Body(pairs)[|Body(pairs)| - 1] == digits[|digits| - 1];
    assert IsDigit(digits[|digits| - 1]);
  }

  lemma WholeFields(pairs: seq<Pair>)
    requires AllClean(pairs)
    ensures MARKER <= Body(pairs)
    ensures Fields(Body(pairs)[|MARKER|..]) == RenderAll(Closed(pairs))
  {
    var body, text := Body(pairs), Spaced(Closed(pairs));
    SpacedStarts(Closed(pairs));
    BodyFields(pairs, |body|);
    assert body[..|body|] == body && text[..|text|] == text;
    ClosedIsClean(pairs);
    FieldsOfSpaced(Closed(pairs));
  }

  lemma LineAfter(junk: string, line: string)
    requires MARKER <= line && Find(junk, MARKER).None?
    ensures Parsed(junk + line) == LineAt(line)
  {
    MarkerFound(junk, line);
    assert (junk + line)[|junk|..] == line;
  }

  lemma WholeLine(pairs: seq<Pair>, blanks: string)
    requires AllClean(pairs) && AllBlank(blanks)
    ensures MARKER <= Body(pairs)
    ensures LineAt(Body(pairs) + blanks) == Some(LineOf(Body(pairs) + blanks, pairs))
  {
    var body := Body(pairs);
    WholeFields(pairs);
    assert (body + blanks)[|MARKER|..] == body[|MARKER|..] + blanks;
    FieldsThenBlanks(body[|MARKER|..], blanks);
    ClosedIsClean(pairs);
    KeyValuesOfRendered(Closed(pairs));
    CountedIsComplete(pairs);
  }

  /** A whole line after text without a marker, and before blanks, is read: its own text and its pairs. */
  lemma WholeLineIsRead(junk: string, pairs: seq<Pair>, blanks: string)
    requires AllClean(pairs) && AllBlank(blanks) && Find(junk, MARKER).None?
    ensures Parsed(junk + Body(pairs) + blanks) == Some(LineOf(Body(pairs), pairs))
    ensures LineOf(Body(pairs), pairs).text == Body(pairs)
  {
    var body := Body(pairs);
    WholeLine(pairs, blanks);
    LineAfter(junk, body + blanks);
    Associates(junk, body, blanks);
    BodyEnds(pairs);
    TrimmedBlanks(body, blanks);
    SameLine(body + blanks, body, pairs);
  }

  lemma SameLine(a: string, b: string, pairs: seq<Pair>)
    requires Trimmed(a) == b && (b != "" ==> !Blank(b[|b| - 1]))
    ensures LineOf(a, pairs) == LineOf(b, pairs) && Trimmed(b) == b
  {
  }

  lemma FieldsOfPrefix(s: string)
    ensures |Fields(s + LINE_PREFIX)| > 0
    decreases |s|
  {
    var whole := s + LINE_PREFIX;
    if s != "" && Blank(s[0]) {
      assert whole[1..] == s[1..] + LINE_PREFIX;
      FieldsOfPrefix(s[1..]);
    } else {
      assert !Blank(whole[0]);
    }
  }

  lemma {:induction false} TooManyPairs(front: seq<string>, pairs: seq<Pair>)
    requires AllClean(pairs)
    ensures var r := KeyValues(front + RenderAll(pairs)); r.Some? ==>
      |r.value| == |front| + |pairs| && (pairs != [] ==> r.value[|r.value| - 1] == pairs[|pairs| - 1])
  {
    if pairs == [] {
      assert front + RenderAll(pairs) == front;
      AsManyPairs(front);
    } else {
      var n := |pairs| - 1;
      TooManyPairs(front, pairs[..n]);
      Associates(front, RenderAll(pairs[..n]), [Render(pairs[n])]);
      KeyValuesAppend(front + RenderAll(pairs[..n]), Render(pairs[n]));
      WholePair(pairs[n]);
    }
  }

  lemma {:induction false} AsManyPairs(tokens: seq<string>)
    ensures KeyValues(tokens).Some? ==> |KeyValues(tokens).value| == |tokens|
  {
    if tokens == [] {
    } else {
      AsManyPairs(tokens[..|tokens| - 1]);
    }
  }

  lemma TooManyFields(front: string, pairs: seq<Pair>)
    requires AllClean(pairs)
    ensures var r := KeyValues(Fields(front + Body(pairs))); r.Some? ==> !Complete(r.value)
  {
    var text := Spaced(Closed(pairs));
    SpacedStarts(Closed(pairs));
    assert text == " " + text[1..];
    FieldsOfBlank(text[1..]);
    assert front + Body(pairs) == (front + LINE_PREFIX) + " " + text[1..];
    FieldsAppend(front + LINE_PREFIX, text[1..]);
    FieldsOfPrefix(front);
    ClosedIsClean(pairs);
    FieldsOfSpaced(Closed(pairs));
    TooManyPairs(Fields(front + LINE_PREFIX), Closed(pairs));
    ValueOfDec(|pairs|);
  }

  lemma DropBoth(a: string, b: string, i: nat, n: nat)
    requires i + n <= |a|
    ensures (a + b)[i..][n..] == a[i..][n..] + b
  {
  }

  /** A line on a record that already has a marker is not read: the record counts one field too many. */
  lemma SecondMarkerHidesLine(junk: string, pairs: seq<Pair>)
    requires AllClean(pairs) && Find(junk, MARKER).Some?
    ensures Parsed(junk + Body(pairs)).None?
  {
    WholeFields(pairs);
    MarkerFound(junk, Body(pairs));
    var start := Find(junk, MARKER).value;
    DropBoth(junk, Body(pairs), start, |MARKER|);
    TooManyFields(junk[start..][|MARKER|..], pairs);
  }

  /** A whole line is read exactly when nothing before it on its record holds a marker. */
  lemma MidRecordExactly(junk: string, pairs: seq<Pair>)
    requires AllClean(pairs)
    ensures Parsed(junk + Body(pairs)) == if Find(junk, MARKER).None? then Some(LineOf(Body(pairs), pairs)) else None
  {
    if Find(junk, MARKER).None? {
      WholeLineIsRead(junk, pairs, "");
      assert junk + Body(pairs) + "" == junk + Body(pairs);
    } else {
      SecondMarkerHidesLine(junk, pairs);
    }
  }

  // Torn lines -----------------------------------------------------------------------------

  /** The fields of a line cut at k: whole pairs, then one that may be cut. */
  lemma {:induction false} CutFields(pairs: seq<Pair>, k: nat) returns (m: nat, j: nat)
    requires AllClean(pairs) && k < |Spaced(pairs)|
    ensures m < |pairs| && j < |Render(pairs[m])| + (if m < |pairs| - 1 then 1 else 0)
    ensures Fields(Spaced(pairs)[..k])
         == RenderAll(pairs[..m]) + (if j == 0 then [] else [Render(pairs[m])[..j]])
  {
    var n := |pairs| - 1;
    var front, last := Spaced(pairs[..n]), Render(pairs[n]);
    assert CleanPair(pairs[n]);
    if k < |front| {
      m, j := CutFields(pairs[..n], k);
      assert Spaced(pairs)[..k] == front[..k];
      assert pairs[..n][..m] == pairs[..m];
    } else if k == |front| {
      m, j := n, 0;
      assert Spaced(pairs)[..k] == front;
      FieldsOfSpaced(pairs[..n]);
    } else {
      m, j := n, k - |front| - 1;
      assert Spaced(pairs)[..k] == front + " " + last[..j];
      FieldsOfSpaced(pairs[..n]);
      FieldsAppend(front, last[..j]);
      FieldsOfToken(last[..j]);
    }
  }

  /** A numeral cut short is another number. */
  lemma {:induction false} CutNumeral(v: nat, j: nat)
    requires 0 < j < |Dec(v)|
    ensures AllDigits(Dec(v)[..j]) && Value(Dec(v)[..j]) < v
  {
    var digits := Dec(v);
    var front := Dec(v / 10);
    assert digits == front + [Digit(v % 10)];
    assert digits[..j] == front[..j];
    if j == |front| {
      assert front[..j] == front;
      ValueOfDec(v / 10);
    } else {
      CutNumeral(v / 10, j);
    }
  }

  lemma CutIsIncomplete(pairs: seq<Pair>, m: nat, j: nat)
    requires Writable(pairs) && m <= |pairs|
    requires j < |Render(Closed(pairs)[m])| + (if m < |pairs| then 1 else 0)
    ensures var cut := RenderAll(Closed(pairs)[..m]) + (if j == 0 then [] else [Render(Closed(pairs)[m])[..j]]);
            KeyValues(cut).Some? ==> !Complete(KeyValues(cut).value)
  {
    var all := Closed(pairs);
    ClosedIsClean(pairs);
    KeyValuesOfRendered(all[..m]);
    var front := RenderAll(all[..m]);
    if j == 0 {
      assert front + [] == front;
    } else {
      CutPair(all[m], j);
      KeyValuesAppend(front, Render(all[m])[..j]);
      if m == |pairs| && j > 2 { CutNumeral(|pairs|, j - 2); }
    }
  }

  lemma CutLine(pairs: seq<Pair>, k: nat)
    requires Writable(pairs) && |MARKER| <= k < |Body(pairs)|
    ensures MARKER <= Body(pairs)[..k] && LineAt(Body(pairs)[..k]) == None
  {
    BodyFields(pairs, k);
    ClosedIsClean(pairs);
    var m, j := CutFields(Closed(pairs), k - |LINE_PREFIX|);
    CutIsIncomplete(pairs, m, j);
  }

  /** A line cut short, after text without a marker, is never read; the whole line is. */
  lemma TornExactly(junk: string, pairs: seq<Pair>, k: nat)
    requires Writable(pairs) && k <= |Body(pairs)| && Find(junk, MARKER).None?
    ensures Parsed(junk + Body(pairs)[..k]) ==
      if k == |Body(pairs)| then Some(LineOf(Body(pairs), pairs)) else None
  {
    var cut := Body(pairs)[..k];
    if k == |Body(pairs)| {
      assert cut == Body(pairs);
      MidRecordExactly(junk, pairs);
    } else if k < |MARKER| {
      WholeFields(pairs);
      assert cut == MARKER[..k];
      NoMarkerYet(junk, cut);
    } else {
      CutLine(pairs, k);
      LineAfter(junk, cut);
    }
  }

  /** The newline that ends a line is its only one. */
  lemma BodyIsOneLine(pairs: seq<Pair>)
    requires AllClean(pairs)
    ensures Without(Body(pairs), '\n')
  {
    ClosedIsClean(pairs);
    SpacedIsOneLine(Closed(pairs));
  }

  lemma {:induction false} SpacedIsOneLine(pairs: seq<Pair>)
    requires AllClean(pairs)
    ensures Without(Spaced(pairs), '\n')
  {
    if pairs == [] {
    } else {
      SpacedIsOneLine(pairs[..|pairs| - 1]);
      assert CleanPair(pairs[|pairs| - 1]);
    }
  }

  // What a line's reader gets ---------------------------------------------------------------

  lemma LinePairsWritable(src: LineSrc, mode: LineMode, cpu: nat, t: nat, ncpu: nat, value: (Key, nat) -> nat)
    ensures Writable(LinePairs(src, mode, cpu, t, ncpu, value))
  {
    var n := Clamp(ncpu);
    var prefix, entries := PrefixPairs(src, cpu, t, n), Entries(mode, value, n);
    forall j | 0 <= j < KEY_COUNT ensures CleanPair(entries[j].pair) && entries[j].pair.0 != "n" {
      EntryIsClean(value, n, j);
      NameFacts(j);
    }
    PrefixIsClean(src, cpu, t, n);
    KeptIsClean(entries);
    KeptIsNotCount(entries);
  }

  lemma {:induction false} KeptIsNotCount(entries: seq<Entry>)
    requires forall k :: 0 <= k < |entries| ==> entries[k].pair.0 != "n"
    ensures forall i :: 0 <= i < |Kept(entries)| ==> Kept(entries)[i].0 != "n"
  {
    if entries == [] {
    } else {
      KeptIsNotCount(entries[..|entries| - 1]);
    }
  }

  lemma {:induction false} FirstAt(pairs: seq<Pair>, name: string, i: nat)
    requires i < |pairs| && pairs[i].0 == name && forall j :: 0 <= j < i ==> pairs[j].0 != name
    ensures First(pairs, name) == Some(pairs[i].1)
  {
    if i == 0 {
    } else {
      FirstAt(pairs[1..], name, i - 1);
    }
  }

  lemma FirstOfPrefix(src: LineSrc, cpu: nat, t: nat, ncpu: nat, rest: seq<Pair>)
    ensures var pairs := PrefixPairs(src, cpu, t, ncpu) + rest;
            && First(pairs, "v") == Some("1") && First(pairs, "src") == Some(src.Name())
            && First(pairs, "cpu") == Some(Dec(cpu)) && First(pairs, "t") == Some(Dec(t))
            && First(pairs, "ncpu") == Some(Dec(ncpu))
  {
    var pairs := PrefixPairs(src, cpu, t, ncpu) + rest;
    assert |"v"| == |"t"| == 1 && |"src"| == |"cpu"| == 3 && |"ncpu"| == 4;
    assert "v"[0] != "t"[0] && "src"[0] != "cpu"[0];
    FirstAt(pairs, "v", 0);
    FirstAt(pairs, "src", 1);
    FirstAt(pairs, "cpu", 2);
    FirstAt(pairs, "t", 3);
    FirstAt(pairs, "ncpu", 4);
    assert Dec(1) == "1";
  }

  lemma KeyTextOfLine(src: LineSrc, mode: LineMode, cpu: nat, t: nat, n: nat, value: (Key, nat) -> nat, k: Key)
    requires n > 0
    ensures KeyText(PrefixPairs(src, cpu, t, n) + Kept(Entries(mode, value, n)), k)
         == if Printed(mode, value, n, k) then ValueText(ValuesOf(value, k, Count(k, n))) else "0"
  {
    PrefixNamesNoKey(src, cpu, t, n, k);
    EntriesAreDistinct(mode, value, n);
    LookupEntry(PrefixPairs(src, cpu, t, n), Entries(mode, value, n), k);
  }

  /** The line carries the source, the prefix and key k's values of what was written. */
  predicate Carries(line: Line, src: LineSrc, mode: LineMode, cpu: nat, t: nat, ncpu: nat,
                    value: (Key, nat) -> nat, k: Key)
    requires ncpu > 0
  {
    && line.version == Some("1") && line.src == Some(src.Name())
    && line.v1.Some?
    && var v1 := line.v1.value;
       && v1.cpu == Some(Dec(cpu)) && v1.t == Some(Dec(t)) && v1.ncpu == Some(Dec(ncpu))
       && |v1.values| == KEY_COUNT
       && v1.values[k] == if Printed(mode, value, ncpu, k) then ValueText(ValuesOf(value, k, Count(k, ncpu))) else "0"
  }

  lemma LineCarries(text: string, src: LineSrc, mode: LineMode, cpu: nat, t: nat, n: nat,
                    value: (Key, nat) -> nat, k: Key)
    requires n > 0
    ensures Carries(LineOf(text, PrefixPairs(src, cpu, t, n) + Kept(Entries(mode, value, n))),
                    src, mode, cpu, t, n, value, k)
  {
    FirstOfPrefix(src, cpu, t, n, Kept(Entries(mode, value, n)));
    KeyTextOfLine(src, mode, cpu, t, n, value, k);
  }

  /**
    Whatever the values, the CPU count, the mode and the marker-free output
    before it, the line is read as version 1, with its source and prefix, and
    with every printed key's values and 0 for the others.
   */
  lemma LineRecoversValues(junk: string, src: LineSrc, mode: LineMode, cpu: nat, t: nat, ncpu: nat,
                           value: (Key, nat) -> nat, k: Key)
    requires Find(junk, MARKER).None?
    ensures var body := Body(LinePairs(src, mode, cpu, t, ncpu, value));
            var line := Parsed(junk + body);
            && line.Some? && line.value.text == body
            && Carries(line.value, src, mode, cpu, t, Clamp(ncpu), value, k)
  {
    var pairs := LinePairs(src, mode, cpu, t, ncpu, value);
    LinePairsWritable(src, mode, cpu, t, ncpu, value);
    WholeLineIsRead(junk, pairs, "");
    assert junk + Body(pairs) + "" == junk + Body(pairs);
    LineCarries(Body(pairs), src, mode, cpu, t, Clamp(ncpu), value, k);
  }
}
