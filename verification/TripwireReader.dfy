/**
  The reader of `[tripwire]` lines: the fields of a record, the complete line
  in it, and what is decoded from that line.
 */
module TripwireReader {
  import opened Basics
  import opened Text
  import opened Decimal
  import opened TripwireKeys
  import opened TripwireLine

  const MARKER: string := "[tripwire] "

  datatype V1 = V1(cpu: Option<string>, t: Option<string>, ncpu: Option<string>, values: seq<string>)

  /** A complete line. Only version 1 is decoded. */
  datatype Line = Line(text: string, version: Option<string>, src: Option<string>, v1: Option<V1>)

  // Fields of a record -------------------------------------------------------------

  predicate Blank(c: char) {
    c == ' ' || c == '\t'
  }

  predicate IsEquals(c: char) {
    c == '='
  }

  /** How far s goes before a character that stops it. */
  function Span(s: string, stop: char -> bool): (n: nat)
    ensures n <= |s| && (n < |s| ==> stop(s[n]))
    ensures forall i :: 0 <= i < n ==> !stop(s[i])
  {
    if s == "" || stop(s[0]) then 0 else 1 + Span(s[1..], stop)
  }

  /** The runs of characters between blanks. */
  function Fields(s: string): seq<string>
    decreases |s|
  {
    if s == "" then []
    else if Blank(s[0]) then Fields(s[1..])
    else
      var n := Span(s, Blank);
      [s[..n]] + Fields(s[n..])
  }

  /** The first place where needle occurs. */
  function Find(s: string, needle: string): (r: Option<nat>)
    ensures r.Some? ==> r.value + |needle| <= |s|
  {
    if needle <= s then Some(0)
    else if s == "" then None
    else
      match Find(s[1..], needle)
      case None => None
      case Some(i) => Some(i + 1)
  }

  /** It does occur there, and nowhere before. */
  lemma {:induction false} FindIsFirst(s: string, needle: string)
    ensures Find(s, needle).Some? ==> needle <= s[Find(s, needle).value..]
    ensures forall i :: 0 <= i <= |s| && (Find(s, needle).Some? ==> i < Find(s, needle).value) ==> !(needle <= s[i..])
  {
    if needle <= s {
      assert s[0..] == s;
    } else if s == "" {
      assert s[0..] == s;
    } else {
      var t := s[1..];
      FindIsFirst(t, needle);
      forall i | 0 <= i <= |s| && (Find(s, needle).Some? ==> i < Find(s, needle).value)
        ensures !(needle <= s[i..])
      {
        if i == 0 { assert s[0..] == s; } else { assert s[i..] == t[i - 1..]; }
      }
      if Find(t, needle).Some? {
        assert s[Find(t, needle).value + 1..] == t[Find(t, needle).value..];
      }
    }
  }

  function Trimmed(s: string): string {
    if s != "" && Blank(s[|s| - 1]) then Trimmed(s[..|s| - 1]) else s
  }

  function KeyValue(token: string): Option<Pair> {
    var e := Span(token, IsEquals);
    if 0 < e && e + 1 < |token| then Some((token[..e], token[e + 1..])) else None
  }

  function KeyValues(tokens: seq<string>): Option<seq<Pair>> {
    if tokens == [] then Some([])
    else
      var last := KeyValue(tokens[|tokens| - 1]);
      var rest := KeyValues(tokens[..|tokens| - 1]);
      if last.Some? && rest.Some? then Some(rest.value + [last.value]) else None
  }

  // A record's line ------------------------------------------------------------------

  /** The last pair is `n` and counts the others. A number past usize counts no list. */
  predicate Complete(pairs: seq<Pair>) {
    pairs != []
    && var last := pairs[|pairs| - 1];
       last.0 == "n" && AllDigits(last.1) && Value(last.1) == |pairs| - 1
  }

  function First(pairs: seq<Pair>, name: string): Option<string> {
    if pairs == [] then None
    else if pairs[0].0 == name then Some(pairs[0].1)
    else First(pairs[1..], name)
  }

  /** The text of key k on a line with these pairs: the last one's, or 0. */
  function KeyText(pairs: seq<Pair>, k: Key): string {
    match Lookup(pairs, TripwireKeys.Name(k))
    case None => "0"
    case Some(text) => text
  }

  function Decoded(pairs: seq<Pair>): V1 {
    V1(First(pairs, "cpu"), First(pairs, "t"), First(pairs, "ncpu"),
       seq(KEY_COUNT, k requires 0 <= k < KEY_COUNT => KeyText(pairs, k)))
  }

  function LineOf(text: string, pairs: seq<Pair>): Line {
    var version := First(pairs, "v");
    Line(Trimmed(text), version, First(pairs, "src"), if version == Some("1") then Some(Decoded(pairs)) else None)
  }

  /** The line that starts at a marker, if it is complete. */
  function LineAt(line: string): Option<Line>
    requires |MARKER| <= |line|
  {
    match KeyValues(Fields(line[|MARKER|..]))
    case None => None
    case Some(pairs) => if Complete(pairs) then Some(LineOf(line, pairs[..|pairs| - 1])) else None
  }

  /** The complete line in a record, from the record's first marker. */
  function Parsed(record: string): Option<Line> {
    match Find(record, MARKER)
    case None => None
    case Some(start) => LineAt(record[start..])
  }

  /** The key printed as s. */
  function KeyNamed(s: string): (r: Option<Key>)
    ensures r.Some? ==> TripwireKeys.Name(r.value) == s
    ensures r.None? ==> forall k: Key :: TripwireKeys.Name(k) != s
  {
    var h := if |s| > 1 then KeyOfHash(Hash(s)) else -1;
    if 0 <= h < KEY_COUNT && TripwireKeys.Name(h) == s then Some(h)
    else
      assert forall k: Key :: TripwireKeys.Name(k) != s by {
        forall k: Key ensures TripwireKeys.Name(k) != s { NameFacts(k); }
      }
      None
  }

  lemma TextOfNext(front: seq<Pair>, p: Pair, k: Key)
    ensures KeyText(front + [p], k) == if TripwireKeys.Name(k) == p.0 then p.1 else KeyText(front, k)
  {
    LookupAppend(front, p, TripwireKeys.Name(k));
  }

  method KeyTexts(pairs: seq<Pair>) returns (values: seq<string>)
    ensures |values| == KEY_COUNT && forall k: Key :: values[k] == KeyText(pairs, k)
  {
    values := seq(KEY_COUNT, _ => "0");
    for i := 0 to |pairs|
      invariant |values| == KEY_COUNT && forall k: Key :: values[k] == KeyText(pairs[..i], k)
    {
      var known := KeyNamed(pairs[i].0);
      ghost var was := values;
      if known.Some? { values := values[known.value := pairs[i].1]; }
      assert pairs[..i + 1] == pairs[..i] + [pairs[i]];
      forall k: Key ensures values[k] == KeyText(pairs[..i + 1], k) {
        TextOfNext(pairs[..i], pairs[i], k);
        if known.Some? && TripwireKeys.Name(k) == pairs[i].0 { NamesAreDistinct(k, known.value); }
      }
    }
    assert pairs[..|pairs|] == pairs;
  }

  method ParseLine(record: string) returns (r: Option<Line>)
    ensures r == Parsed(record)
  {
    var start := Find(record, MARKER);
    if start.None? { return None; }
    var line := record[start.value..];
    var tokens := Fields(line[|MARKER|..]);
    var pairs := [];
    for i := 0 to |tokens|
      invariant KeyValues(tokens[..i]) == Some(pairs)
    {
      assert tokens[..i + 1][..i] == tokens[..i];
      var pair := KeyValue(tokens[i]);
      if pair.None? {
        NoneStays(tokens, i + 1);
        return None;
      }
      pairs := pairs + [pair.value];
    }
    assert tokens[..|tokens|] == tokens;
    if !Complete(pairs) { return None; }
    var before := pairs[..|pairs| - 1];
    var version, v1 := First(before, "v"), None;
    if version == Some("1") {
      var values := KeyTexts(before);
      v1 := Some(V1(First(before, "cpu"), First(before, "t"), First(before, "ncpu"), values));
      assert values == Decoded(before).values;
    }
    r := Some(Line(Trimmed(line), version, First(before, "src"), v1));
  }

  lemma {:induction false} NoneStays(tokens: seq<string>, i: nat)
    requires i <= |tokens| && KeyValues(tokens[..i]).None?
    ensures KeyValues(tokens).None?
    decreases |tokens| - i
  {
    if i == |tokens| {
      assert tokens[..i] == tokens;
    } else {
      assert tokens[..i + 1][..i] == tokens[..i];
      NoneStays(tokens, i + 1);
    }
  }

  // Fields of a written line ------------------------------------------------------------

  lemma SpanIs(s: string, stop: char -> bool, n: nat)
    requires n <= |s| && (n < |s| ==> stop(s[n]))
    requires forall i :: 0 <= i < n ==> !stop(s[i])
    ensures Span(s, stop) == n
  {
  }

  lemma FieldsOfBlank(s: string)
    ensures Fields(" " + s) == Fields(s)
  {
    assert (" " + s)[1..] == s;
  }

  lemma Associates<T>(x: seq<T>, y: seq<T>, z: seq<T>)
    ensures x + (y + z) == x + y + z
  {
  }

  lemma {:induction false} FieldsAppend(a: string, b: string)
    ensures Fields(a + " " + b) == Fields(a) + Fields(b)
    decreases |a|
  {
    var whole := a + " " + b;
    if a == "" {
      assert whole == " " + b;
      FieldsOfBlank(b);
    } else if Blank(a[0]) {
      assert whole[1..] == a[1..] + " " + b;
      FieldsAppend(a[1..], b);
    } else {
      var n := Span(a, Blank);
      SpanIs(whole, Blank, n);
      assert whole[..n] == a[..n] && whole[n..] == a[n..] + " " + b;
      FieldsAppend(a[n..], b);
      Associates([a[..n]], Fields(a[n..]), Fields(b));
    }
  }

  lemma FieldsOfToken(token: string)
    requires Without(token, ' ') && Without(token, '\t')
    ensures Fields(token) == if token == "" then [] else [token]
  {
    if token != "" {
      SpanIs(token, Blank, |token|);
      assert token[..|token|] == token && token[|token|..] == "";
    }
  }

  function RenderAll(pairs: seq<Pair>): (tokens: seq<string>)
    ensures |tokens| == |pairs|
  {
    if pairs == [] then [] else RenderAll(pairs[..|pairs| - 1]) + [Render(pairs[|pairs| - 1])]
  }

  predicate AllClean(pairs: seq<Pair>) {
    forall i :: 0 <= i < |pairs| ==> CleanPair(pairs[i])
  }

  lemma {:induction false} FieldsOfSpaced(pairs: seq<Pair>)
    requires AllClean(pairs)
    ensures Fields(Spaced(pairs)) == RenderAll(pairs)
  {
    if pairs == [] {
    } else {
      var n := |pairs| - 1;
      FieldsOfSpaced(pairs[..n]);
      assert CleanPair(pairs[n]);
      FieldsOfToken(Render(pairs[n]));
      FieldsAppend(Spaced(pairs[..n]), Render(pairs[n]));
    }
  }

  /** A pair's text cut at j reads as nothing, or as its key with a cut value. */
  lemma CutPair(p: Pair, j: nat)
    requires CleanPair(p) && j <= |Render(p)|
    ensures KeyValue(Render(p)[..j]) ==
      if j <= |p.0| + 1 then None else Some((p.0, p.1[..j - |p.0| - 1]))
  {
    var token := Render(p)[..j];
    var e := |p.0|;
    if j <= e {
      assert token == p.0[..j];
      SpanIs(token, IsEquals, j);
    } else {
      assert token == p.0 + "=" + p.1[..j - e - 1];
      SpanIs(token, IsEquals, e);
      assert token[..e] == p.0;
      if j > e + 1 { assert token[e + 1..] == p.1[..j - e - 1]; }
    }
  }

  lemma KeyValuesAppend(front: seq<string>, token: string)
    ensures KeyValues(front + [token]) ==
      var rest, last := KeyValues(front), KeyValue(token);
      if last.Some? && rest.Some? then Some(rest.value + [last.value]) else None
  {
    assert (front + [token])[..|front|] == front;
  }

  lemma {:induction false} KeyValuesOfRendered(pairs: seq<Pair>)
    requires AllClean(pairs)
    ensures KeyValues(RenderAll(pairs)) == Some(pairs)
  {
    if pairs == [] {
    } else {
      var n := |pairs| - 1;
      KeyValuesOfRendered(pairs[..n]);
      KeyValuesAppend(RenderAll(pairs[..n]), Render(pairs[n]));
      WholePair(pairs[n]);
      assert pairs[..n] + [pairs[n]] == pairs;
    }
  }

  lemma WholePair(p: Pair)
    requires CleanPair(p)
    ensures KeyValue(Render(p)) == Some(p)
  {
    CutPair(p, |Render(p)|);
    assert Render(p)[..|Render(p)|] == Render(p);
    assert p.1[..|p.1|] == p.1;
  }

  // Where the marker is found ------------------------------------------------------------

  /** No marker reaches across the start of a line. */
  lemma MarkerWithin(junk: string, rest: string)
    requires junk != "" && rest != "" && rest[0] == '['
    ensures MARKER <= junk + rest <==> MARKER <= junk
  {
    if |junk| < |MARKER| {
      assert (junk + rest)[|junk|] == '[' && MARKER[|junk|] != '[';
    } else {
      assert (junk + rest)[..|MARKER|] == junk[..|MARKER|];
    }
  }

  /** One character on, with a needle that starts in both texts or in neither. */
  lemma FindInBoth(junk: string, rest: string, needle: string)
    requires junk != "" && (needle <= junk + rest <==> needle <= junk)
    requires var found := Find(junk[1..], needle);
      Find(junk[1..] + rest, needle) == if found.Some? then found else Some(|junk| - 1)
    ensures var found := Find(junk, needle);
      Find(junk + rest, needle) == if found.Some? then found else Some(|junk|)
  {
    assert (junk + rest)[1..] == junk[1..] + rest;
  }

  /** A marker in what comes before is found first; otherwise the line's own. */
  lemma {:induction false} MarkerFound(junk: string, rest: string)
    requires MARKER <= rest
    ensures Find(junk + rest, MARKER) == if Find(junk, MARKER).Some? then Find(junk, MARKER) else Some(|junk|)
  {
    if junk == "" {
      assert junk + rest == rest;
    } else {
      MarkerWithin(junk, rest);
      MarkerFound(junk[1..], rest);
      FindInBoth(junk, rest, MARKER);
    }
  }

  /** The start of a line, cut before the end of its marker, makes no marker. */
  lemma {:induction false} NoMarkerYet(junk: string, start: string)
    requires start < MARKER && Find(junk, MARKER).None?
    ensures Find(junk + start, MARKER).None?
  {
    if junk == "" {
      assert junk + start == start;
      NoneInStart(start);
    } else {
      assert (junk + start)[1..] == junk[1..] + start;
      NoMarkerYet(junk[1..], start);
      if start == "" { assert junk + start == junk; } else { MarkerWithin(junk, start); }
    }
  }

  lemma {:induction false} NoneInStart(s: string)
    requires |s| < |MARKER|
    ensures Find(s, MARKER).None?
  {
    if s == "" {
    } else {
      NoneInStart(s[1..]);
    }
  }
}
