/**
  Serial logs: how a log's text becomes records, which line the log keeps, and
  what is read of a stream of written lines that ends anywhere.
 */
module SerialLog {
  import opened Basics
  import opened Text
  import opened TripwireKeys
  import opened TripwireLine
  import opened TripwireReader
  import opened TripwireLog

  // The line a log keeps -------------------------------------------------------------------

  predicate Any(line: Line) {
    true
  }

  predicate IsG1(line: Line) {
    line.src == Some("g1")
  }

  predicate Meets(line: Option<Line>, p: Line -> bool) {
    line.Some? && p(line.value)
  }

  /** The last of a log's complete lines that meets p. */
  function LastOf(lines: seq<Option<Line>>, p: Line -> bool): Option<Line> {
    if lines == [] then None
    else if Meets(lines[|lines| - 1], p) then lines[|lines| - 1]
    else LastOf(lines[..|lines| - 1], p)
  }

  /** i is the greatest index of a line that meets p. */
  predicate LastAt(lines: seq<Option<Line>>, p: Line -> bool, i: nat) {
    i < |lines| && Meets(lines[i], p) && forall j :: i < j < |lines| ==> !Meets(lines[j], p)
  }

  /** There is such a line exactly when some line meets p, and it is the one at the greatest index. */
  lemma {:induction false} LastOfExactly(lines: seq<Option<Line>>, p: Line -> bool)
    ensures LastOf(lines, p).Some? <==> exists i :: 0 <= i < |lines| && Meets(lines[i], p)
    ensures LastOf(lines, p).Some? ==> exists i: nat :: LastAt(lines, p, i)
    ensures forall i: nat :: LastAt(lines, p, i) ==> LastOf(lines, p) == lines[i]
  {
    if lines == [] {
    } else {
      var n := |lines| - 1;
      LastOfExactly(lines[..n], p);
      if Meets(lines[n], p) {
        assert LastAt(lines, p, n);
      } else {
        forall i: nat | i < n ensures LastAt(lines, p, i) <==> LastAt(lines[..n], p, i) {
          assert lines[..n][i] == lines[i];
        }
      }
    }
  }

  class LastLines {
    var last: Option<Line>
    var g1: Option<Line>
    /** What each record observed so far held. */
    ghost var lines: seq<Option<Line>>

    ghost predicate Valid()
      reads this
    {
      last == LastOf(lines, Any) && g1 == LastOf(lines, IsG1)
    }

    constructor ()
      ensures Valid() && lines == []
    {
      last, g1, lines := None, None, [];
    }

    method Observe(record: string)
      requires Valid()
      modifies this
      ensures Valid() && lines == old(lines) + [Parsed(record)]
    {
      var r := ParseLine(record);
      if r.Some? {
        if IsG1(r.value) { g1 := r; }
        last := r;
      }
      assert (lines + [r])[..|lines|] == lines;
      lines := lines + [r];
    }
  }

  // The text of a log ------------------------------------------------------------------------

  /** Lines split at newlines, with no empty record after a final newline. */
  function Records(text: string): seq<string> {
    if text == "" then []
    else if text[|text| - 1] == '\n' then Split(text[..|text| - 1], '\n')
    else Split(text, '\n')
  }

  function ParsedAll(records: seq<string>): (lines: seq<Option<Line>>)
    ensures |lines| == |records| && forall i :: 0 <= i < |records| ==> lines[i] == Parsed(records[i])
  {
    if records == [] then [] else ParsedAll(records[..|records| - 1]) + [Parsed(records[|records| - 1])]
  }

  /** What is kept of a log: its last complete line that meets p. */
  function KeptOf(text: string, p: Line -> bool): Option<Line> {
    LastOf(ParsedAll(Records(text)), p)
  }

  method ReadLog(text: string) returns (last: Option<Line>, g1: Option<Line>)
    ensures last == KeptOf(text, Any) && g1 == KeptOf(text, IsG1)
  {
    var records := Records(text);
    var kept := new LastLines();
    for i := 0 to |records|
      invariant kept.Valid() && kept.lines == ParsedAll(records[..i])
    {
      kept.Observe(records[i]);
      assert records[..i + 1][..i] == records[..i];
    }
    assert records[..|records|] == records;
    return kept.last, kept.g1;
  }

  /** Each part followed by a newline. */
  function Terminated(parts: seq<string>): string {
    if parts == [] then "" else parts[0] + "\n" + Terminated(parts[1..])
  }

  predicate OneLine(s: string) {
    Without(s, '\n')
  }

  predicate OneLineEach(parts: seq<string>) {
    forall i :: 0 <= i < |parts| ==> OneLine(parts[i])
  }

  lemma {:induction false} SplitTerminated(parts: seq<string>, tail: string)
    requires OneLineEach(parts) && OneLine(tail)
    ensures Split(Terminated(parts) + tail, '\n') == parts + [tail]
  {
    if parts == [] {
      assert Terminated(parts) + tail == tail;
      SplitWithout(tail, '\n');
    } else {
      var rest := Terminated(parts[1..]) + tail;
      SplitTerminated(parts[1..], tail);
      assert Terminated(parts) + tail == parts[0] + ['\n'] + rest;
      SplitAt(parts[0], '\n', rest);
      assert OneLine(parts[0]);
      SplitWithout(parts[0], '\n');
      assert [parts[0]] + (parts[1..] + [tail]) == parts + [tail];
    }
  }

  lemma {:induction false} TerminatedLast(parts: seq<string>, last: string)
    ensures Terminated(parts + [last]) == Terminated(parts) + last + "\n"
  {
    if parts == [] {
    } else {
      assert (parts + [last])[1..] == parts[1..] + [last];
      TerminatedLast(parts[1..], last);
      Associates(parts[0] + "\n", Terminated(parts[1..]) + last, "\n");
      Associates(parts[0] + "\n", Terminated(parts[1..]), last);
    }
  }

  lemma RecordsOpen(text: string, tail: string)
    requires tail != "" && OneLine(tail)
    ensures Records(text + tail) == Split(text + tail, '\n')
  {
    assert (text + tail)[|text + tail| - 1] == tail[|tail| - 1];
  }

  lemma RecordsClosed(body: string)
    ensures Records(body + "\n") == Split(body, '\n')
  {
    assert (body + "\n")[..|body|] == body;
  }

  lemma RecordsOfLines(parts: seq<string>)
    requires OneLineEach(parts)
    ensures Records(Terminated(parts)) == parts
  {
    if parts != [] {
      var n := |parts| - 1;
      var front, last := parts[..n], parts[n];
      assert parts == front + [last] && OneLine(last);
      TerminatedLast(front, last);
      SplitTerminated(front, last);
      RecordsClosed(Terminated(front) + last);
    }
  }

  /** The records of lines and an unfinished tail are the lines, and the tail unless it is empty. */
  lemma RecordsAre(parts: seq<string>, tail: string)
    requires OneLineEach(parts) && OneLine(tail)
    ensures Records(Terminated(parts) + tail) == if tail == "" then parts else parts + [tail]
  {
    if tail == "" {
      RecordsOfLines(parts);
      assert Terminated(parts) + tail == Terminated(parts);
    } else {
      SplitTerminated(parts, tail);
      RecordsOpen(Terminated(parts), tail);
    }
  }

  // A log of lines, torn lines and other output ------------------------------------------------

  /**
    A record of a serial log: a whole line after other output, a line cut short,
    or text with no marker in it.
   */
  datatype Record = Whole(junk: string, pairs: seq<Pair>, blanks: string)
                  | Torn(junk: string, pairs: seq<Pair>, k: nat)
                  | Other(junk: string)
  {
    predicate Valid() {
      && Find(junk, MARKER).None? && OneLine(junk)
      && (!Other? ==> Writable(pairs))
      && (Whole? ==> AllBlank(blanks))
      && (Torn? ==> k < |Body(pairs)|)
    }

    function Text(): string {
      match this
      case Whole(_, _, _) => junk + Body(pairs) + blanks
      case Torn(_, _, _) => junk + if k < |Body(pairs)| then Body(pairs)[..k] else Body(pairs)
      case Other(_) => junk
    }

    function Written(): Option<Line> {
      if Whole? then Some(LineOf(Body(pairs), pairs)) else None
    }
  }

  predicate AllValid(records: seq<Record>) {
    forall i :: 0 <= i < |records| ==> records[i].Valid()
  }

  /** The reader gets from each record of a log exactly the line written whole in it. */
  lemma RecordIsRead(record: Record)
    requires record.Valid()
    ensures Parsed(record.Text()) == record.Written() && OneLine(record.Text())
  {
    match record
    case Whole(junk, pairs, blanks) =>
      WholeLineIsRead(junk, pairs, blanks);
      BodyIsOneLine(pairs);
    case Torn(junk, pairs, k) =>
      TornExactly(junk, pairs, k);
      BodyIsOneLine(pairs);
    case Other(_) =>
  }

  function Texts(records: seq<Record>): (texts: seq<string>)
    ensures |texts| == |records| && forall i :: 0 <= i < |records| ==> texts[i] == records[i].Text()
  {
    if records == [] then [] else Texts(records[..|records| - 1]) + [records[|records| - 1].Text()]
  }

  /** The records one after the other; the last one is not terminated. */
  function LogText(records: seq<Record>, last: Record): string {
    Terminated(Texts(records)) + last.Text()
  }

  function WrittenIn(records: seq<Record>): (lines: seq<Option<Line>>)
    ensures |lines| == |records| && forall i :: 0 <= i < |records| ==> lines[i] == records[i].Written()
  {
    if records == [] then [] else WrittenIn(records[..|records| - 1]) + [records[|records| - 1].Written()]
  }

  lemma TextsAreRead(records: seq<Record>)
    requires AllValid(records)
    ensures ParsedAll(Texts(records)) == WrittenIn(records) && OneLineEach(Texts(records))
  {
    var texts := Texts(records);
    forall i | 0 <= i < |records| ensures ParsedAll(texts)[i] == WrittenIn(records)[i] && OneLine(texts[i]) {
      RecordIsRead(records[i]);
    }
  }

  lemma LastOfNone(lines: seq<Option<Line>>, p: Line -> bool)
    ensures LastOf(lines + [None], p) == LastOf(lines, p)
  {
    assert (lines + [None])[..|lines|] == lines;
  }

  lemma ParsedLast(records: seq<string>, last: string)
    ensures ParsedAll(records + [last]) == ParsedAll(records) + [Parsed(last)]
  {
    assert (records + [last])[..|records|] == records;
  }

  lemma WrittenLast(records: seq<Record>, last: Record)
    ensures WrittenIn(records + [last]) == WrittenIn(records) + [last.Written()]
  {
    assert (records + [last])[..|records|] == records;
  }

  lemma KeptOfRecords(parts: seq<string>, tail: string, p: Line -> bool)
    requires OneLineEach(parts) && OneLine(tail)
    ensures KeptOf(Terminated(parts) + tail, p) == LastOf(ParsedAll(parts) + [Parsed(tail)], p)
  {
    RecordsAre(parts, tail);
    if tail == "" {
      EmptyIsNoLine();
      LastOfNone(ParsedAll(parts), p);
    } else {
      ParsedLast(parts, tail);
    }
  }

  /** Whatever it holds, a log keeps exactly what was written whole in it, the last one that meets p. */
  lemma LogIsRead(records: seq<Record>, last: Record, p: Line -> bool)
    requires AllValid(records) && last.Valid()
    ensures KeptOf(LogText(records, last), p) == LastOf(WrittenIn(records + [last]), p)
  {
    TextsAreRead(records);
    RecordIsRead(last);
    KeptOfRecords(Texts(records), last.Text(), p);
    WrittenLast(records, last);
  }

  lemma EmptyIsNoLine()
    ensures Parsed("") == None
  {
    NoneInStart("");
  }

  /** A log keeps its last whole line, whatever was torn or printed after it. */
  lemma LogKeepsLastWhole(records: seq<Record>, last: Record, i: nat)
    requires AllValid(records) && last.Valid()
    requires var all := records + [last];
             i < |all| && all[i].Whole? && forall j :: i < j < |all| ==> !all[j].Whole?
    ensures KeptOf(LogText(records, last), Any) == (records + [last])[i].Written()
  {
    var lines := WrittenIn(records + [last]);
    LogIsRead(records, last, Any);
    LastOfExactly(lines, Any);
    assert LastAt(lines, Any, i);
  }

  /** A log keeps no line exactly when none was written whole in it. */
  lemma LogKeepsNone(records: seq<Record>, last: Record)
    requires AllValid(records) && last.Valid()
    ensures KeptOf(LogText(records, last), Any).None? <==>
      forall i :: 0 <= i < |records + [last]| ==> !(records + [last])[i].Whole?
  {
    LogIsRead(records, last, Any);
    NoneWhole(records + [last]);
  }

  lemma {:induction false} NoneWhole(records: seq<Record>)
    ensures LastOf(WrittenIn(records), Any).None? <==> forall i :: 0 <= i < |records| ==> !records[i].Whole?
  {
    LastOfExactly(WrittenIn(records), Any);
    forall i | 0 <= i < |records| ensures Meets(WrittenIn(records)[i], Any) <==> records[i].Whole? {
      assert WrittenIn(records)[i] == records[i].Written();
    }
  }

  // A stream of written lines --------------------------------------------------------------------

  predicate AllWritable(lines: seq<seq<Pair>>) {
    forall i :: 0 <= i < |lines| ==> Writable(lines[i])
  }

  /** What writing these lines one after the other leaves. */
  function Stream(lines: seq<seq<Pair>>): string {
    if lines == [] then "" else Stream(lines[..|lines| - 1]) + LineText(lines[|lines| - 1])
  }

  function Wholes(lines: seq<seq<Pair>>): (records: seq<Record>)
    ensures |records| == |lines| && forall i :: 0 <= i < |lines| ==> records[i] == Whole("", lines[i], "")
  {
    if lines == [] then [] else Wholes(lines[..|lines| - 1]) + [Whole("", lines[|lines| - 1], "")]
  }

  lemma WholesAreValid(lines: seq<seq<Pair>>)
    requires AllWritable(lines)
    ensures AllValid(Wholes(lines))
  {
    NoneInStart("");
  }

  lemma {:induction false} StreamIsTerminated(lines: seq<seq<Pair>>)
    requires AllWritable(lines)
    ensures AllValid(Wholes(lines)) && Stream(lines) == Terminated(Texts(Wholes(lines)))
  {
    WholesAreValid(lines);
    if lines == [] {
    } else {
      var n := |lines| - 1;
      StreamIsTerminated(lines[..n]);
      var front := Wholes(lines[..n]);
      assert Wholes(lines)[..n] == front;
      assert Wholes(lines)[n].Text() == Body(lines[n]);
      TerminatedLast(Texts(front), Body(lines[n]));
      Associates(Terminated(Texts(front)), Body(lines[n]), "\n");
    }
  }

  /** A stream cut at k is whole lines and the start of the next. */
  lemma {:induction false} CutStream(lines: seq<seq<Pair>>, k: nat) returns (m: nat, j: nat)
    requires k <= |Stream(lines)|
    ensures m <= |lines| && (if m == |lines| then j == 0 else j <= |Body(lines[m])|)
    ensures k == |Stream(lines[..m])| + j
    ensures Stream(lines)[..k] == Stream(lines[..m]) + if m == |lines| then "" else Body(lines[m])[..j]
  {
    if k == |Stream(lines)| {
      m, j := |lines|, 0;
      assert lines[..m] == lines;
    } else {
      var n := |lines| - 1;
      var front := Stream(lines[..n]);
      if k < |front| {
        m, j := CutStream(lines[..n], k);
        assert lines[..n][..m] == lines[..m] && Stream(lines)[..k] == front[..k];
      } else {
        m, j := n, k - |front|;
        assert Stream(lines)[..k] == front + Body(lines[n])[..j];
      }
    }
  }

  /** The record a stream ends in when line m is cut at j. */
  function Tail(lines: seq<seq<Pair>>, m: nat, j: nat): Record {
    if m >= |lines| then Other("")
    else if j == |Body(lines[m])| then Whole("", lines[m], "")
    else Torn("", lines[m], j)
  }

  lemma TailFacts(lines: seq<seq<Pair>>, m: nat, j: nat)
    requires AllWritable(lines) && m <= |lines| && (m < |lines| ==> j <= |Body(lines[m])|)
    ensures Tail(lines, m, j).Valid()
    ensures Tail(lines, m, j).Text() == if m == |lines| then "" else Body(lines[m])[..j]
  {
    NoneInStart("");
  }

  /** The lines whose last character before the newline is among the first k of the stream. */
  predicate WholeBy(lines: seq<seq<Pair>>, k: nat, m: nat) {
    && m <= |lines| && |Stream(lines[..m])| <= k + 1
    && (m < |lines| ==> k + 1 < |Stream(lines[..m + 1])|)
  }

  lemma CutIsLog(lines: seq<seq<Pair>>, k: nat) returns (m: nat, j: nat)
    requires AllWritable(lines) && k <= |Stream(lines)|
    ensures m <= |lines| && (if m == |lines| then j == 0 else j <= |Body(lines[m])|)
    ensures k == |Stream(lines[..m])| + j && AllValid(Wholes(lines[..m])) && Tail(lines, m, j).Valid()
    ensures Stream(lines)[..k] == LogText(Wholes(lines[..m]), Tail(lines, m, j))
  {
    m, j := CutStream(lines, k);
    StreamIsTerminated(lines[..m]);
    TailFacts(lines, m, j);
  }

  /** The last of m whole lines and what may be one more. */
  lemma LastWhole(lines: seq<seq<Pair>>, m: nat, last: Record, n: nat)
    requires m <= |lines| && n == (if last.Whole? then m + 1 else m)
    requires last.Whole? ==> m < |lines| && last.pairs == lines[m]
    ensures LastOf(WrittenIn(Wholes(lines[..m]) + [last]), Any)
         == if n == 0 then None else Some(LineOf(Body(lines[n - 1]), lines[n - 1]))
  {
    var whole := Wholes(lines[..m]);
    WrittenLast(whole, last);
    if !last.Whole? {
      LastOfNone(WrittenIn(whole), Any);
    }
  }

  /**
    A stream of lines that ends anywhere is read as its last line that is all
    there but perhaps for its newline, and as nothing when there is none.
   */
  lemma CutStreamIsRead(lines: seq<seq<Pair>>, k: nat) returns (n: nat)
    requires AllWritable(lines) && k <= |Stream(lines)|
    ensures WholeBy(lines, k, n)
    ensures KeptOf(Stream(lines)[..k], Any) == if n == 0 then None else Some(LineOf(Body(lines[n - 1]), lines[n - 1]))
  {
    var m, j := CutIsLog(lines, k);
    var last := Tail(lines, m, j);
    n := if last.Whole? then m + 1 else m;
    CountWhole(lines, k, m, j, n);
    LogIsRead(Wholes(lines[..m]), last, Any);
    LastWhole(lines, m, last, n);
  }

  lemma StreamIsRead(lines: seq<seq<Pair>>, last: seq<Pair>)
    requires AllWritable(lines) && Writable(last)
    ensures KeptOf(Stream(lines) + LineText(last), Any) == Some(LineOf(Body(last), last))
  {
    var all, n := lines + [last], |lines| + 1;
    assert all[..|lines|] == lines && all[..n] == all;
    StreamIsLog(all);
    LogIsRead(Wholes(all), Other(""), Any);
    LastWhole(all, n, Other(""), n);
  }

  lemma StreamIsLog(lines: seq<seq<Pair>>)
    requires AllWritable(lines)
    ensures AllValid(Wholes(lines)) && Other("").Valid() && Stream(lines) == LogText(Wholes(lines), Other(""))
  {
    StreamIsTerminated(lines);
    NoneInStart("");
  }

  lemma CountWhole(lines: seq<seq<Pair>>, k: nat, m: nat, j: nat, n: nat)
    requires m <= |lines| && (if m == |lines| then j == 0 else j <= |Body(lines[m])|)
    requires k == |Stream(lines[..m])| + j && n == if Tail(lines, m, j).Whole? then m + 1 else m
    ensures WholeBy(lines, k, n)
  {
    if m < |lines| {
      assert lines[..m + 1][..m] == lines[..m];
      if n == m + 1 < |lines| {
        assert lines[..n + 1][..n] == lines[..n];
      }
    }
  }

  /** Whatever was written before it, the last line of a stream gives back its source, prefix and values. */
  lemma StreamRecoversValues(lines: seq<seq<Pair>>, src: LineSrc, mode: LineMode, cpu: nat, t: nat, ncpu: nat,
                             value: (Key, nat) -> nat, k: Key)
    requires AllWritable(lines)
    ensures var kept := KeptOf(Stream(lines) + LineText(LinePairs(src, mode, cpu, t, ncpu, value)), Any);
            kept.Some? && Carries(kept.value, src, mode, cpu, t, Clamp(ncpu), value, k)
  {
    var pairs := LinePairs(src, mode, cpu, t, ncpu, value);
    LinePairsWritable(src, mode, cpu, t, ncpu, value);
    StreamIsRead(lines, pairs);
    LineCarries(Body(pairs), src, mode, cpu, t, Clamp(ncpu), value, k);
  }
}
