/**
  Draining a log ring: reassembling each message from its entries, with any
  entries missing, and the text finally printed.
 */
module LogDrain {
  import opened Basics
  import opened Utf8
  import opened LogMessages

  datatype LogLineStatus = Whole | TailLost | HeadLost

  datatype LogLine = LogLine(first: LogEntry, continuation: Option<LogEntry>, status: LogLineStatus)
  {
    function Entries(): seq<LogEntry> {
      [first] + OptionSeq(continuation)
    }

    /** The message text as written out, with marks where an entry is missing. */
    function Message(): seq<Byte>
      requires |first.message| == LOG_MSG_CAPACITY
      requires continuation.Some? ==> |continuation.value.message| == LOG_MSG_CAPACITY
    {
      (if status == HeadLost then LOST_HEAD_MARK else [])
      + first.Text()
      + (if continuation.Some? then continuation.value.Text() else [])
      + (if status == TailLost then LOST_TAIL_MARK else [])
    }
  }

  // "<lost>~" and "~<lost>"
  const LOST_HEAD_MARK: seq<Byte> := [60, 108, 111, 115, 116, 62, 126]
  const LOST_TAIL_MARK: seq<Byte> := [126, 60, 108, 111, 115, 116, 62]

  function OptionSeq(o: Option<LogEntry>): seq<LogEntry> {
    if o.Some? then [o.value] else []
  }

  // One message, end to end ------------------------------------------------------------

  /** The whole message fits its two pieces, cut at a character boundary. */
  predicate Fits(written: seq<Byte>) {
    |written| <= Floor(written, LOG_MSG_CAPACITY) + LOG_MSG_CAPACITY
  }

  /** The longest prefix both pieces hold with a byte spared for the mark, then the mark. */
  function OverflowText(msg: seq<Byte>): seq<Byte> {
    msg[..Floor(msg, Floor(msg, LOG_MSG_CAPACITY) + LOG_MSG_CAPACITY - 1)] + [LOG_OVERFLOW_MARK]
  }

  /** What a reader of the log sees of a message. */
  function Printed(written: seq<Byte>): seq<Byte> {
    if Fits(written) then written
    else OverflowText(written)
  }

  lemma PrintedWholeExactly(written: seq<Byte>)
    ensures Printed(written) == written <==> Fits(written)
  {
    if !Fits(written) {
      assert |Printed(written)| < |written|;
    }
  }

  function SplitText(split: LogSplit): seq<Byte> {
    split.head + if split.continuation.Some? then Bytes(split.continuation.value, split.overflow) else []
  }

  lemma SplitOfShort(msg: seq<Byte>)
    requires Valid(msg)
    ensures SplitText(SplitLogMessage(msg, false)) == Printed(msg)
  {
    if |msg| <= LOG_MSG_CAPACITY {
      FloorWhole(msg, LOG_MSG_CAPACITY);
    } else {
      SplitInTwo(msg);
    }
  }

  lemma SplitInTwo(msg: seq<Byte>)
    requires |msg| > LOG_MSG_CAPACITY
    ensures SplitText(SplitLogMessage(msg, false)) == Printed(msg)
  {
    if Fits(msg) {
      SplitFitting(msg);
    } else {
      TooLongOverflows(msg);
      SplitOverflowing(msg);
    }
  }

  lemma SplitFitting(msg: seq<Byte>)
    requires |msg| > LOG_MSG_CAPACITY && Fits(msg)
    ensures SplitText(SplitLogMessage(msg, false)) == msg
  {
    Halves(msg, Floor(msg, LOG_MSG_CAPACITY));
  }

  lemma Halves(msg: seq<Byte>, cut: nat)
    requires cut <= |msg|
    ensures msg[..cut] + msg[cut..] == msg
  {
  }

  lemma TooLongOverflows(msg: seq<Byte>)
    requires !Fits(msg)
    ensures SplitLogMessage(msg, false) == SplitLogMessage(msg, true)
  {
  }

  lemma SplitOverflowing(msg: seq<Byte>)
    ensures SplitText(SplitLogMessage(msg, true)) == OverflowText(msg)
  {
    var cut := Floor(msg, LOG_MSG_CAPACITY);
    FloorIsLongest(msg, LOG_MSG_CAPACITY);
    FloorPast(msg, cut, LOG_MSG_CAPACITY - 1);
    Regroup(msg, cut, Floor(msg, cut + LOG_MSG_CAPACITY - 1));
  }

  lemma SplitOfLong(written: seq<Byte>)
    requires Overflows(written)
    ensures SplitText(SplitLogMessage(Kept(written), true)) == Printed(written)
  {
    var msg := Kept(written);
    var cut := Floor(msg, LOG_MSG_CAPACITY);
    SplitOverflowing(msg);
    FloorOfFloor(written, LOG_CHAIN_CAPACITY, LOG_MSG_CAPACITY);
    FloorOfFloor(written, LOG_CHAIN_CAPACITY, cut + LOG_MSG_CAPACITY - 1);
    SameCut(written, |msg|, Floor(msg, cut + LOG_MSG_CAPACITY - 1));
  }

  lemma SameCut(written: seq<Byte>, kept: nat, end: nat)
    requires end <= kept <= |written|
    ensures written[..kept][..end] == written[..end]
  {
  }

  lemma Regroup(msg: seq<Byte>, cut: nat, end: nat)
    requires cut <= end <= |msg|
    ensures msg[..cut] + (msg[cut..][..end - cut] + [LOG_OVERFLOW_MARK]) == msg[..end] + [LOG_OVERFLOW_MARK]
  {
    assert msg[..end] == msg[..cut] + msg[cut..][..end - cut];
  }

  lemma SplitOfWritten(written: seq<Byte>)
    requires Valid(written)
    ensures SplitText(SplitLogMessage(Kept(written), Overflows(written))) == Printed(written)
  {
    if Overflows(written) {
      SplitOfLong(written);
    } else {
      FloorWhole(written, LOG_CHAIN_CAPACITY);
      assert Kept(written) == written;
      SplitOfShort(written);
    }
  }

  /** The line a message's entries make when none is lost. */
  function WholeLine(es: seq<LogEntry>): LogLine
    requires 1 <= |es| <= 2
  {
    LogLine(es[0], if |es| == 2 then Some(es[1]) else None, Whole)
  }

  lemma WholeMessage(line: LogLine, head: seq<Byte>, tail: seq<Byte>)
    requires |line.first.message| == LOG_MSG_CAPACITY && line.first.Text() == head && line.status == Whole
    requires match line.continuation
             case None => tail == []
             case Some(next) => |next.message| == LOG_MSG_CAPACITY && next.Text() == tail
    ensures line.Message() == head + tail
  {
  }

  lemma LineOfSplit(header: Header, split: LogSplit)
    requires FitsEntries(split)
    ensures WholeLine(SplitEntries(header, split)).Message() == SplitText(split)
    ensures forall e :: e in SplitEntries(header, split) ==> Valid(e.Text())
  {
    match split.continuation
    case None =>
      TextRoundTrip(header, 0, split.head, false);
      WholeMessage(WholeLine(SplitEntries(header, split)), split.head, []);
    case Some(rest) =>
      TextRoundTrip(header, LOG_FLAG_CONTINUED, split.head, false);
      TextRoundTrip(header, LOG_FLAG_CONTINUATION, rest, split.overflow);
      WholeMessage(WholeLine(SplitEntries(header, split)), split.head, Bytes(rest, split.overflow));
  }

  /**
    Formatting, splitting, joining and printing: the message itself when its
    pieces fit, otherwise a character-boundary prefix and the overflow mark.
    Each entry's text is valid UTF-8.
   */
  lemma PrintRoundTrip(header: Header, written: seq<Byte>)
    requires Valid(written)
    ensures WholeLine(EntriesOf(header, written)).Message() == Printed(written)
    ensures forall e :: e in EntriesOf(header, written) ==> Valid(e.Text())
  {
    KeptIsValid(written);
    SplitFits(Kept(written), Overflows(written));
    SplitOfWritten(written);
    LineOfSplit(header, SplitLogMessage(Kept(written), Overflows(written)));
  }

  // The drain -----------------------------------------------------------------------------

  /** The entry after a head continues it. */
  predicate Joins(head: LogEntry, next: LogEntry) {
    next.IsContinuation() && next.header.timestamp == head.header.timestamp && next.header.coreId == head.header.coreId
  }

  /** The line that the entries still to be read begin with. */
  function NextLine(es: seq<LogEntry>): (line: LogLine)
    requires es != []
    ensures line.Entries() <= es
  {
    if es[0].IsContinuation() then LogLine(es[0], None, HeadLost)
    else if !es[0].IsContinued() then LogLine(es[0], None, Whole)
    else if |es| > 1 && Joins(es[0], es[1]) then
      LogLine(es[0], Some(es[1]), Whole)
    else LogLine(es[0], None, TailLost)
  }

  /** One consumer of a ring. Popping takes the ring's front entry. */
  class Drain {
    var pending: Option<LogEntry>
    var ring: seq<LogEntry>

    function Unread(): seq<LogEntry>
      reads this
    {
      OptionSeq(pending) + ring
    }

    constructor (entries: seq<LogEntry>)
      ensures Unread() == entries && pending.None?
    {
      pending, ring := None, entries;
    }

    method Pop() returns (e: Option<LogEntry>)
      modifies this`ring
      ensures if old(ring) == [] then e.None? && ring == [] else e.Some? && old(ring) == [e.value] + ring
    {
      if ring == [] {
        return None;
      }
      e, ring := Some(ring[0]), ring[1..];
    }

    /** Takes the next line's entries, and no others, from what is unread. */
    method NextLogLine() returns (line: Option<LogLine>)
      modifies this
      ensures line.None? <==> old(Unread()) == []
      ensures line.None? ==> Unread() == []
      ensures line.Some? ==> line.value == NextLine(old(Unread())) && old(Unread()) == line.value.Entries() + Unread()
    {
      var first;
      if pending.Some? {
        first := pending.value;
        pending := None;
      } else {
        var popped := Pop();
        if popped.None? {
          return None;
        }
        first := popped.value;
      }
      assert old(Unread()) == [first] + ring;
      var found := LineFrom(first);
      line := Some(found);
    }

    method LineFrom(first: LogEntry) returns (line: LogLine)
      requires pending.None?
      modifies this
      ensures line == NextLine([first] + old(ring)) && [first] + old(ring) == line.Entries() + Unread()
    {
      var status;
      if first.IsContinuation() {
        status := HeadLost;
      } else if !first.IsContinued() {
        status := Whole;
      } else {
        var next := Pop();
        if next.Some? && Joins(first, next.value) {
          return LogLine(first, next, Whole);
        }
        pending := next;
        status := TailLost;
      }
      line := LogLine(first, None, status);
    }

    /** Calls until nothing is left. */
    method All() returns (lines: seq<LogLine>)
      modifies this
      ensures Unread() == [] && lines == Lines(old(Unread()))
    {
      lines := [];
      ghost var all := Unread();
      var done := false;
      while !done
        invariant Lines(all) == lines + Lines(Unread())
        invariant done ==> Unread() == []
        decreases !done, |Unread()|
      {
        ghost var unread := Unread();
        var line := NextLogLine();
        match line
        case None =>
          done := true;
        case Some(l) =>
          LinesFrom(unread, Unread());
          AppendLine(lines, l, Lines(Unread()));
          lines := lines + [l];
      }
    }
  }

  lemma AppendLine(lines: seq<LogLine>, line: LogLine, rest: seq<LogLine>)
    ensures lines + ([line] + rest) == lines + [line] + rest
  {
  }

  function Lines(es: seq<LogEntry>): seq<LogLine> {
    if es == [] then []
    else [NextLine(es)] + Lines(es[|NextLine(es).Entries()|..])
  }

  lemma LinesFrom(es: seq<LogEntry>, rest: seq<LogEntry>)
    requires es != [] && es == NextLine(es).Entries() + rest
    ensures Lines(es) == [NextLine(es)] + Lines(rest) && |rest| < |es|
  {
    assert es[|NextLine(es).Entries()|..] == rest;
  }

  function Flatten(lines: seq<LogLine>): seq<LogEntry> {
    if lines == [] then [] else lines[0].Entries() + Flatten(lines[1..])
  }

  /** Every entry read is in exactly one line, in ring order. */
  lemma {:induction false} LinesPartitionEntries(es: seq<LogEntry>)
    ensures Flatten(Lines(es)) == es
    decreases |es|
  {
    if es == [] {
    } else {
      var line := NextLine(es);
      LinesPartitionEntries(es[|line.Entries()|..]);
      assert Lines(es)[1..] == Lines(es[|line.Entries()|..]);
      assert es == line.Entries() + es[|line.Entries()|..];
    }
  }

  // Any entries lost --------------------------------------------------------------------------

  datatype Msg = Msg(header: Header, written: seq<Byte>)

  /** Which of a message's entries the drain reads; `tail` matters only when there is one. */
  datatype Keep = Keep(head: bool, tail: bool)

  function Survivors(m: Msg, keep: Keep): seq<LogEntry> {
    var es := EntriesOf(m.header, m.written);
    (if keep.head then [es[0]] else []) + (if keep.tail && |es| == 2 then [es[1]] else [])
  }

  /** The lines a message should yield when exactly those entries are read. */
  function ExpectedLines(m: Msg, keep: Keep): seq<LogLine> {
    var es := EntriesOf(m.header, m.written);
    var tail := keep.tail && |es| == 2;
    if keep.head && tail then [LogLine(es[0], Some(es[1]), Whole)]
    else if keep.head then [LogLine(es[0], None, if |es| == 1 then Whole else TailLost)]
    else if tail then [LogLine(es[1], None, HeadLost)]
    else []
  }

  function Stream(ms: seq<Msg>, keeps: seq<Keep>): seq<LogEntry>
    requires |ms| == |keeps|
  {
    if ms == [] then [] else Survivors(ms[0], keeps[0]) + Stream(ms[1..], keeps[1..])
  }

  function ExpectedStream(ms: seq<Msg>, keeps: seq<Keep>): seq<LogLine>
    requires |ms| == |keeps|
  {
    if ms == [] then [] else ExpectedLines(ms[0], keeps[0]) + ExpectedStream(ms[1..], keeps[1..])
  }

  predicate SameStamp(a: Header, b: Header) {
    a.timestamp == b.timestamp && a.coreId == b.coreId
  }

  predicate UniqueStamps(ms: seq<Msg>) {
    forall i, j :: 0 <= i < j < |ms| ==> !SameStamp(ms[i].header, ms[j].header)
  }

  lemma EntryFlags(m: Msg)
    ensures var es := EntriesOf(m.header, m.written);
      && !es[0].IsContinuation() && (es[0].IsContinued() <==> |es| == 2) && es[0].header == m.header
      && (|es| == 2 ==> es[1].IsContinuation() && es[1].header == m.header)
  {
  }

  /** Only the first of a message's two entries is read. */
  predicate LoneHead(m: Msg, keep: Keep) {
    keep.head && !keep.tail && |EntriesOf(m.header, m.written)| == 2
  }

  /** Only the second of a message's two entries is read. */
  predicate LoneTail(m: Msg, keep: Keep) {
    !keep.head && keep.tail && |EntriesOf(m.header, m.written)| == 2
  }

  /** A head whose tail was lost is followed, among the entries read, by a tail with its stamp whose head was lost. */
  predicate FalseJoin(ms: seq<Msg>, keeps: seq<Keep>, i: nat, j: nat)
    requires |ms| == |keeps|
  {
    && i < j < |ms|
    && LoneHead(ms[i], keeps[i]) && LoneTail(ms[j], keeps[j])
    && SameStamp(ms[i].header, ms[j].header)
    && forall k :: i < k < j ==> Survivors(ms[k], keeps[k]) == []
  }

  ghost predicate HasFalseJoin(ms: seq<Msg>, keeps: seq<Keep>)
    requires |ms| == |keeps|
  {
    exists i: nat, j: nat :: FalseJoin(ms, keeps, i, j)
  }

  lemma FirstEntry(m: Msg, keep: Keep)
    requires Survivors(m, keep) != []
    ensures Survivors(m, keep)[0].header == m.header
    ensures Survivors(m, keep)[0].IsContinuation() <==> LoneTail(m, keep)
  {
    EntryFlags(m);
  }

  // The first entry of a stream ------------------------------------------------------------

  function Flat<T>(parts: seq<seq<T>>): seq<T> {
    if parts == [] then [] else parts[0] + Flat(parts[1..])
  }

  lemma {:induction false} FlatFirst<T>(parts: seq<seq<T>>) returns (j: nat)
    requires Flat(parts) != []
    ensures j < |parts| && parts[j] != [] && Flat(parts)[0] == parts[j][0]
    ensures forall k :: 0 <= k < j ==> parts[k] == []
  {
    if parts[0] != [] {
      j := 0;
    } else {
      assert Flat(parts) == Flat(parts[1..]);
      var i := FlatFirst(parts[1..]);
      j := i + 1;
      forall k | 0 < k < j ensures parts[k] == [] {
        assert parts[k] == parts[1..][k - 1];
      }
    }
  }

  lemma {:induction false} FlatEmpty<T>(parts: seq<seq<T>>, k: nat)
    requires Flat(parts) == [] && k < |parts|
    ensures parts[k] == []
    decreases k
  {
    if k == 0 {
    } else {
      FlatEmpty(parts[1..], k - 1);
    }
  }

  /** What is read of each message. */
  function SurvivorsOf(ms: seq<Msg>, keeps: seq<Keep>): (parts: seq<seq<LogEntry>>)
    requires |ms| == |keeps|
    ensures |parts| == |ms|
  {
    seq(|ms|, i requires 0 <= i < |ms| => Survivors(ms[i], keeps[i]))
  }

  lemma {:induction false} StreamIsFlat(ms: seq<Msg>, keeps: seq<Keep>)
    requires |ms| == |keeps|
    ensures Stream(ms, keeps) == Flat(SurvivorsOf(ms, keeps))
    decreases |ms|
  {
    if ms == [] {
    } else {
      StreamIsFlat(ms[1..], keeps[1..]);
      assert SurvivorsOf(ms, keeps)[1..] == SurvivorsOf(ms[1..], keeps[1..]);
    }
  }

  lemma NothingSurvives(ms: seq<Msg>, keeps: seq<Keep>, k: nat)
    requires |ms| == |keeps| && Stream(ms, keeps) == [] && k < |ms|
    ensures Survivors(ms[k], keeps[k]) == []
  {
    StreamIsFlat(ms, keeps);
    FlatEmpty(SurvivorsOf(ms, keeps), k);
  }

  lemma NothingToJoin(ms: seq<Msg>, keeps: seq<Keep>, j: nat)
    requires |ms| == |keeps| && ms != [] && Stream(ms[1..], keeps[1..]) == []
    ensures !FalseJoin(ms, keeps, 0, j)
  {
    if FalseJoin(ms, keeps, 0, j) {
      SurvivesTail(ms[j], keeps[j]);
      NothingSurvives(ms[1..], keeps[1..], j - 1);
    }
  }

  /** Message j is the next one, after message 0, of which anything is read. */
  predicate NextRead(ms: seq<Msg>, keeps: seq<Keep>, j: nat)
    requires |ms| == |keeps|
  {
    0 < j < |ms| && Survivors(ms[j], keeps[j]) != [] && forall k :: 0 < k < j ==> Survivors(ms[k], keeps[k]) == []
  }

  lemma NextSurvivor(ms: seq<Msg>, keeps: seq<Keep>) returns (j: nat)
    requires |ms| == |keeps| && ms != [] && Stream(ms[1..], keeps[1..]) != []
    ensures NextRead(ms, keeps, j) && Stream(ms[1..], keeps[1..])[0] == Survivors(ms[j], keeps[j])[0]
  {
    var parts := SurvivorsOf(ms, keeps);
    StreamIsFlat(ms[1..], keeps[1..]);
    assert parts[1..] == SurvivorsOf(ms[1..], keeps[1..]);
    j := NextPart(parts);
    forall k | 0 < k < j ensures Survivors(ms[k], keeps[k]) == [] {
      assert parts[k] == [];
    }
  }

  lemma NextPart<T>(parts: seq<seq<T>>) returns (j: nat)
    requires parts != [] && Flat(parts[1..]) != []
    ensures 0 < j < |parts| && parts[j] != [] && Flat(parts[1..])[0] == parts[j][0]
    ensures forall k :: 0 < k < j ==> parts[k] == []
  {
    var i := FlatFirst(parts[1..]);
    j := i + 1;
    forall k | 0 < k < j ensures parts[k] == [] {
      assert parts[k] == parts[1..][k - 1];
    }
  }

  lemma JoinsNext(ms: seq<Msg>, keeps: seq<Keep>, j: nat)
    requires |ms| == |keeps| && ms != [] && LoneHead(ms[0], keeps[0]) && NextRead(ms, keeps, j)
    ensures Joins(EntriesOf(ms[0].header, ms[0].written)[0], Survivors(ms[j], keeps[j])[0])
       <==> FalseJoin(ms, keeps, 0, j)
  {
    EntryFlags(ms[0]);
    FirstEntry(ms[j], keeps[j]);
  }

  lemma OnlyNextJoins(ms: seq<Msg>, keeps: seq<Keep>, i: nat, j: nat)
    requires |ms| == |keeps| && NextRead(ms, keeps, j) && FalseJoin(ms, keeps, 0, i)
    ensures i == j
  {
    SurvivesTail(ms[i], keeps[i]);
  }

  /** The stream's first entry is a tail the given stamp would join, exactly when a false join starts before it. */
  lemma JoinsNextExactly(ms: seq<Msg>, keeps: seq<Keep>)
    requires |ms| == |keeps| && ms != [] && LoneHead(ms[0], keeps[0])
    ensures var rest := Stream(ms[1..], keeps[1..]);
      rest != [] && Joins(EntriesOf(ms[0].header, ms[0].written)[0], rest[0])
      <==> exists j: nat :: FalseJoin(ms, keeps, 0, j)
  {
    if Stream(ms[1..], keeps[1..]) == [] {
      forall j: nat ensures !FalseJoin(ms, keeps, 0, j) { NothingToJoin(ms, keeps, j); }
    } else {
      var j := NextSurvivor(ms, keeps);
      JoinsNext(ms, keeps, j);
      forall i: nat | FalseJoin(ms, keeps, 0, i) ensures i == j { OnlyNextJoins(ms, keeps, i, j); }
    }
  }

  lemma SurvivesTail(m: Msg, keep: Keep)
    requires LoneTail(m, keep)
    ensures Survivors(m, keep) != []
  {
  }

  lemma FalseJoinFromRest(ms: seq<Msg>, keeps: seq<Keep>)
    requires |ms| == |keeps| && ms != []
    ensures HasFalseJoin(ms, keeps)
        <==> HasFalseJoin(ms[1..], keeps[1..]) || exists j: nat :: FalseJoin(ms, keeps, 0, j)
  {
    var ns, ks := ms[1..], keeps[1..];
    forall i: nat, j: nat ensures FalseJoin(ns, ks, i, j) <==> FalseJoin(ms, keeps, i + 1, j + 1) {
      ShiftedJoin(ms, keeps, i, j);
    }
    if i: nat, j: nat :| FalseJoin(ms, keeps, i, j) {
      if i > 0 {
        assert FalseJoin(ns, ks, i - 1, j - 1);
      }
    }
  }

  lemma ShiftedJoin(ms: seq<Msg>, keeps: seq<Keep>, i: nat, j: nat)
    requires |ms| == |keeps| && ms != []
    ensures FalseJoin(ms[1..], keeps[1..], i, j) <==> FalseJoin(ms, keeps, i + 1, j + 1)
  {
    var ns, ks := ms[1..], keeps[1..];
    assert forall k :: 0 <= k < |ns| ==> ns[k] == ms[k + 1] && ks[k] == keeps[k + 1];
    if FalseJoin(ns, ks, i, j) {
      forall k | i + 1 < k < j + 1 ensures Survivors(ms[k], keeps[k]) == [] {
        assert Survivors(ns[k - 1], ks[k - 1]) == [];
      }
    }
  }

  /** One message's surviving entries make its own lines, unless its lone head joins the entry after it. */
  lemma LinesOfOne(m: Msg, keep: Keep, rest: seq<LogEntry>)
    requires !(LoneHead(m, keep) && rest != [] && Joins(EntriesOf(m.header, m.written)[0], rest[0]))
    ensures Lines(Survivors(m, keep) + rest) == ExpectedLines(m, keep) + Lines(rest)
  {
    EntryFlags(m);
    var own := Survivors(m, keep);
    if own == [] {
      assert own + rest == rest;
    } else {
      var line := NextLine(own + rest);
      assert [line] == ExpectedLines(m, keep);
      assert (own + rest)[|line.Entries()|..] == rest;
    }
  }

  lemma JoinedWrongly(m: Msg, keep: Keep, rest: seq<LogEntry>, expected: seq<LogLine>)
    requires LoneHead(m, keep) && rest != [] && Joins(EntriesOf(m.header, m.written)[0], rest[0])
    ensures Lines(Survivors(m, keep) + rest) != ExpectedLines(m, keep) + expected
  {
    EntryFlags(m);
    var es := Survivors(m, keep) + rest;
    assert es[0] == EntriesOf(m.header, m.written)[0] && es[1] == rest[0];
    assert Lines(es)[0] == NextLine(es);
    assert (ExpectedLines(m, keep) + expected)[0] == ExpectedLines(m, keep)[0];
  }

  lemma SameTail(own: seq<LogLine>, a: seq<LogLine>, b: seq<LogLine>)
    ensures own + a == own + b <==> a == b
  {
    assert (own + a)[|own|..] == a && (own + b)[|own|..] == b;
  }

  /**
    Whatever entries are lost, every message yields exactly its own lines,
    joined when both entries are read and marked when only one is, if and only
    if no lone head is followed by a lone tail with its stamp.
   */
  lemma {:induction false} LossyDrainExactly(ms: seq<Msg>, keeps: seq<Keep>)
    requires |ms| == |keeps|
    ensures Lines(Stream(ms, keeps)) == ExpectedStream(ms, keeps) <==> !HasFalseJoin(ms, keeps)
    decreases |ms|
  {
    if ms == [] {
      assert Stream(ms, keeps) == [];
    } else {
      var rest, expected := Stream(ms[1..], keeps[1..]), ExpectedStream(ms[1..], keeps[1..]);
      LossyDrainExactly(ms[1..], keeps[1..]);
      FalseJoinFromRest(ms, keeps);
      if LoneHead(ms[0], keeps[0]) {
        JoinsNextExactly(ms, keeps);
      }
      if LoneHead(ms[0], keeps[0]) && rest != [] && Joins(EntriesOf(ms[0].header, ms[0].written)[0], rest[0]) {
        JoinedWrongly(ms[0], keeps[0], rest, expected);
      } else {
        LinesOfOne(ms[0], keeps[0], rest);
        SameTail(ExpectedLines(ms[0], keeps[0]), Lines(rest), expected);
      }
    }
  }

  /** So no line joins two messages when each message has a (timestamp, core) of its own. */
  lemma LossyDrain(ms: seq<Msg>, keeps: seq<Keep>)
    requires |ms| == |keeps| && UniqueStamps(ms)
    ensures Lines(Stream(ms, keeps)) == ExpectedStream(ms, keeps)
  {
    LossyDrainExactly(ms, keeps);
  }

  /** Without distinct stamps a lost tail and a lost head are read as one message. */
  lemma SharedStampJoinsTwoMessages(a: Msg, b: Msg)
    requires SameStamp(a.header, b.header)
    requires |EntriesOf(a.header, a.written)| == 2 && |EntriesOf(b.header, b.written)| == 2
    ensures Lines(Stream([a, b], [Keep(true, false), Keep(false, true)]))
         == [LogLine(EntriesOf(a.header, a.written)[0], Some(EntriesOf(b.header, b.written)[1]), Whole)]
  {
    EntryFlags(a);
    EntryFlags(b);
    var head, tail := EntriesOf(a.header, a.written)[0], EntriesOf(b.header, b.written)[1];
    assert [a, b][1..] == [b] && [Keep(true, false), Keep(false, true)][1..] == [Keep(false, true)];
    assert Stream([b], [Keep(false, true)]) == [tail];
    assert Stream([a, b], [Keep(true, false), Keep(false, true)]) == [head, tail];
    assert [head, tail][2..] == [];
  }

  function RingOf(ms: seq<Msg>): seq<LogEntry> {
    if ms == [] then [] else EntriesOf(ms[0].header, ms[0].written) + RingOf(ms[1..])
  }

  lemma {:induction false} RingLines(ms: seq<Msg>)
    ensures |Lines(RingOf(ms))| == |ms|
    ensures forall i :: 0 <= i < |ms| ==> Lines(RingOf(ms))[i] == WholeLine(EntriesOf(ms[i].header, ms[i].written))
  {
    var keeps := seq(|ms|, _ => Keep(true, true));
    KeepAll(ms, keeps);
    LossyDrainExactly(ms, keeps);
  }

  lemma {:induction false} KeepAll(ms: seq<Msg>, keeps: seq<Keep>)
    requires |ms| == |keeps| && forall i :: 0 <= i < |ms| ==> keeps[i] == Keep(true, true)
    ensures Stream(ms, keeps) == RingOf(ms)
    ensures |ExpectedStream(ms, keeps)| == |ms|
    ensures forall i ::
      0 <= i < |ms| ==> ExpectedStream(ms, keeps)[i] == WholeLine(EntriesOf(ms[i].header, ms[i].written))
    decreases |ms|
  {
    if ms == [] {
    } else {
      KeepAll(ms[1..], keeps[1..]);
      var es := EntriesOf(ms[0].header, ms[0].written);
      assert Survivors(ms[0], keeps[0]) == es;
      forall i | 0 <= i < |ms|
        ensures ExpectedStream(ms, keeps)[i] == WholeLine(EntriesOf(ms[i].header, ms[i].written))
      {
        if i > 0 {
          assert ExpectedStream(ms, keeps)[i] == ExpectedStream(ms[1..], keeps[1..])[i - 1];
        }
      }
    }
  }

  /** A ring that lost nothing prints every message, in order, each from a whole line, whatever the stamps. */
  lemma LossFreeRingPrintsAll(ms: seq<Msg>)
    requires forall i :: 0 <= i < |ms| ==> Valid(ms[i].written)
    ensures |Lines(RingOf(ms))| == |ms|
    ensures forall i :: 0 <= i < |ms| ==>
      var line := Lines(RingOf(ms))[i];
      && line.status == Whole
      && line == WholeLine(EntriesOf(ms[i].header, ms[i].written))
      && WholeLine(EntriesOf(ms[i].header, ms[i].written)).Message() == Printed(ms[i].written)
  {
    RingLines(ms);
    forall i | 0 <= i < |ms|
      ensures WholeLine(EntriesOf(ms[i].header, ms[i].written)).Message() == Printed(ms[i].written)
    {
      PrintRoundTrip(ms[i].header, ms[i].written);
    }
  }
}
