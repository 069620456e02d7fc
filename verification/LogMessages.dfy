/**
  Kernel log messages: the formatting buffer, the layout of one message over
  a head entry and an optional continuation, and the text read back.
 */
module LogMessages {
  import opened Basics
  import opened Utf8

  const LOG_MSG_CAPACITY: nat := 48
  const LOG_CHAIN_CAPACITY: nat := 96
  const LOG_FLAG_CONTINUED: Byte := 1
  const LOG_FLAG_CONTINUATION: Byte := 2
  const LOG_OVERFLOW_MARK: Byte := 0x7E

  datatype LogSplit = LogSplit(head: seq<Byte>, continuation: Option<seq<Byte>>, overflow: bool)

  datatype Header = Header(timestamp: nat, coreId: nat, level: nat, subsystem: nat)

  datatype LogEntry = LogEntry(header: Header, flags: Byte, msgLen: Byte, message: seq<Byte>)
  {
    predicate IsContinued() {
      flags % 2 == 1
    }

    predicate IsContinuation() {
      flags / 2 % 2 == 1
    }

    /** The entry's text, cut before the first byte that is not valid UTF-8. */
    function Text(): seq<Byte>
      requires |message| == LOG_MSG_CAPACITY
    {
      var bytes := message[..if msgLen < LOG_MSG_CAPACITY then msgLen else LOG_MSG_CAPACITY];
      if Valid(bytes) then bytes else bytes[..ValidUpTo(bytes)]
    }
  }

  /** Whatever bytes an entry holds, its text is valid UTF-8, and the longest such. */
  lemma TextIsValid(e: LogEntry)
    requires |e.message| == LOG_MSG_CAPACITY
    ensures Valid(e.Text()) && e.Text() <= e.message
    ensures forall j :: |e.Text()| < j <= LOG_MSG_CAPACITY && j <= e.msgLen ==> !Valid(e.message[..j])
  {
    var n := if e.msgLen < LOG_MSG_CAPACITY then e.msgLen else LOG_MSG_CAPACITY;
    var bytes := e.message[..n];
    ValidUpToIsLongest(bytes);
    forall j | |e.Text()| < j <= LOG_MSG_CAPACITY && j <= e.msgLen ensures !Valid(e.message[..j]) {
      assert bytes[..j] == e.message[..j];
    }
  }

  // The formatting buffer ------------------------------------------------------------

  /** The part of a message the buffer keeps. */
  function Kept(written: seq<Byte>): seq<Byte> {
    written[..Floor(written, LOG_CHAIN_CAPACITY)]
  }

  predicate Overflows(written: seq<Byte>) {
    |written| > LOG_CHAIN_CAPACITY
  }

  lemma PrefixOfConcat(a: seq<Byte>, b: seq<Byte>, n: nat)
    requires n <= |b|
    ensures (a + b)[..|a| + n] == a + b[..n]
  {
  }

  lemma KeepsMore(written: seq<Byte>, s: seq<Byte>, n: nat)
    requires Valid(written) && Valid(s) && !Overflows(written)
    requires n == Floor(s, LOG_CHAIN_CAPACITY - |written|)
    ensures Kept(written) == written
    ensures Kept(written + s) == written + s[..n]
    ensures Overflows(written + s) <==> n < |s|
  {
    FloorWhole(written, LOG_CHAIN_CAPACITY);
    FloorAfter(written, s, LOG_CHAIN_CAPACITY - |written|);
    PrefixOfConcat(written, s, n);
    if |written + s| <= LOG_CHAIN_CAPACITY {
      FloorWhole(s, LOG_CHAIN_CAPACITY - |written|);
    }
  }

  lemma KeepsNoMore(written: seq<Byte>, s: seq<Byte>)
    requires Overflows(written)
    ensures Kept(written + s) == Kept(written) && Overflows(written + s)
  {
    FloorOfExtension(written, s, LOG_CHAIN_CAPACITY);
    var end := Floor(written, LOG_CHAIN_CAPACITY);
    assert (written + s)[..end] == written[..end];
  }

  function Concat(parts: seq<seq<Byte>>): seq<Byte> {
    if parts == [] then [] else parts[0] + Concat(parts[1..])
  }

  lemma {:induction false} ConcatSnoc(parts: seq<seq<Byte>>, n: nat)
    requires n < |parts|
    ensures Concat(parts[..n + 1]) == Concat(parts[..n]) + parts[n]
  {
    if n == 0 {
      assert parts[..1] == [parts[0]] && parts[..0] == [];
      assert Concat([parts[0]][1..]) == [];
    } else {
      ConcatSnoc(parts[1..], n - 1);
      assert parts[..n + 1][1..] == parts[1..][..n] && parts[..n][1..] == parts[1..][..n - 1];
    }
  }

  class LogMessageBuf {
    const buf: array<Byte>
    var len: nat
    var truncated: bool

    /** The buffer is as it should be after `written` has been written to it. */
    ghost predicate Holds(written: seq<Byte>)
      reads this, buf
    {
      && buf.Length == LOG_CHAIN_CAPACITY && len <= buf.Length
      && Valid(written)
      && buf[..len] == Kept(written)
      && truncated == Overflows(written)
    }

    constructor ()
      ensures Holds([]) && fresh(buf)
    {
      buf := new Byte[LOG_CHAIN_CAPACITY](_ => 0);
      len, truncated := 0, false;
    }

    method WriteStr(s: seq<Byte>, ghost written: seq<Byte>)
      requires Valid(s) && Holds(written)
      modifies this, buf
      ensures Holds(written + s)
    {
      ValidConcat(written, s);
      if truncated {
        KeepsNoMore(written, s);
        return;
      }
      FloorWhole(written, LOG_CHAIN_CAPACITY);
      var n := FloorCharBoundary(s, LOG_CHAIN_CAPACITY - len);
      KeepsMore(written, s, n);
      Append(s[..n]);
      if n < |s| {
        truncated := true;
      }
    }

    method Append(s: seq<Byte>)
      requires len + |s| <= buf.Length
      modifies this`len, buf
      ensures len == old(len) + |s| && buf[..len] == old(buf[..len]) + s
    {
      var at := len;
      forall i | 0 <= i < |s| {
        buf[at + i] := s[i];
      }
      len := len + |s|;
    }

    /** Formatting a message is some sequence of string writes. */
    method Format(parts: seq<seq<Byte>>)
      requires Holds([]) && forall i :: 0 <= i < |parts| ==> Valid(parts[i])
      modifies this, buf
      ensures Holds(Concat(parts))
    {
      for i := 0 to |parts|
        invariant Holds(Concat(parts[..i]))
      {
        WriteStr(parts[i], Concat(parts[..i]));
        ConcatSnoc(parts, i);
      }
      assert parts[..|parts|] == parts;
    }

    method Entries(header: Header, ghost written: seq<Byte>) returns (head: LogEntry, continuation: Option<LogEntry>)
      requires Holds(written)
      ensures [head] + (if continuation.Some? then [continuation.value] else []) == EntriesOf(header, written)
    {
      KeptIsValid(written);
      var split := SplitLogMessage(buf[..len], truncated);
      SplitFits(buf[..len], truncated);
      match split.continuation
      case None =>
        return WithText(header, 0, split.head, false), None;
      case Some(rest) =>
        return WithText(header, LOG_FLAG_CONTINUED, split.head, false),
               Some(WithText(header, LOG_FLAG_CONTINUATION, rest, split.overflow));
    }
  }

  // Layout over entries -----------------------------------------------------------------

  function SplitLogMessage(msg: seq<Byte>, truncated: bool): LogSplit {
    if !truncated && |msg| <= LOG_MSG_CAPACITY then
      LogSplit(msg, None, false)
    else
      var cut := Floor(msg, LOG_MSG_CAPACITY);
      var head, rest := msg[..cut], msg[cut..];
      if !truncated && |rest| <= LOG_MSG_CAPACITY then
        LogSplit(head, Some(rest), false)
      else
        LogSplit(head, Some(rest[..Floor(rest, LOG_MSG_CAPACITY - 1)]), true)
  }

  lemma SplitFits(msg: seq<Byte>, truncated: bool)
    requires Valid(msg)
    ensures FitsEntries(SplitLogMessage(msg, truncated))
  {
    var cut := Floor(msg, LOG_MSG_CAPACITY);
    FloorIsLongest(msg, LOG_MSG_CAPACITY);
    BoundaryCuts(msg, cut);
    FloorIsLongest(msg[cut..], LOG_MSG_CAPACITY - 1);
  }

  function Bytes(text: seq<Byte>, mark: bool): seq<Byte> {
    if mark then text + [LOG_OVERFLOW_MARK] else text
  }

  function WithText(header: Header, flags: Byte, text: seq<Byte>, mark: bool): (e: LogEntry)
    requires |Bytes(text, mark)| <= LOG_MSG_CAPACITY
    ensures |e.message| == LOG_MSG_CAPACITY
  {
    var bytes := Bytes(text, mark);
    LogEntry(header, flags, |bytes|, bytes + seq(LOG_MSG_CAPACITY - |bytes|, _ => 0))
  }

  lemma TextRoundTrip(header: Header, flags: Byte, text: seq<Byte>, mark: bool)
    requires Valid(text) && |Bytes(text, mark)| <= LOG_MSG_CAPACITY
    ensures WithText(header, flags, text, mark).Text() == Bytes(text, mark)
    ensures Valid(Bytes(text, mark))
  {
    var bytes := Bytes(text, mark);
    var e := WithText(header, flags, text, mark);
    assert e.message[..|bytes|] == bytes;
    if mark {
      assert CharLen([LOG_OVERFLOW_MARK]) == 1;
      assert [LOG_OVERFLOW_MARK][1..] == [];
      ValidConcat(text, [LOG_OVERFLOW_MARK]);
    }
  }

  lemma KeptIsValid(written: seq<Byte>)
    ensures Valid(Kept(written))
  {
    FloorIsLongest(written, LOG_CHAIN_CAPACITY);
  }

  /** Each piece of a split is valid text that fits its entry. */
  predicate FitsEntries(split: LogSplit) {
    && |split.head| <= LOG_MSG_CAPACITY && Valid(split.head)
    && (split.continuation.Some? ==>
         Valid(split.continuation.value) && |Bytes(split.continuation.value, split.overflow)| <= LOG_MSG_CAPACITY)
  }

  function SplitEntries(header: Header, split: LogSplit): (es: seq<LogEntry>)
    requires FitsEntries(split)
    ensures 1 <= |es| <= 2
  {
    match split.continuation
    case None => [WithText(header, 0, split.head, false)]
    case Some(rest) =>
      [WithText(header, LOG_FLAG_CONTINUED, split.head, false),
       WithText(header, LOG_FLAG_CONTINUATION, rest, split.overflow)]
  }

  /** The ring entries of one message, in ring order. */
  function EntriesOf(header: Header, written: seq<Byte>): (es: seq<LogEntry>)
    ensures 1 <= |es| <= 2
  {
    KeptIsValid(written);
    SplitFits(Kept(written), Overflows(written));
    SplitEntries(header, SplitLogMessage(Kept(written), Overflows(written)))
  }
}
