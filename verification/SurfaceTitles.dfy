/**
  Surface titles: cutting a byte string to 64 bytes without splitting a UTF-8
  character, on valid input and on any other.
 */
module SurfaceTitles {
  import opened Basics
  import opened Bits
  import opened Utf8

  const SURFACE_TITLE_MAX: nat := 64

  datatype SurfaceTitle = SurfaceTitle(bytes: seq<Byte>, len: nat)

  /** Masking off the low k bits of a byte. */
  lemma HighBits(b: Byte, k: nat, p: nat, n: nat)
    requires k <= n == 8 && p == Pow2(k)
    ensures p <= 256 && And(b, 256 - p) == b - b % p
  {
    Pow2Monotone(k, n);
    Pow2Add(4, 4);
    AndNotLowMask(b, k, n);
  }

  /** The top two bits are 10. */
  predicate IsContinuation(b: Byte): (r: bool)
    ensures r <==> Tail(b)
  {
    HighBits(b, 6, 64, 8);
    And(b, 0xC0) == 0x80
  }

  predicate LeadsOne(b: Byte): (r: bool)
    ensures r <==> b < 0x80
  {
    HighBits(b, 7, 128, 8);
    And(b, 0x80) == 0
  }

  predicate LeadsTwo(b: Byte): (r: bool)
    ensures r <==> 0xC0 <= b < 0xE0
  {
    HighBits(b, 5, 32, 8);
    And(b, 0xE0) == 0xC0
  }

  predicate LeadsThree(b: Byte): (r: bool)
    ensures r <==> 0xE0 <= b < 0xF0
  {
    HighBits(b, 4, 16, 8);
    And(b, 0xF0) == 0xE0
  }

  predicate LeadsFour(b: Byte): (r: bool)
    ensures r <==> 0xF0 <= b < 0xF8
  {
    HighBits(b, 3, 8, 8);
    And(b, 0xF8) == 0xF0
  }

  /** How many bytes a lead byte's top bits announce; 1 for a byte that leads nothing. */
  function ExpectedLen(lead: Byte): (n: nat)
    ensures 1 <= n <= 4
  {
    if LeadsOne(lead) then 1
    else if LeadsTwo(lead) then 2
    else if LeadsThree(lead) then 3
    else if LeadsFour(lead) then 4
    else 1
  }

  /** The last byte that is not a continuation; the first byte when all are. */
  function LastLead(s: seq<Byte>): (p: nat)
    requires s != []
    ensures p < |s| && (p > 0 ==> !Tail(s[p])) && forall i :: p < i < |s| ==> Tail(s[i])
  {
    if |s| == 1 || !Tail(s[|s| - 1]) then |s| - 1 else LastLead(s[..|s| - 1])
  }

  /** Where the title is cut: before its last lead byte when that announces more than there is. */
  function Cut(s: seq<Byte>): (cut: nat)
    ensures cut <= |s|
  {
    if s == [] then 0
    else
      var p := LastLead(s);
      if ExpectedLen(s[p]) > |s| - p then p else |s|
  }

  function Window(input: seq<Byte>): seq<Byte> {
    if |input| < SURFACE_TITLE_MAX then input else input[..SURFACE_TITLE_MAX]
  }

  method FromBytes(input: seq<Byte>) returns (title: SurfaceTitle)
    ensures |title.bytes| == SURFACE_TITLE_MAX && title.len <= SURFACE_TITLE_MAX
    ensures title.len == Cut(Window(input))
    ensures title.bytes[..title.len] == Window(input)[..Cut(Window(input))]
    ensures forall i :: title.len <= i < SURFACE_TITLE_MAX ==> title.bytes[i] == 0
  {
    ghost var w := Window(input);
    var cut := if |input| < SURFACE_TITLE_MAX then |input| else SURFACE_TITLE_MAX;
    while cut > 0 && IsContinuation(input[cut - 1])
      invariant cut <= |w| && w <= input
      invariant cut == |w| || (w != [] && cut > LastLead(w) && Cut(w) == LastLead(w) && !Tail(w[LastLead(w)]))
    {
      var probe := cut - 1;
      while probe > 0 && IsContinuation(input[probe])
        invariant probe < cut
        invariant forall i :: probe < i < cut ==> Tail(input[i])
      {
        probe := probe - 1;
      }
      ProbeFindsLead(w, cut, probe);
      if cut >= probe + ExpectedLen(input[probe]) {
        break;
      }
      cut := cut - 1;
    }
    if cut > 0 {
      var expected := ExpectedLen(input[cut - 1]);
      if expected > 1 && cut < cut - 1 + expected {
        cut := cut - 1;
      }
    }
    title := SurfaceTitle(input[..cut] + seq(SURFACE_TITLE_MAX - cut, _ => 0), cut);
  }

  lemma ProbeFindsLead(w: seq<Byte>, cut: nat, probe: nat)
    requires 0 < cut <= |w| && probe < cut && (probe > 0 ==> !Tail(w[probe]))
    requires forall i :: probe < i < cut ==> Tail(w[i])
    requires cut == |w| || cut > LastLead(w)
    ensures probe == LastLead(w)
  {
  }

  // What the cut keeps -----------------------------------------------------------------

  /** The start of a character whose lead byte announces more bytes than there are. */
  predicate Unfinished(t: seq<Byte>) {
    t != [] && ExpectedLen(t[0]) > |t| && forall i :: 0 < i < |t| ==> Tail(t[i])
  }

  lemma LeadOfValid(s: seq<Byte>)
    requires CharLen(s) > 0
    ensures ExpectedLen(s[0]) == CharLen(s)
  {
  }

  lemma OneCharLeft(s: seq<Byte>)
    requires Valid(s) && s != [] && forall i :: 0 < i < |s| ==> Tail(s[i])
    ensures CharLen(s) == |s|
  {
    var n := CharLen(s);
    if n < |s| {
      CharShape(s[n..]);
    }
  }

  /** Valid text ends with a whole character. */
  lemma ValidIsFinished(s: seq<Byte>)
    requires Valid(s)
    ensures Cut(s) == |s|
  {
    if s != [] {
      var p := LastLead(s);
      BoundaryCuts(s, p);
      OneCharLeft(s[p..]);
      LeadOfValid(s[p..]);
    }
  }

  lemma NoCharIn(t: seq<Byte>, k: nat)
    requires Unfinished(t) && 0 < k <= |t|
    ensures !Valid(t[..k])
  {
    if CharLen(t[..k]) > 0 {
      LeadOfValid(t[..k]);
    }
  }

  lemma CutsUnfinished(v: seq<Byte>, t: seq<Byte>)
    requires Valid(v) && Unfinished(t)
    ensures Cut(v + t) == |v| && NoneBetween(v + t, |v|, |v + t|)
  {
    var w, n := v + t, |v|;
    var p := LastLead(w);
    assert w[n] == t[0] && !Tail(t[0]);
    assert forall i :: n < i < |w| ==> w[i] == t[i - n];
    assert p == n;
    forall j | n < j <= |w| ensures !Valid(w[..j]) {
      assert w[..j] == v + t[..j - n];
      ValidConcat(v, t[..j - n]);
      NoCharIn(t, j - n);
    }
  }

  /** Valid text followed by nothing, or by one character cut short. */
  ghost predicate ValidButForEnd(w: seq<Byte>) {
    exists v, t :: w == v + t && Valid(v) && (t == [] || Unfinished(t))
  }

  /**
    The bytes kept are the longest valid UTF-8 prefix of the first 64 exactly
    when those are valid text followed at most by one character cut short.
   */
  lemma LongestPrefixExactly(w: seq<Byte>)
    ensures Valid(w[..Cut(w)]) && NoneBetween(w, Cut(w), |w|) <==> ValidButForEnd(w)
  {
    var cut := Cut(w);
    if ValidButForEnd(w) {
      var v, t :| w == v + t && Valid(v) && (t == [] || Unfinished(t));
      if t == [] {
        assert w == v && w[..|w|] == w;
        ValidIsFinished(w);
      } else {
        CutsUnfinished(v, t);
        assert w[..|v|] == v;
      }
    }
    if Valid(w[..cut]) {
      assert w == w[..cut] + w[cut..];
    }
  }

  /** The documented promise fails on bytes that were never UTF-8: a lone 0xFF is kept. */
  lemma InvalidByteKept()
    ensures Cut(Window([0xFF])) == 1 && !Valid([0xFF])
    ensures !ValidButForEnd(Window([0xFF]))
  {
    var w: seq<Byte> := [0xFF];
    assert LastLead(w) == 0;
    assert CharLen(w) == 0;
    assert w[..1] == w;
    LongestPrefixExactly(w);
  }

  lemma TruncatedTail(input: seq<Byte>, max: nat)
    requires Valid(input) && max <= |input|
    ensures var end := Floor(input, max);
      Valid(input[..end]) && (end == max || Unfinished(input[..max][end..]))
  {
    var end := Floor(input, max);
    FloorIsLongest(input, max);
    if end < max {
      BoundaryCuts(input, end);
      var rest := input[end..];
      var n := CharLen(rest);
      CharShape(rest);
      LeadOfValid(rest);
      if end + n <= max {
        NextCut(input, end, n);
      }
      var t := input[..max][end..];
      assert forall i :: 0 <= i < |t| ==> t[i] == rest[i];
    }
  }

  lemma NextCut(input: seq<Byte>, end: nat, n: nat)
    requires end < |input| && Valid(input[..end]) && n == CharLen(input[end..]) > 0
    ensures Valid(input[..end + n])
  {
    var rest := input[end..];
    CharOfPrefix(rest, n);
    assert rest[..n][n..] == [];
    ValidConcat(input[..end], rest[..n]);
    assert input[..end] + rest[..n] == input[..end + n];
  }

  /** From valid UTF-8 the title keeps exactly the longest valid prefix of at most 64 bytes. */
  lemma TitleOfValid(input: seq<Byte>)
    requires Valid(input)
    ensures Cut(Window(input)) == Floor(input, SURFACE_TITLE_MAX)
  {
    var w := Window(input);
    if |input| < SURFACE_TITLE_MAX {
      ValidIsFinished(input);
      FloorWhole(input, SURFACE_TITLE_MAX);
    } else {
      var end := Floor(input, SURFACE_TITLE_MAX);
      TruncatedTail(input, SURFACE_TITLE_MAX);
      if end == SURFACE_TITLE_MAX {
        ValidIsFinished(w);
      } else {
        CutsUnfinished(input[..end], w[end..]);
        assert input[..end] + w[end..] == w;
      }
    }
  }
}
