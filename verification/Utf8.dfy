/**
  UTF-8 byte sequences by the grammar of section 4 of RFC 3629, and where
  a valid sequence may be cut.
 */
module Utf8 {
  import opened Basics

  /** A continuation byte, 10xxxxxx. */
  predicate Tail(b: Byte) {
    0x80 <= b <= 0xBF
  }

  /** How many bytes a lead byte announces; 0 for a byte that leads nothing. */
  function LeadLen(b: Byte): nat {
    if b <= 0x7F then 1
    else if 0xC2 <= b <= 0xDF then 2
    else if 0xE0 <= b <= 0xEF then 3
    else if 0xF0 <= b <= 0xF4 then 4
    else 0
  }

  /** The second bytes allowed after a lead byte. */
  predicate Second(lead: Byte, b: Byte) {
    if lead == 0xE0 then 0xA0 <= b <= 0xBF
    else if lead == 0xED then 0x80 <= b <= 0x9F
    else if lead == 0xF0 then 0x90 <= b <= 0xBF
    else if lead == 0xF4 then 0x80 <= b <= 0x8F
    else Tail(b)
  }

  /** Whether the first n bytes of s could be the start of one character. */
  predicate CharStart(s: seq<Byte>, n: nat)
    requires n <= |s|
  {
    && (n > 1 ==> Second(s[0], s[1]))
    && (forall i :: 2 <= i < n ==> Tail(s[i]))
  }

  /** The length of the character at the front of s; 0 when there is none. */
  function CharLen(s: seq<Byte>): (n: nat)
    ensures n <= |s| && n <= 4
  {
    if s == [] then 0
    else
      var n := LeadLen(s[0]);
      if 0 < n <= |s| && CharStart(s, n) then n else 0
  }

  predicate Valid(s: seq<Byte>) {
    s == [] || (CharLen(s) > 0 && Valid(s[CharLen(s)..]))
  }

  /** A byte offset where a character may start, judged by the byte found there. */
  predicate IsBoundary(s: seq<Byte>, i: nat) {
    i == 0 || i == |s| || (i < |s| && !Tail(s[i]))
  }

  // One character ------------------------------------------------------------------

  lemma CharShape(s: seq<Byte>)
    requires CharLen(s) > 0
    ensures !Tail(s[0]) && forall i :: 0 < i < CharLen(s) ==> Tail(s[i])
  {
  }

  lemma CharOfPrefix(s: seq<Byte>, i: nat)
    requires i <= |s| && CharLen(s) > 0
    ensures CharLen(s[..i]) == if i < CharLen(s) then 0 else CharLen(s)
  {
  }

  lemma CharOfConcat(s: seq<Byte>, t: seq<Byte>)
    requires CharLen(s) > 0
    ensures CharLen(s + t) == CharLen(s)
  {
  }

  // Joining and cutting --------------------------------------------------------------

  lemma {:induction false} ValidConcat(a: seq<Byte>, b: seq<Byte>)
    requires Valid(a)
    ensures Valid(a + b) <==> Valid(b)
  {
    if a == [] {
      assert a + b == b;
    } else {
      var n := CharLen(a);
      CharOfConcat(a, b);
      assert (a + b)[n..] == a[n..] + b;
      ValidConcat(a[n..], b);
    }
  }

  /** In valid text the byte test for a boundary finds exactly the offsets where both sides are valid text. */
  lemma {:induction false} BoundaryCuts(s: seq<Byte>, i: nat)
    requires Valid(s) && i <= |s|
    ensures IsBoundary(s, i) <==> Valid(s[..i])
    ensures Valid(s[..i]) ==> Valid(s[i..])
    decreases |s|
  {
    if s != [] {
      var n := CharLen(s);
      CharShape(s);
      CharOfPrefix(s, i);
      if n <= i {
        var rest := s[n..];
        BoundaryCuts(rest, i - n);
        assert s[..i][n..] == rest[..i - n];
        assert s[i..] == rest[i - n..];
        if rest != [] { CharShape(rest); }
      }
    } else {
      assert s[..i] == [] && s[i..] == [];
    }
  }

  // The longest cut at or below a limit ------------------------------------------------

  /** The length of the longest valid prefix of at most max bytes. */
  function Floor(s: seq<Byte>, max: nat): (end: nat)
    ensures end <= max && end <= |s|
  {
    if max == 0 then 0
    else if max <= |s| && Valid(s[..max]) then max
    else Floor(s, max - 1)
  }

  /** No valid prefix ends after `end` and at or below max. */
  ghost predicate NoneBetween(s: seq<Byte>, end: nat, max: nat) {
    forall j :: end < j <= |s| && j <= max ==> !Valid(s[..j])
  }

  lemma {:induction false} FloorIsLongest(s: seq<Byte>, max: nat)
    ensures Valid(s[..Floor(s, max)]) && NoneBetween(s, Floor(s, max), max)
  {
    if max == 0 || (max <= |s| && Valid(s[..max])) {
    } else {
      FloorIsLongest(s, max - 1);
    }
  }

  /** end is the last place, not after max, where a prefix of s is valid. */
  ghost predicate IsFloor(s: seq<Byte>, max: nat, end: nat) {
    end <= max && end <= |s| && Valid(s[..end]) && NoneBetween(s, end, max)
  }

  lemma FloorIs(s: seq<Byte>, max: nat, end: nat)
    requires IsFloor(s, max, end)
    ensures Floor(s, max) == end
  {
    FloorIsLongest(s, max);
  }

  lemma FloorWhole(s: seq<Byte>, max: nat)
    requires Valid(s) && |s| <= max
    ensures Floor(s, max) == |s|
  {
    assert s[..|s|] == s;
    FloorIs(s, max, |s|);
  }

  /** Cutting first at k changes no later, lower cut. */
  lemma FloorOfFloor(s: seq<Byte>, k: nat, m: nat)
    requires m <= k
    ensures Floor(s[..Floor(s, k)], m) == Floor(s, m)
  {
    var end, cut := Floor(s, k), Floor(s, m);
    var t := s[..end];
    FloorIsLongest(s, k);
    FloorIsLongest(s, m);
    assert t[..cut] == s[..cut];
    forall j | cut < j <= |t| && j <= m ensures !Valid(t[..j]) {
      assert t[..j] == s[..j];
    }
    FloorIs(t, m, cut);
  }

  lemma NoneBetweenPast(a: seq<Byte>, b: seq<Byte>, end: nat, m: nat)
    requires Valid(a) && NoneBetween(b, end, m)
    ensures NoneBetween(a + b, |a| + end, |a| + m)
  {
    forall j | |a| + end < j <= |a + b| && j <= |a| + m ensures !Valid((a + b)[..j]) {
      ValidPast(a, b, j - |a|);
    }
  }

  /** Past a valid prefix the cut depends on the rest alone. */
  lemma FloorAfter(a: seq<Byte>, b: seq<Byte>, m: nat)
    requires Valid(a)
    ensures Floor(a + b, |a| + m) == |a| + Floor(b, m)
  {
    FloorIsLongest(b, m);
    FloorStays(a, b, m, Floor(b, m));
    FloorIs(a + b, |a| + m, |a| + Floor(b, m));
  }

  lemma FloorStays(a: seq<Byte>, b: seq<Byte>, m: nat, end: nat)
    requires Valid(a) && IsFloor(b, m, end)
    ensures IsFloor(a + b, |a| + m, |a| + end)
  {
    ValidPast(a, b, end);
    NoneBetweenPast(a, b, end, m);
  }

  lemma FloorPast(s: seq<Byte>, cut: nat, m: nat)
    requires cut <= |s| && Valid(s[..cut])
    ensures Floor(s, cut + m) == cut + Floor(s[cut..], m)
  {
    assert s[..cut] + s[cut..] == s;
    FloorAfter(s[..cut], s[cut..], m);
  }

  lemma ValidPast(a: seq<Byte>, b: seq<Byte>, j: nat)
    requires Valid(a) && j <= |b|
    ensures Valid((a + b)[..|a| + j]) <==> Valid(b[..j])
  {
    assert (a + b)[..|a| + j] == a + b[..j];
    ValidConcat(a, b[..j]);
  }

  /** What lies past the limit does not move the cut. */
  lemma FloorOfExtension(a: seq<Byte>, b: seq<Byte>, max: nat)
    requires max <= |a|
    ensures Floor(a + b, max) == Floor(a, max)
  {
    var end := Floor(a, max);
    FloorIsLongest(a, max);
    assert (a + b)[..end] == a[..end];
    forall j | end < j <= |a + b| && j <= max ensures !Valid((a + b)[..j]) {
      assert (a + b)[..j] == a[..j];
    }
    FloorIs(a + b, max, end);
  }

  // The longest valid prefix -------------------------------------------------------------

  /** The end of the longest valid prefix, as a UTF-8 decoder reports it. */
  function ValidUpTo(s: seq<Byte>): (end: nat)
    ensures end <= |s|
  {
    var n := CharLen(s);
    if n == 0 then 0 else n + ValidUpTo(s[n..])
  }

  lemma {:induction false} ValidUpToIsLongest(s: seq<Byte>)
    ensures Valid(s[..ValidUpTo(s)]) && NoneBetween(s, ValidUpTo(s), |s|)
    ensures Valid(s) <==> ValidUpTo(s) == |s|
    decreases |s|
  {
    var n, end := CharLen(s), ValidUpTo(s);
    if n > 0 {
      ValidUpToIsLongest(s[n..]);
      ValidPrefix(s, end);
      forall j | end < j <= |s| ensures !Valid(s[..j]) {
        ValidPrefix(s, j);
      }
    } else {
      forall j | 0 < j <= |s| ensures !Valid(s[..j]) {
        NoCharInPrefix(s, j);
      }
    }
  }

  lemma ValidPrefix(s: seq<Byte>, j: nat)
    requires CharLen(s) <= j <= |s| && CharLen(s) > 0
    ensures Valid(s[..j]) <==> Valid(s[CharLen(s)..][..j - CharLen(s)])
  {
    CharOfPrefix(s, j);
    assert s[..j][CharLen(s)..] == s[CharLen(s)..][..j - CharLen(s)];
  }

  lemma NoCharInPrefix(s: seq<Byte>, j: nat)
    requires CharLen(s) == 0 && 0 < j <= |s|
    ensures CharLen(s[..j]) == 0
  {
  }

  // Searching for the cut -------------------------------------------------------------------

  /** End of the longest prefix of s of at most max bytes that ends on a character boundary. */
  method FloorCharBoundary(s: seq<Byte>, max: nat) returns (end: nat)
    requires Valid(s)
    ensures end == Floor(s, max)
  {
    if max >= |s| {
      FloorWhole(s, max);
      return |s|;
    }
    end := max;
    while !IsBoundary(s, end)
      invariant end <= max
      invariant NoneBetween(s, end, max)
      decreases end
    {
      BoundaryCuts(s, end);
      end := end - 1;
    }
    BoundaryCuts(s, end);
    FloorIs(s, max, end);
  }
}
