/**
  Splitting and joining strings at a separator character.
 */
module Text {

  function Split(s: string, c: char): (parts: seq<string>)
    ensures |parts| > 0
  {
    if s == "" then [""]
    else
      var rest := Split(s[1..], c);
      if s[0] == c then [""] + rest else [[s[0]] + rest[0]] + rest[1..]
  }

  function Join(parts: seq<string>, c: char): string
    requires |parts| > 0
  {
    if |parts| == 1 then parts[0] else parts[0] + [c] + Join(parts[1..], c)
  }

  predicate Without(s: string, c: char) {
    c !in s
  }

  lemma {:induction false} PartsAreWithout(s: string, c: char)
    ensures forall i :: 0 <= i < |Split(s, c)| ==> Without(Split(s, c)[i], c)
  {
    if s == "" {
    } else {
      PartsAreWithout(s[1..], c);
    }
  }

  lemma {:induction false} SplitWithout(s: string, c: char)
    requires Without(s, c)
    ensures Split(s, c) == [s]
  {
    if s == "" {
    } else {
      SplitWithout(s[1..], c);
      assert [s[0]] + s[1..] == s;
    }
  }

  lemma SplitCons(h: char, t: string, c: char)
    ensures Split([h] + t, c) ==
      var rest := Split(t, c);
      if h == c then [""] + rest else [[h] + rest[0]] + rest[1..]
  {
    assert ([h] + t)[1..] == t;
  }

  /** Splitting distributes over a separator. */
  lemma {:induction false} SplitAt(a: string, c: char, b: string)
    ensures Split(a + [c] + b, c) == Split(a, c) + Split(b, c)
  {
    if a == "" {
      assert a + [c] + b == [c] + b;
      SplitCons(c, b, c);
    } else {
      var h, t := a[0], a[1..];
      assert a == [h] + t;
      assert a + [c] + b == [h] + (t + [c] + b);
      SplitCons(h, t + [c] + b, c);
      SplitCons(h, t, c);
      SplitAt(t, c, b);
      SplitConcat(h, Split(t, c), Split(b, c));
    }
  }

  lemma SplitConcat(h: char, x: seq<string>, y: seq<string>)
    requires |x| > 0
    ensures [[h] + (x + y)[0]] + (x + y)[1..] == ([[h] + x[0]] + x[1..]) + y
    ensures [""] + (x + y) == ([""] + x) + y
  {
    assert (x + y)[0] == x[0] && (x + y)[1..] == x[1..] + y;
  }

  lemma {:induction false} SplitOfJoin(parts: seq<string>, c: char)
    requires |parts| > 0 && forall i :: 0 <= i < |parts| ==> Without(parts[i], c)
    ensures Split(Join(parts, c), c) == parts
  {
    SplitWithout(parts[0], c);
    if |parts| == 1 {
    } else {
      SplitAt(parts[0], c, Join(parts[1..], c));
      SplitOfJoin(parts[1..], c);
      assert [parts[0]] + parts[1..] == parts;
    }
  }

  lemma {:induction false} JoinWithout(parts: seq<string>, c: char, d: char)
    requires |parts| > 0 && c != d && forall i :: 0 <= i < |parts| ==> Without(parts[i], d)
    ensures Without(Join(parts, c), d)
  {
    if |parts| == 1 {
    } else {
      JoinWithout(parts[1..], c, d);
    }
  }
}
