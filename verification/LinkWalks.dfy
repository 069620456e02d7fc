/**
  Plain expansion of symbolic links: a walk over path components that replaces
  each link by its target, over any fixed set of links, loops included.
 */
module LinkWalks {
  import opened Basics
  import opened Text
  import opened Paths

  /** A symbolic link, and whether its target can be read. */
  datatype Node = Link(target: string) | Unreadable

  /** The links of the file system; every other path is something else or missing. */
  type Links = map<string, Node>

  predicate IsLink(fs: Links, path: string) {
    path in fs && fs[path].Link?
  }

  predicate Absolute(path: string) {
    path != "" && path[0] == '/'
  }

  function Parent(path: string): (p: string)
    ensures p != ""
  {
    var end := PastLastSlash(path);
    if end <= 1 then "/" else path[..end - 1]
  }

  function Below(dir: string, name: string): string {
    if dir == "/" then "/" + name else dir + "/" + name
  }

  /** The directory an empty working directory stands for. */
  function Root(dir: string): (d: string)
    ensures d != ""
  {
    if dir == "" then "/" else dir
  }

  /** Going up and going down do not tell the two apart. */
  lemma SameFromRoot(dir: string, name: string)
    ensures Below(Root(dir), name) == Below(dir, name) && Parent(Root(dir)) == Parent(dir)
  {
    assert "" + "/" + name == "/" + name;
  }

  // Plain expansion ----------------------------------------------------------------

  /** A directory reached so far, and the components still to follow from it. */
  datatype Walk = Walk(at: string, parts: seq<string>)

  function Next(fs: Links, w: Walk): Walk
    requires w.parts != []
  {
    var name, rest := w.parts[0], w.parts[1..];
    if name == "" || name == "." then Walk(w.at, rest)
    else if name == ".." then Walk(Parent(w.at), rest)
    else
      var path := Below(w.at, name);
      if IsLink(fs, path) then Walk(Base(fs[path].target, w.at), Split(fs[path].target, '/') + rest)
      else Walk(path, rest)
  }

  function Base(target: string, dir: string): string {
    if Absolute(target) then "/" else dir
  }

  /** The walk comes to its end at v after exactly n steps. */
  predicate EndsAfter(fs: Links, w: Walk, v: string, n: nat)
    decreases n
  {
    if w.parts == [] then n == 0 && v == w.at
    else n > 0 && EndsAfter(fs, Next(fs, w), v, n - 1)
  }

  ghost predicate EndsAt(fs: Links, w: Walk, v: string) {
    exists n: nat :: EndsAfter(fs, w, v, n)
  }

  ghost predicate Diverges(fs: Links, w: Walk) {
    forall v :: !EndsAt(fs, w, v)
  }

  lemma {:induction false} OneEnd(fs: Links, w: Walk, v: string, n: nat, u: string, m: nat)
    requires EndsAfter(fs, w, v, n) && EndsAfter(fs, w, u, m)
    ensures v == u && n == m
    decreases n
  {
    if w.parts == [] {
    } else {
      OneEnd(fs, Next(fs, w), v, n - 1, u, m - 1);
    }
  }

  lemma NextOfLonger(fs: Links, at: string, a: seq<string>, b: seq<string>)
    requires a != []
    ensures Next(fs, Walk(at, a + b)) == Walk(Next(fs, Walk(at, a)).at, Next(fs, Walk(at, a)).parts + b)
  {
    assert (a + b)[0] == a[0] && (a + b)[1..] == a[1..] + b;
    var path := Below(at, a[0]);
    if IsLink(fs, path) {
      var t := Split(fs[path].target, '/');
      assert t + (a[1..] + b) == t + a[1..] + b;
    }
  }

  lemma {:induction false} Continue(fs: Links, at: string, a: seq<string>, b: seq<string>, mid: string, n: nat,
                                    v: string, m: nat)
    requires EndsAfter(fs, Walk(at, a), mid, n) && EndsAfter(fs, Walk(mid, b), v, m)
    ensures EndsAfter(fs, Walk(at, a + b), v, n + m)
    decreases n
  {
    if a == [] {
      assert a + b == b;
    } else {
      var next := Next(fs, Walk(at, a));
      NextOfLonger(fs, at, a, b);
      Continue(fs, next.at, next.parts, b, mid, n - 1, v, m);
    }
  }

  lemma {:induction false} Pause(fs: Links, at: string, a: seq<string>, b: seq<string>, v: string, n: nat)
    returns (mid: string, k: nat)
    requires EndsAfter(fs, Walk(at, a + b), v, n)
    ensures k <= n && EndsAfter(fs, Walk(at, a), mid, k) && EndsAfter(fs, Walk(mid, b), v, n - k)
    decreases n
  {
    if a == [] {
      assert a + b == b;
      mid, k := at, 0;
    } else {
      var next := Next(fs, Walk(at, a));
      NextOfLonger(fs, at, a, b);
      mid, k := Pause(fs, next.at, next.parts, b, v, n - 1);
      k := k + 1;
    }
  }

  // Progress of a walk -------------------------------------------------------------------

  /** w is where a walk from `start` may have come to: same end, no more steps to go. */
  ghost predicate OnWay(fs: Links, start: Walk, w: Walk) {
    && (forall v, n: nat :: EndsAfter(fs, start, v, n) ==> EndsWithin(fs, w, v, n))
    && (forall v :: EndsAt(fs, w, v) ==> EndsAt(fs, start, v))
  }

  ghost predicate EndsWithin(fs: Links, w: Walk, v: string, n: nat) {
    exists m: nat :: m <= n && EndsAfter(fs, w, v, m)
  }

  lemma OnWayHere(fs: Links, w: Walk)
    ensures OnWay(fs, w, w)
  {
    forall v, n: nat | EndsAfter(fs, w, v, n) ensures EndsWithin(fs, w, v, n) {
      assert n <= n && EndsAfter(fs, w, v, n);
    }
  }

  /** A later walk that ends the same way in no more steps is on the way too. */
  lemma OnWayFurther(fs: Links, start: Walk, w: Walk, u: Walk)
    requires OnWay(fs, start, w) && OnWay(fs, w, u)
    ensures OnWay(fs, start, u)
  {
    forall v, n: nat | EndsAfter(fs, start, v, n) ensures EndsWithin(fs, u, v, n) {
      assert EndsWithin(fs, w, v, n);
      var m: nat :| m <= n && EndsAfter(fs, w, v, m);
      assert EndsWithin(fs, u, v, m);
      var k: nat :| k <= m && EndsAfter(fs, u, v, k);
    }
  }

  lemma OnWayStep(fs: Links, w: Walk)
    requires w.parts != []
    ensures OnWay(fs, w, Next(fs, w))
  {
    var u := Next(fs, w);
    forall v, n: nat | EndsAfter(fs, w, v, n) ensures EndsWithin(fs, u, v, n) {
      assert EndsAfter(fs, u, v, n - 1);
    }
    forall v | EndsAt(fs, u, v) ensures EndsAt(fs, w, v) {
      var n: nat :| EndsAfter(fs, u, v, n);
      assert EndsAfter(fs, w, v, n + 1);
    }
  }

  /** Components known to lead to `mid` may be skipped. */
  lemma OnWayJump(fs: Links, at: string, a: seq<string>, mid: string, b: seq<string>)
    requires EndsAt(fs, Walk(at, a), mid)
    ensures OnWay(fs, Walk(at, a + b), Walk(mid, b))
  {
    var w, u := Walk(at, a + b), Walk(mid, b);
    var k: nat :| EndsAfter(fs, Walk(at, a), mid, k);
    forall v, n: nat | EndsAfter(fs, w, v, n) ensures EndsWithin(fs, u, v, n) {
      var found, m := Pause(fs, at, a, b, v, n);
      OneEnd(fs, Walk(at, a), mid, k, found, m);
      assert EndsAfter(fs, u, v, n - m);
    }
    forall v | EndsAt(fs, u, v) ensures EndsAt(fs, w, v) {
      var n: nat :| EndsAfter(fs, u, v, n);
      Continue(fs, at, a, b, mid, k, v, n);
    }
  }

  // Links met again -----------------------------------------------------------------------------

  /** Where following the link itself starts. */
  function Expansion(fs: Links, link: string): Walk
    requires IsLink(fs, link)
  {
    Walk(Base(fs[link].target, Parent(link)), Split(fs[link].target, '/'))
  }

  lemma ParentOfBelow(dir: string, name: string)
    requires dir != "" && Without(name, '/')
    ensures Parent(Below(dir, name)) == dir
  {
    var path := Below(dir, name);
    var slash := if dir == "/" then 0 else |dir|;
    assert path == path[..slash] + ['/'] + name;
    assert path[slash] == '/' && path[slash + 1..] == name;
    assert PastLastSlash(path) == slash + 1;
    assert path[..slash] == if dir == "/" then "" else dir;
  }

  /** A component that names something, and not a place relative to where we are. */
  predicate Proper(name: string) {
    Without(name, '/') && name != "" && name != "." && name != ".."
  }

  /** The step into a link is its expansion followed by what came after. */
  lemma StepIntoLink(fs: Links, at: string, name: string, rest: seq<string>)
    requires at != "" && Proper(name) && IsLink(fs, Below(at, name))
    ensures var e := Expansion(fs, Below(at, name));
      Next(fs, Walk(at, [name] + rest)) == Walk(e.at, e.parts + rest)
  {
    ParentOfBelow(at, name);
    assert ([name] + rest)[1..] == rest;
  }

  lemma NoShorter(fs: Links, e: Walk, rest: seq<string>, v: string, n: nat, u: string, m: nat)
    requires EndsAfter(fs, e, v, n) && EndsAfter(fs, Walk(e.at, e.parts + rest), u, m)
    ensures n <= m
  {
    var mid, k := Pause(fs, e.at, e.parts, rest, u, m);
    OneEnd(fs, e, v, n, mid, k);
  }

  /** A link met again on the way through its own expansion never ends. */
  lemma LoopDiverges(fs: Links, at: string, name: string, rest: seq<string>)
    requires at != "" && Proper(name) && IsLink(fs, Below(at, name))
    requires OnWay(fs, Expansion(fs, Below(at, name)), Walk(at, [name] + rest))
    ensures Diverges(fs, Walk(at, [name] + rest))
  {
    var w := Walk(at, [name] + rest);
    var e := Expansion(fs, Below(at, name));
    StepIntoLink(fs, at, name, rest);
    forall v ensures !EndsAt(fs, w, v) {
      if EndsAt(fs, w, v) {
        assert EndsAt(fs, e, v);
        var n: nat :| EndsAfter(fs, e, v, n);
        assert EndsWithin(fs, w, v, n);
        var m: nat :| m <= n && EndsAfter(fs, w, v, m);
        NoShorter(fs, e, rest, v, n, v, m - 1);
      }
    }
  }

  lemma DivergesLonger(fs: Links, at: string, a: seq<string>, b: seq<string>)
    requires Diverges(fs, Walk(at, a))
    ensures Diverges(fs, Walk(at, a + b))
  {
    forall v ensures !EndsAt(fs, Walk(at, a + b), v) {
      if EndsAt(fs, Walk(at, a + b), v) {
        var n: nat :| EndsAfter(fs, Walk(at, a + b), v, n);
        var mid, k := Pause(fs, at, a, b, v, n);
        assert EndsAt(fs, Walk(at, a), mid);
      }
    }
  }

  lemma StillEnds(fs: Links, start: Walk, w: Walk, v: string)
    requires OnWay(fs, start, w) && EndsAt(fs, start, v)
    ensures EndsAt(fs, w, v)
  {
    var n: nat :| EndsAfter(fs, start, v, n);
    assert EndsWithin(fs, w, v, n);
  }

  lemma DivergesBefore(fs: Links, start: Walk, w: Walk)
    requires OnWay(fs, start, w) && Diverges(fs, w)
    ensures Diverges(fs, start)
  {
    forall v ensures !EndsAt(fs, start, v) {
      if EndsAt(fs, start, v) {
        StillEnds(fs, start, w, v);
      }
    }
  }

  /** A name that is a link whose expansion never ends leads nowhere. */
  lemma DivergingName(fs: Links, at: string, name: string, rest: seq<string>)
    requires at != "" && Proper(name) && IsLink(fs, Below(at, name))
    requires Diverges(fs, Expansion(fs, Below(at, name)))
    ensures Diverges(fs, Walk(at, [name] + rest))
  {
    var e := Expansion(fs, Below(at, name));
    StepIntoLink(fs, at, name, rest);
    DivergesLonger(fs, e.at, e.parts, rest);
    OnWayStep(fs, Walk(at, [name] + rest));
    DivergesBefore(fs, Walk(at, [name] + rest), Walk(e.at, e.parts + rest));
  }

  /** Where a path leads from a working directory. */
  function Start(path: string, cwd: string): Walk {
    Walk(if Absolute(path) then "/" else Root(cwd), Split(path, '/'))
  }
}
