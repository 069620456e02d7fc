/**
  POSIX path strings: the normal form and what joining, relative paths, and
  splitting off the last component do to it.
 */
module Paths {
  import opened Text

  // Normal form ---------------------------------------------------------------------

  /** How many leading slashes the normal form keeps: exactly two stay two. */
  function Slashes(path: string): (k: nat)
    ensures k <= 2 && (k > 0 <==> path != "" && path[0] == '/')
  {
    if path == "" || path[0] != '/' then 0
    else if |path| > 1 && path[1] == '/' && !(|path| > 2 && path[2] == '/') then 2
    else 1
  }

  /** One component met from left to right, over those kept so far. */
  function Push(abs: bool, comps: seq<string>, comp: string): seq<string> {
    if comp == "" || comp == "." then comps
    else if comp != ".." || (!abs && comps == []) || (comps != [] && comps[|comps| - 1] == "..") then comps + [comp]
    else if comps != [] then comps[..|comps| - 1]
    else comps
  }

  function Reduce(abs: bool, comps: seq<string>, parts: seq<string>): seq<string>
    decreases |parts|
  {
    if parts == [] then comps else Reduce(abs, Push(abs, comps, parts[0]), parts[1..])
  }

  function Components(path: string): seq<string> {
    Reduce(Slashes(path) > 0, [], Split(path, '/'))
  }

  function JoinAll(comps: seq<string>): string {
    if comps == [] then "" else Join(comps, '/')
  }

  function Render(k: nat, comps: seq<string>): string {
    var out := seq(k, _ => '/') + JoinAll(comps);
    if out == "" then "." else out
  }

  /** The normal form of a path. */
  function Norm(path: string): string {
    Render(Slashes(path), Components(path))
  }

  /** Component lists of normal forms: no empty or "." parts, and ".." only leading a relative path. */
  predicate Normal(abs: bool, comps: seq<string>) {
    forall i: nat :: i < |comps| ==> NormalAt(abs, comps, i)
  }

  predicate NormalAt(abs: bool, comps: seq<string>, i: nat)
    requires i < |comps|
  {
    && comps[i] != "" && comps[i] != "." && Without(comps[i], '/')
    && (comps[i] == ".." ==> !abs && (i == 0 || comps[i - 1] == ".."))
  }

  predicate Clean(parts: seq<string>) {
    forall i :: 0 <= i < |parts| ==> Without(parts[i], '/')
  }

  lemma NormalIsClean(abs: bool, comps: seq<string>)
    requires Normal(abs, comps)
    ensures Clean(comps)
  {
    forall i: nat | i < |comps| ensures Without(comps[i], '/') {
      assert NormalAt(abs, comps, i);
    }
  }

  lemma PushNormal(abs: bool, comps: seq<string>, comp: string)
    requires Normal(abs, comps) && Without(comp, '/')
    ensures Normal(abs, Push(abs, comps, comp))
  {
    var n := |comps|;
    var next := Push(abs, comps, comp);
    forall i: nat | i < |next| ensures NormalAt(abs, next, i) {
      if i < n {
        assert NormalAt(abs, comps, i);
      } else if n > 0 {
        assert NormalAt(abs, comps, n - 1);
      }
    }
  }

  lemma {:induction false} ReduceNormal(abs: bool, comps: seq<string>, parts: seq<string>)
    requires Normal(abs, comps) && Clean(parts)
    ensures Normal(abs, Reduce(abs, comps, parts))
    decreases |parts|
  {
    if parts == [] {
    } else {
      PushNormal(abs, comps, parts[0]);
      ReduceNormal(abs, Push(abs, comps, parts[0]), parts[1..]);
    }
  }

  lemma ComponentsNormal(path: string)
    ensures Normal(Slashes(path) > 0, Components(path))
  {
    PartsAreWithout(path, '/');
    ReduceNormal(Slashes(path) > 0, [], Split(path, '/'));
  }

  lemma {:induction false} ReduceAppend(abs: bool, comps: seq<string>, a: seq<string>, b: seq<string>)
    ensures Reduce(abs, comps, a + b) == Reduce(abs, Reduce(abs, comps, a), b)
    decreases |a|
  {
    if a == [] {
      assert a + b == b;
    } else {
      assert (a + b)[1..] == a[1..] + b;
      ReduceAppend(abs, Push(abs, comps, a[0]), a[1..], b);
    }
  }

  /** Reading on through a normal form changes nothing. */
  lemma {:induction false} ReduceKeeps(abs: bool, comps: seq<string>, more: seq<string>)
    requires Normal(abs, comps + more)
    ensures Reduce(abs, comps, more) == comps + more
    decreases |more|
  {
    if more == [] {
      assert comps + more == comps;
    } else {
      assert NormalAt(abs, comps + more, |comps|);
      assert (comps + more)[|comps|] == more[0];
      assert comps != [] ==> (comps + more)[|comps| - 1] == comps[|comps| - 1];
      assert comps + [more[0]] + more[1..] == comps + more;
      ReduceKeeps(abs, comps + [more[0]], more[1..]);
    }
  }

  // Reading back a normal form ----------------------------------------------------------

  lemma SplitSlash(rest: string)
    ensures Split("/" + rest, '/') == [""] + Split(rest, '/')
  {
    SplitAt("", '/', rest);
    assert "" + ['/'] + rest == "/" + rest;
  }

  /** Extra slashes are empty components, which are skipped. */
  lemma {:induction false} ReduceRun(abs: bool, comps: seq<string>, k: nat, rest: string)
    ensures Reduce(abs, comps, Split(seq(k, _ => '/') + rest, '/')) == Reduce(abs, comps, Split(rest, '/'))
    decreases k
  {
    if k == 0 {
      assert seq(k, _ => '/') + rest == rest;
    } else {
      var tail := seq(k - 1, _ => '/') + rest;
      assert seq(k, _ => '/') + rest == "/" + tail;
      SplitSlash(tail);
      assert ([""] + Split(tail, '/'))[1..] == Split(tail, '/');
      ReduceRun(abs, comps, k - 1, rest);
    }
  }

  lemma ReduceJoined(abs: bool, comps: seq<string>)
    requires Normal(abs, comps)
    ensures Reduce(abs, [], Split(JoinAll(comps), '/')) == comps
  {
    if comps == [] {
      assert Split("", '/') == [""];
      assert Reduce(abs, [], [""]) == Reduce(abs, [], [""][1..]);
    } else {
      NormalIsClean(abs, comps);
      SplitOfJoin(comps, '/');
      assert [] + comps == comps;
      ReduceKeeps(abs, [], comps);
    }
  }

  lemma JoinedStart(comps: seq<string>, abs: bool)
    requires Normal(abs, comps) && comps != []
    ensures JoinAll(comps) != "" && JoinAll(comps)[0] != '/'
  {
    assert NormalAt(abs, comps, 0);
    assert comps[0][0] != '/';
  }

  /** A normal form gives back the slashes and components it was made of. */
  lemma ParseRender(k: nat, comps: seq<string>)
    requires k <= 2 && Normal(k > 0, comps)
    ensures Slashes(Render(k, comps)) == k && Components(Render(k, comps)) == comps
  {
    var out := Render(k, comps);
    ReduceRun(k > 0, [], k, JoinAll(comps));
    ReduceJoined(k > 0, comps);
    if comps != [] {
      JoinedStart(comps, k > 0);
    } else if k == 0 {
      SplitWithout(".", '/');
      assert Reduce(false, [], ["."]) == Reduce(false, [], ["."][1..]);
    }
  }

  lemma RenderInjective(k: nat, a: seq<string>, l: nat, b: seq<string>)
    requires k <= 2 && l <= 2 && Normal(k > 0, a) && Normal(l > 0, b) && Render(k, a) == Render(l, b)
    ensures k == l && a == b
  {
    ParseRender(k, a);
    ParseRender(l, b);
  }

  /** Normalising twice is normalising once. */
  lemma NormIdempotent(path: string)
    ensures Norm(Norm(path)) == Norm(path)
    ensures Slashes(Norm(path)) == Slashes(path) && Components(Norm(path)) == Components(path)
  {
    ComponentsNormal(path);
    ParseRender(Slashes(path), Components(path));
  }

  method NormPath(path: string) returns (out: string)
    ensures out == Norm(path)
  {
    if path == "" {
      assert Split("", '/') == [""];
      assert Reduce(false, [], [""]) == Reduce(false, [], [""][1..]);
      return ".";
    }
    var initialSlashes := if path[0] == '/' then 1 else 0;
    if initialSlashes == 1 && |path| > 1 && path[1] == '/' && !(|path| > 2 && path[2] == '/') {
      initialSlashes := 2;
    }
    var parts := Split(path, '/');
    var comps := [];
    for i := 0 to |parts|
      invariant Components(path) == Reduce(Slashes(path) > 0, comps, parts[i..])
    {
      var comp := parts[i];
      if comp == "" || comp == "." {
        continue;
      }
      if comp != ".." || (initialSlashes == 0 && comps == []) || (comps != [] && comps[|comps| - 1] == "..") {
        comps := comps + [comp];
      } else if comps != [] {
        comps := comps[..|comps| - 1];
      }
    }
    out := seq(initialSlashes, _ => '/') + JoinAll(comps);
    if out == "" {
      out := ".";
    }
  }

  // Joining ----------------------------------------------------------------------------------

  function JoinPath(a: string, b: string): string {
    if b != "" && b[0] == '/' then b
    else if a == "" || a[|a| - 1] == '/' then a + b
    else a + "/" + b
  }

  lemma JoinedAfterSlash(abs: bool, a: string, b: string)
    requires a != "" && a[|a| - 1] == '/'
    ensures Reduce(abs, [], Split(a + b, '/')) == Reduce(abs, Reduce(abs, [], Split(a, '/')), Split(b, '/'))
  {
    var front := a[..|a| - 1];
    SplitAt(front, '/', b);
    SplitAt(front, '/', "");
    assert front + ['/'] + b == a + b && front + ['/'] + "" == a;
    ReduceAppend(abs, [], Split(front, '/'), Split(b, '/'));
    ReduceAppend(abs, [], Split(front, '/'), [""]);
    SkipEmpty(abs, Reduce(abs, [], Split(front, '/')));
  }

  lemma JoinedWithSlash(abs: bool, a: string, b: string)
    ensures Reduce(abs, [], Split(a + "/" + b, '/')) == Reduce(abs, Reduce(abs, [], Split(a, '/')), Split(b, '/'))
  {
    SplitAt(a, '/', b);
    assert a + ['/'] + b == a + "/" + b;
    ReduceAppend(abs, [], Split(a, '/'), Split(b, '/'));
  }

  /** Splitting a joined path reads the first path's components, then the second's. */
  lemma JoinedComponents(a: string, b: string)
    requires b == "" || b[0] != '/'
    ensures Slashes(JoinPath(a, b)) == Slashes(a)
    ensures Components(JoinPath(a, b)) == Reduce(Slashes(a) > 0, Components(a), Split(b, '/'))
  {
    var abs := Slashes(a) > 0;
    if a == "" {
      assert a + b == b;
      SkipEmpty(abs, []);
    } else if a[|a| - 1] == '/' {
      JoinedAfterSlash(abs, a, b);
    } else {
      JoinedWithSlash(abs, a, b);
    }
  }

  lemma SkipEmpty(abs: bool, comps: seq<string>)
    ensures Reduce(abs, comps, [""]) == comps
  {
    assert Reduce(abs, comps, [""]) == Reduce(abs, comps, [""][1..]);
  }

  /** A path may be normalised before something is joined to it, for every pair of paths. */
  lemma NormBeforeJoin(a: string, b: string)
    ensures Norm(JoinPath(Norm(a), b)) == Norm(JoinPath(a, b))
  {
    if b == "" || b[0] != '/' {
      NormIdempotent(a);
      JoinedComponents(a, b);
      JoinedComponents(Norm(a), b);
    }
  }

  // Directory and last component ----------------------------------------------------------------

  /** The offset just past the last slash; 0 when there is none. */
  function PastLastSlash(path: string): (end: nat)
    ensures end <= |path| && Without(path[end..], '/') && (end > 0 ==> path[end - 1] == '/')
  {
    if path == "" then 0
    else if path[|path| - 1] == '/' then |path|
    else
      var end := PastLastSlash(path[..|path| - 1]);
      assert path[end..] == path[..|path| - 1][end..] + [path[|path| - 1]];
      end
  }

  function TrimSlashes(s: string): (t: string)
    ensures t <= s && (t != "" ==> t[|t| - 1] != '/')
    ensures forall i :: |t| <= i < |s| ==> s[i] == '/'
  {
    if s != "" && s[|s| - 1] == '/' then TrimSlashes(s[..|s| - 1]) else s
  }

  function DirName(path: string): string {
    var head := path[..PastLastSlash(path)];
    if exists i :: 0 <= i < |head| && head[i] != '/' then TrimSlashes(head) else head
  }

  function BaseName(path: string): string {
    path[PastLastSlash(path)..]
  }

  lemma {:induction false} ReduceInnerSlashes(abs: bool, a: string, k: nat, b: string)
    requires k > 0
    ensures Reduce(abs, [], Split(a + seq(k, _ => '/') + b, '/')) == Reduce(abs, [], Split(a + "/" + b, '/'))
  {
    var run := seq(k - 1, _ => '/') + b;
    assert a + seq(k, _ => '/') + b == a + ['/'] + run && a + "/" + b == a + ['/'] + b;
    SplitAt(a, '/', run);
    SplitAt(a, '/', b);
    ReduceAppend(abs, [], Split(a, '/'), Split(run, '/'));
    ReduceAppend(abs, [], Split(a, '/'), Split(b, '/'));
    ReduceRun(abs, Reduce(abs, [], Split(a, '/')), k - 1, b);
  }

  /** The leading slashes of a path lie before its first other character. */
  lemma SlashesOfPrefix(a: string, x: string, y: string, i: nat)
    requires i < |a| && a[i] != '/'
    ensures Slashes(a + x) == Slashes(a + y)
  {
  }

  /** A run of slashes after a name is one slash. */
  lemma NormOfRun(dir: string, k: nat, base: string, i: nat)
    requires i < |dir| && dir[i] != '/' && k > 0
    ensures Norm(dir + seq(k, _ => '/') + base) == Norm(dir + "/" + base)
  {
    var run := seq(k, _ => '/');
    SlashesOfPrefix(dir, "/" + base, run + base, i);
    assert dir + ("/" + base) == dir + "/" + base;
    assert dir + (run + base) == dir + run + base;
    ReduceInnerSlashes(Slashes(dir + "/" + base) > 0, dir, k, base);
  }

  /** Joining a path's directory and last component leads back to the path. */
  lemma JoinDirAndBase(path: string)
    ensures Norm(JoinPath(DirName(path), BaseName(path))) == Norm(path)
  {
    var end := PastLastSlash(path);
    var head, base := path[..end], path[end..];
    assert path == head + base;
    if i :| 0 <= i < |head| && head[i] != '/' {
      var dir := TrimSlashes(head);
      var k := |head| - |dir|;
      assert i < |dir| && dir[i] == head[i];
      assert head == dir + seq(k, _ => '/');
      assert JoinPath(dir, base) == dir + "/" + base;
      NormOfRun(dir, k, base, i);
    } else {
      assert DirName(path) == head;
      assert JoinPath(head, base) == path;
    }
  }
}
