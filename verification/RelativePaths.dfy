/**
  Relative paths: exactly when joining one to its start leads to its target.
 */
module RelativePaths {
  import opened Text
  import opened Paths

  function AbsPath(path: string, cwd: string): string {
    Norm(JoinPath(cwd, path))
  }

  function NonEmpty(parts: seq<string>): seq<string> {
    if parts == [] then []
    else if parts[0] == "" then NonEmpty(parts[1..])
    else [parts[0]] + NonEmpty(parts[1..])
  }

  function PathList(path: string): seq<string> {
    NonEmpty(Split(path, '/'))
  }

  /** How many components two lists share from the front. */
  function Common(a: seq<string>, b: seq<string>): (c: nat)
    ensures c <= |a| && c <= |b| && a[..c] == b[..c]
    ensures c < |a| && c < |b| ==> a[c] != b[c]
  {
    if a == [] || b == [] || a[0] != b[0] then 0
    else
      var c := Common(a[1..], b[1..]);
      assert a[..c + 1] == [a[0]] + a[1..][..c] && b[..c + 1] == [b[0]] + b[1..][..c];
      1 + c
  }

  function Up(n: nat): seq<string> {
    seq(n, _ => "..")
  }

  function RelativeParts(start: seq<string>, path: seq<string>): seq<string> {
    var c := Common(start, path);
    Up(|start| - c) + path[c..]
  }

  function RelPath(path: string, start: string, cwd: string): string {
    var rel := RelativeParts(PathList(AbsPath(start, cwd)), PathList(AbsPath(path, cwd)));
    if rel == [] then "." else Join(rel, '/')
  }

  // The lists of normal forms ----------------------------------------------------------

  lemma {:induction false} NonEmptySkips(k: nat, rest: string)
    ensures NonEmpty(Split(seq(k, _ => '/') + rest, '/')) == NonEmpty(Split(rest, '/'))
    decreases k
  {
    if k == 0 {
      assert seq(k, _ => '/') + rest == rest;
    } else {
      var tail := seq(k - 1, _ => '/') + rest;
      assert seq(k, _ => '/') + rest == "/" + tail;
      SplitSlash(tail);
      assert ([""] + Split(tail, '/'))[1..] == Split(tail, '/');
      NonEmptySkips(k - 1, rest);
    }
  }

  lemma {:induction false} NonEmptyKeeps(parts: seq<string>)
    requires forall i :: 0 <= i < |parts| ==> parts[i] != ""
    ensures NonEmpty(parts) == parts
  {
    if parts == [] {
    } else {
      NonEmptyKeeps(parts[1..]);
      assert parts == [parts[0]] + parts[1..];
    }
  }

  function ListOf(k: nat, comps: seq<string>): seq<string> {
    if k == 0 && comps == [] then ["."] else comps
  }

  lemma PathListOf(k: nat, comps: seq<string>)
    requires Normal(k > 0, comps)
    ensures PathList(Render(k, comps)) == ListOf(k, comps)
  {
    if comps == [] {
      if k == 0 {
        SplitWithout(".", '/');
        NonEmptyKeeps(["."]);
      } else {
        NonEmptySkips(k, "");
        assert Split("", '/') == [""] && [""][1..] == [];
      }
    } else {
      forall i: nat | i < |comps| ensures comps[i] != "" {
        assert NormalAt(k > 0, comps, i);
      }
      NormalIsClean(k > 0, comps);
      NonEmptySkips(k, JoinAll(comps));
      SplitOfJoin(comps, '/');
      NonEmptyKeeps(comps);
    }
  }

  // Going up ---------------------------------------------------------------------------------

  lemma {:induction false} PopAll(abs: bool, base: seq<string>, top: seq<string>)
    requires ".." !in top
    ensures Reduce(abs, base + top, Up(|top|)) == base
    decreases |top|
  {
    if top == [] {
      assert base + top == base;
    } else {
      var n := |top| - 1;
      assert (base + top)[..|base| + n] == base + top[..n];
      assert (base + top)[|base| + n] == top[n];
      assert Up(|top|)[1..] == Up(n);
      PopAll(abs, base, top[..n]);
    }
  }

  lemma Descend(abs: bool, a: seq<string>, c: nat)
    requires c <= |a| && ".." !in a[c..]
    ensures Reduce(abs, a, Up(|a| - c)) == a[..c]
  {
    assert a == a[..c] + a[c..];
    PopAll(abs, a[..c], a[c..]);
  }

  lemma ReadsOn(abs: bool, b: seq<string>, c: nat)
    requires Normal(abs, b) && c <= |b|
    ensures Reduce(abs, b[..c], b[c..]) == b
  {
    assert b[..c] + b[c..] == b;
    ReduceKeeps(abs, b[..c], b[c..]);
  }

  /** With no ".." to climb past, going up to what is shared and down again arrives. */
  lemma UpAndDown(abs: bool, a: seq<string>, b: seq<string>, c: nat)
    requires Normal(abs, b) && c <= |a| && c <= |b| && a[..c] == b[..c] && ".." !in a[c..]
    ensures Reduce(abs, a, Up(|a| - c) + b[c..]) == b
  {
    ReduceAppend(abs, a, Up(|a| - c), b[c..]);
    Descend(abs, a, c);
    ReadsOn(abs, b, c);
  }

  /** The length of the leading run of "..". */
  function Climb(comps: seq<string>): (n: nat)
    ensures n <= |comps| && (forall i :: 0 <= i < n ==> comps[i] == "..") && (n < |comps| ==> comps[n] != "..")
  {
    if comps == [] || comps[0] != ".." then 0 else 1 + Climb(comps[1..])
  }

  lemma PushClimbs(comps: seq<string>, comp: string)
    ensures Climb(Push(false, comps, comp)) >= Climb(comps)
  {
    var n := Climb(comps);
    var next := Push(false, comps, comp);
    assert forall i :: 0 <= i < n ==> next[i] == "..";
  }

  lemma {:induction false} ReduceClimbs(comps: seq<string>, parts: seq<string>)
    ensures Climb(Reduce(false, comps, parts)) >= Climb(comps)
    decreases |parts|
  {
    if parts == [] {
    } else {
      PushClimbs(comps, parts[0]);
      ReduceClimbs(Push(false, comps, parts[0]), parts[1..]);
    }
  }

  lemma {:induction false} LeadingDots(comps: seq<string>, j: nat)
    requires Normal(false, comps) && j < |comps| && comps[j] == ".."
    ensures forall i :: 0 <= i <= j ==> comps[i] == ".."
    decreases j
  {
    assert NormalAt(false, comps, j);
    if j == 0 {
    } else {
      LeadingDots(comps, j - 1);
    }
  }

  /** A start that climbs beyond what is shared cannot be left by going up further. */
  lemma ClimbsTooFar(a: seq<string>, b: seq<string>, c: nat, parts: seq<string>)
    requires Normal(false, a) && c <= |a| && c <= |b| && a[..c] == b[..c] && ".." in a[c..]
    requires c < |a| && c < |b| ==> a[c] != b[c]
    ensures Reduce(false, a, parts) != b
  {
    var j :| 0 <= j < |a[c..]| && a[c..][j] == "..";
    LeadingDots(a, c + j);
    assert a[c] == "..";
    assert Climb(a) > c;
    assert Climb(b) <= c;
    ReduceClimbs(a, parts);
  }

  // The law ------------------------------------------------------------------------------------

  /** The relative path, read after the start's components. */
  lemma RelativeComponents(k: nat, a: seq<string>, l: nat, b: seq<string>)
    requires k <= 2 && l <= 2 && Normal(k > 0, a) && Normal(l > 0, b)
    ensures var rel := RelativeParts(ListOf(k, a), ListOf(l, b));
      var text := if rel == [] then "." else Join(rel, '/');
      Norm(JoinPath(Render(k, a), text)) == Render(k, Reduce(k > 0, a, rel))
  {
    var rel := RelativeParts(ListOf(k, a), ListOf(l, b));
    var text := if rel == [] then "." else Join(rel, '/');
    ParseRender(k, a);
    if rel == [] {
      SplitWithout(".", '/');
      assert ["."][1..] == [];
    } else {
      RelativeClean(k, a, l, b);
      SplitOfJoin(rel, '/');
    }
    JoinedComponents(Render(k, a), text);
  }

  lemma RelativeClean(k: nat, a: seq<string>, l: nat, b: seq<string>)
    requires Normal(l > 0, b) && RelativeParts(ListOf(k, a), ListOf(l, b)) != []
    ensures var rel := RelativeParts(ListOf(k, a), ListOf(l, b));
      Clean(rel) && Join(rel, '/') != "" && Join(rel, '/')[0] != '/'
  {
    var rel := RelativeParts(ListOf(k, a), ListOf(l, b));
    forall i: nat | i < |rel| ensures Without(rel[i], '/') && rel[i] != "" {
      var c := Common(ListOf(k, a), ListOf(l, b));
      var n := |ListOf(k, a)| - c;
      if i >= n {
        assert rel[i] == ListOf(l, b)[c + i - n];
        if b != [] {
          assert NormalAt(l > 0, b, c + i - n);
        }
      } else {
        assert rel[i] == "..";
      }
    }
    assert rel[0][0] != '/';
  }

  /** A start list and a target list between which going up and down works. */
  predicate Reaches(s: seq<string>, p: seq<string>) {
    ".." !in s[Common(s, p)..] && (s == ["."] ==> p == ["."])
  }

  lemma NotDot(abs: bool, comps: seq<string>)
    requires Normal(abs, comps) && comps != []
    ensures comps[0] != "." && comps != ["."]
  {
    assert NormalAt(abs, comps, 0);
  }

  lemma FromHere(b: seq<string>)
    requires Normal(false, b)
    ensures Reduce(false, [], RelativeParts(["."], ListOf(0, b))) == b <==> b == []
  {
    if b == [] {
      assert RelativeParts(["."], ["."]) == [];
    } else {
      NotDot(false, b);
      assert RelativeParts(["."], b) == [".."] + b;
      assert [] + ([".."] + b) == [".."] + b;
      UnderParent(b);
      ReduceKeeps(false, [], [".."] + b);
    }
  }

  lemma UnderParent(b: seq<string>)
    requires Normal(false, b)
    ensures Normal(false, [".."] + b)
  {
    forall i: nat | i < |b| + 1 ensures NormalAt(false, [".."] + b, i) {
      if i > 0 {
        assert NormalAt(false, b, i - 1);
      }
    }
  }

  lemma ToHere(a: seq<string>)
    requires Normal(false, a) && a != []
    ensures Reduce(false, a, RelativeParts(a, ["."])) == [] <==> ".." !in a
    ensures Common(a, ["."]) == 0
  {
    NotDot(false, a);
    assert RelativeParts(a, ["."]) == Up(|a|) + ["."];
    assert a[0..] == a && a[..0] == [];
    if ".." in a {
      ClimbsTooFar(a, [], 0, RelativeParts(a, ["."]));
    } else {
      ReduceAppend(false, a, Up(|a|), ["."]);
      Descend(false, a, 0);
      assert ["."][1..] == [];
    }
  }

  lemma Between(abs: bool, a: seq<string>, b: seq<string>)
    requires Normal(abs, a) && Normal(abs, b)
    ensures Reduce(abs, a, RelativeParts(a, b)) == b <==> ".." !in a[Common(a, b)..]
  {
    var c := Common(a, b);
    if ".." in a[c..] {
      var j :| 0 <= j < |a[c..]| && a[c..][j] == "..";
      assert NormalAt(abs, a, c + j);
      ClimbsTooFar(a, b, c, RelativeParts(a, b));
    } else {
      UpAndDown(abs, a, b, c);
    }
  }

  lemma ReducesExactly(k: nat, a: seq<string>, b: seq<string>)
    requires Normal(k > 0, a) && Normal(k > 0, b)
    ensures var s, p := ListOf(k, a), ListOf(k, b);
      Reduce(k > 0, a, RelativeParts(s, p)) == b <==> Reaches(s, p)
  {
    if a != [] {
      NotDot(k > 0, a);
    }
    if b != [] {
      NotDot(k > 0, b);
    }
    if k == 0 && a == [] {
      FromHere(b);
    } else if k == 0 && b == [] {
      ToHere(a);
      assert a[0..] == a;
    } else {
      Between(k > 0, a, b);
    }
  }

  /**
    Joining the relative path to the start leads to the target exactly when
    the two absolute paths keep the same leading slashes, the start does not
    climb with ".." beyond what they share, and a start that is the bare
    current directory has the same target.
   */
  lemma RelPathExactly(path: string, start: string, cwd: string)
    ensures Norm(JoinPath(AbsPath(start, cwd), RelPath(path, start, cwd))) == AbsPath(path, cwd) <==>
      && Slashes(AbsPath(start, cwd)) == Slashes(AbsPath(path, cwd))
      && Reaches(PathList(AbsPath(start, cwd)), PathList(AbsPath(path, cwd)))
  {
    var from, to := JoinPath(cwd, start), JoinPath(cwd, path);
    var k, a, l, b := Slashes(from), Components(from), Slashes(to), Components(to);
    ComponentsNormal(from);
    ComponentsNormal(to);
    ParseRender(k, a);
    ParseRender(l, b);
    PathListOf(k, a);
    PathListOf(l, b);
    RelativeComponents(k, a, l, b);
    var rel := RelativeParts(ListOf(k, a), ListOf(l, b));
    RelativeStaysNormal(k, a, l, b);
    if k == l {
      ReducesExactly(k, a, b);
    }
    if Render(k, Reduce(k > 0, a, rel)) == Render(l, b) {
      RenderInjective(k, Reduce(k > 0, a, rel), l, b);
    }
  }

  lemma RelativeStaysNormal(k: nat, a: seq<string>, l: nat, b: seq<string>)
    requires Normal(k > 0, a) && Normal(l > 0, b)
    ensures Normal(k > 0, Reduce(k > 0, a, RelativeParts(ListOf(k, a), ListOf(l, b))))
  {
    var rel := RelativeParts(ListOf(k, a), ListOf(l, b));
    if rel != [] {
      RelativeClean(k, a, l, b);
    }
    ReduceNormal(k > 0, a, rel);
  }

  /** For absolute paths with one leading slash the law always holds. */
  lemma RelPathOfAbsolute(path: string, start: string, cwd: string)
    requires Slashes(AbsPath(start, cwd)) == 1 && Slashes(AbsPath(path, cwd)) == 1
    ensures Norm(JoinPath(AbsPath(start, cwd), RelPath(path, start, cwd))) == AbsPath(path, cwd)
  {
    var from := JoinPath(cwd, start);
    var a := Components(from);
    RelPathExactly(path, start, cwd);
    NormIdempotent(from);
    ComponentsNormal(from);
    PathListOf(1, a);
    if a != [] {
      NotDot(true, a);
    }
    forall i: nat | i < |a| ensures a[i] != ".." {
      assert NormalAt(true, a, i);
    }
  }

  lemma NormOfName(name: string)
    requires Normal(false, [name])
    ensures Norm(name) == name && Slashes(name) == 0 && PathList(name) == [name]
  {
    ParseRender(0, [name]);
    PathListOf(0, [name]);
    assert Render(0, [name]) == name by {
      assert NormalAt(false, [name], 0);
      assert seq(0, _ => '/') + name == name;
    }
  }

  /** Relative to a bare current directory the law fails: "a" seen from "." becomes "../a". */
  lemma RelPathFromBareDirectory()
    ensures Norm(JoinPath(AbsPath("", ""), RelPath("a", "", ""))) != AbsPath("a", "")
  {
    assert JoinPath("", "") == "" && JoinPath("", "a") == "a";
    assert Normal(false, ["a"]);
    NormOfName("a");
    SkipEmpty(false, []);
    assert AbsPath("", "") == Render(0, []);
    PathListOf(0, []);
    RelPathExactly("a", "", "");
  }
}
