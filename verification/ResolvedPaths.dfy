/**
  What a resolved path is: free of links at every prefix, and a fixed point of
  resolution.
 */
module ResolvedPaths {
  import opened Text
  import opened Paths
  import opened LinkWalks

  /** Offset i ends a component prefix of the path. */
  predicate PrefixEnd(path: string, i: nat) {
    0 < i <= |path| && (i == |path| || path[i] == '/')
  }

  /** No component prefix of the path, itself included, is one of the given paths. */
  predicate Avoids(path: string, bad: set<string>) {
    forall i: nat :: i <= |path| && PrefixEnd(path, i) ==> path[..i] !in bad
  }

  /** The links that can be read. */
  function ReadableLinks(fs: Links): set<string> {
    set path | path in fs && fs[path].Link?
  }

  /** The readable links whose expansion ends somewhere. */
  ghost function EndingLinks(fs: Links): set<string> {
    set path | path in ReadableLinks(fs) && !Diverges(fs, Expansion(fs, path))
  }

  /** No component prefix is a link that can be read. */
  predicate NoLinks(fs: Links, path: string) {
    Avoids(path, ReadableLinks(fs))
  }

  lemma ParentAvoids(path: string, bad: set<string>)
    requires Avoids(path, bad) && "/" !in bad
    ensures Avoids(Parent(path), bad)
  {
    var p := Parent(path);
    forall i: nat | i <= |p| && PrefixEnd(p, i) ensures p[..i] !in bad {
      if PastLastSlash(path) > 1 {
        assert PrefixEnd(path, i) && path[..i] == p[..i];
      } else {
        assert p[..i] == "/";
      }
    }
  }

  lemma BelowAvoids(dir: string, name: string, bad: set<string>)
    requires Avoids(dir, bad) && Without(name, '/') && Below(dir, name) !in bad
    ensures Avoids(Below(dir, name), bad)
  {
    var path := Below(dir, name);
    forall i: nat | i <= |path| && PrefixEnd(path, i) ensures path[..i] !in bad {
      if i == |path| {
        assert path[..i] == path;
      } else if dir != "/" && i <= |dir| {
        assert PrefixEnd(dir, i) && dir[..i] == path[..i];
      }
    }
  }

  lemma RootAvoids(bad: set<string>)
    requires "/" !in bad
    ensures Avoids("/", bad)
  {
    forall i: nat | i <= 1 && PrefixEnd("/", i) ensures "/"[..i] !in bad {
      assert "/"[..i] == "/";
    }
  }

  lemma NextNoLinks(fs: Links, w: Walk)
    requires w.parts != [] && Clean(w.parts) && NoLinks(fs, w.at) && !IsLink(fs, "/")
    ensures NoLinks(fs, Next(fs, w).at) && Clean(Next(fs, w).parts)
  {
    var name := w.parts[0];
    ParentAvoids(w.at, ReadableLinks(fs));
    RootAvoids(ReadableLinks(fs));
    if Proper(name) {
      var path := Below(w.at, name);
      if IsLink(fs, path) {
        PartsAreWithout(fs[path].target, '/');
      } else {
        BelowAvoids(w.at, name, ReadableLinks(fs));
      }
    }
  }

  lemma {:induction false} EndNoLinks(fs: Links, w: Walk, v: string, n: nat)
    requires EndsAfter(fs, w, v, n) && Clean(w.parts) && NoLinks(fs, w.at) && !IsLink(fs, "/")
    ensures NoLinks(fs, v)
    decreases n
  {
    if w.parts == [] {
    } else {
      NextNoLinks(fs, w);
      EndNoLinks(fs, Next(fs, w), v, n - 1);
    }
  }

  /** When resolution meets no loop, no prefix of the result is a link that can be read. */
  lemma ResolvedNoLinks(fs: Links, path: string, cwd: string, v: string)
    requires EndsAt(fs, Start(path, cwd), v) && NoLinks(fs, Start(path, cwd).at) && !IsLink(fs, "/")
    ensures NoLinks(fs, v)
  {
    var n: nat :| EndsAfter(fs, Start(path, cwd), v, n);
    PartsAreWithout(path, '/');
    EndNoLinks(fs, Start(path, cwd), v, n);
  }

  // Absolute paths in canonical form ----------------------------------------------------

  /** The path of a list of names below the root. */
  function Under(names: seq<string>): (path: string)
    ensures path != ""
  {
    if names == [] then "/" else Below(Under(names[..|names| - 1]), names[|names| - 1])
  }

  predicate AllProper(names: seq<string>) {
    forall i :: 0 <= i < |names| ==> Proper(names[i])
  }

  ghost predicate Canonical(path: string) {
    exists names :: AllProper(names) && path == Under(names)
  }

  lemma CanonicalRoot()
    ensures Canonical("/")
  {
    assert AllProper([]) && "/" == Under([]);
  }

  lemma CanonicalParent(path: string)
    requires Canonical(path)
    ensures Canonical(Parent(path))
  {
    var names :| AllProper(names) && path == Under(names);
    if names == [] {
      CanonicalRoot();
      assert Parent("/") == "/";
    } else {
      var n := |names| - 1;
      ParentOfBelow(Under(names[..n]), names[n]);
      assert AllProper(names[..n]);
    }
  }

  lemma CanonicalBelow(path: string, name: string)
    requires Canonical(path) && Proper(name)
    ensures Canonical(Below(path, name))
  {
    var names :| AllProper(names) && path == Under(names);
    var longer := names + [name];
    assert longer[..|names|] == names;
    assert AllProper(longer) && Below(path, name) == Under(longer);
  }

  lemma {:induction false} EndCanonical(fs: Links, w: Walk, v: string, n: nat)
    requires EndsAfter(fs, w, v, n) && Clean(w.parts) && Canonical(w.at)
    ensures Canonical(v)
    decreases n
  {
    if w.parts == [] {
    } else {
      var name := w.parts[0];
      CanonicalParent(w.at);
      CanonicalRoot();
      if Proper(name) {
        CanonicalBelow(w.at, name);
        var path := Below(w.at, name);
        if IsLink(fs, path) {
          PartsAreWithout(fs[path].target, '/');
        }
      }
      EndCanonical(fs, Next(fs, w), v, n - 1);
    }
  }

  lemma {:induction false} SplitUnder(names: seq<string>)
    requires AllProper(names) && names != []
    ensures Split(Under(names), '/') == [""] + names
    decreases |names|
  {
    var n := |names| - 1;
    var name := names[n];
    SplitWithout(name, '/');
    if n == 0 {
      assert names[..0] == [];
      SplitSlash(name);
    } else {
      var dir := Under(names[..n]);
      assert AllProper(names[..n]);
      SplitUnder(names[..n]);
      NotRoot(names[..n]);
      SplitAt(dir, '/', name);
      assert dir + ['/'] + name == Under(names);
      assert [""] + names[..n] + [name] == [""] + names;
    }
  }

  lemma NotRoot(names: seq<string>)
    requires AllProper(names) && names != []
    ensures Under(names) != "/"
  {
    var n := |names| - 1;
    assert |Below(Under(names[..n]), names[n])| > 1;
  }

  lemma {:induction false} UnderNoLinks(fs: Links, names: seq<string>, k: nat)
    requires AllProper(names) && NoLinks(fs, Under(names)) && 0 < k <= |names|
    ensures !IsLink(fs, Under(names[..k]))
    decreases |names|
  {
    var n := |names| - 1;
    var path, dir := Under(names), Under(names[..n]);
    if k == |names| {
      assert names[..k] == names && path[..|path|] == path;
      assert PrefixEnd(path, |path|);
    } else {
      assert AllProper(names[..n]);
      NotRoot(names[..n]);
      forall i: nat | i <= |dir| && PrefixEnd(dir, i) ensures dir[..i] !in ReadableLinks(fs) {
        assert PrefixEnd(path, i) && path[..i] == dir[..i];
      }
      UnderNoLinks(fs, names[..n], k);
      assert names[..n][..k] == names[..k];
    }
  }

  /** Walking down the names of a path without links arrives at the path. */
  lemma {:induction false} WalkDown(fs: Links, names: seq<string>, k: nat)
    requires AllProper(names) && NoLinks(fs, Under(names)) && k <= |names|
    ensures EndsAfter(fs, Walk(Under(names[..k]), names[k..]), Under(names), |names| - k)
    decreases |names| - k
  {
    if k == |names| {
      assert names[..k] == names && names[k..] == [];
    } else {
      UnderNoLinks(fs, names, k + 1);
      assert names[..k + 1][..k] == names[..k];
      assert names[k..][1..] == names[k + 1..];
      WalkDown(fs, names, k + 1);
      assert Next(fs, Walk(Under(names[..k]), names[k..])) == Walk(Under(names[..k + 1]), names[k + 1..]);
    }
  }

  lemma CanonicalFixed(fs: Links, v: string, cwd: string)
    requires Canonical(v) && NoLinks(fs, v)
    ensures EndsAt(fs, Start(v, cwd), v)
  {
    var names :| AllProper(names) && v == Under(names);
    if names == [] {
      SplitSlash("");
      assert Start(v, cwd) == Walk("/", ["", ""]);
      assert ["", ""][1..] == [""] && [""][1..] == [];
      assert EndsAfter(fs, Walk("/", []), "/", 0);
      assert EndsAfter(fs, Walk("/", [""]), "/", 1);
      assert EndsAfter(fs, Walk("/", ["", ""]), "/", 2);
    } else {
      SplitUnder(names);
      StartsAtRoot(names);
      WalkDown(fs, names, 0);
      assert names[..0] == [] && names[0..] == names;
      assert ([""] + names)[1..] == names;
      assert EndsAfter(fs, Walk("/", [""] + names), v, |names| + 1);
    }
  }

  lemma {:induction false} StartsAtRoot(names: seq<string>)
    requires AllProper(names)
    ensures Absolute(Under(names))
    decreases |names|
  {
    if names == [] {
    } else {
      assert AllProper(names[..|names| - 1]);
      StartsAtRoot(names[..|names| - 1]);
    }
  }

  /**
    A canonical path resolves to itself exactly when no prefix of it is a link
    that can be read; links that cannot be read stay.
   */
  lemma FixedExactly(fs: Links, v: string, cwd: string)
    requires Canonical(v) && !IsLink(fs, "/")
    ensures EndsAt(fs, Start(v, cwd), v) <==> NoLinks(fs, v)
  {
    if EndsAt(fs, Start(v, cwd), v) {
      var names :| AllProper(names) && v == Under(names);
      StartsAtRoot(names);
      RootAvoids(ReadableLinks(fs));
      ResolvedNoLinks(fs, v, cwd, v);
    }
    if NoLinks(fs, v) {
      CanonicalFixed(fs, v, cwd);
    }
  }

  /** Resolving a resolved path again, from anywhere, changes nothing. */
  lemma ResolvedTwice(fs: Links, path: string, cwd: string, v: string, other: string)
    requires EndsAt(fs, Start(path, cwd), v) && !IsLink(fs, "/")
    requires Canonical(Start(path, cwd).at) && NoLinks(fs, Start(path, cwd).at)
    ensures EndsAt(fs, Start(v, other), v)
  {
    ResolvedNoLinks(fs, path, cwd, v);
    var n: nat :| EndsAfter(fs, Start(path, cwd), v, n);
    PartsAreWithout(path, '/');
    EndCanonical(fs, Start(path, cwd), v, n);
    CanonicalFixed(fs, v, other);
  }
}
