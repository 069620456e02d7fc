/**
  Symbolic-link resolution: the memoised resolver against plain expansion of
  links, and what is left of links in its result.
 */
module Realpath {
  import opened Basics
  import opened Text
  import opened Paths
  import opened LinkWalks
  import opened ResolvedPaths

  // The resolver's stack --------------------------------------------------------------------

  /** A component still to follow, or the note that a link's expansion ends here. */
  datatype Frame = Name(name: string) | Mark(link: string)

  /** The components on a stack, from its top, which is the last frame. */
  function Names(rest: seq<Frame>): seq<string> {
    if rest == [] then []
    else
      var n := |rest| - 1;
      Word(rest[n]) + Names(rest[..n])
  }

  function Word(f: Frame): seq<string> {
    match f case Name(name) => [name] case Mark(_) => []
  }

  lemma Regroup(a: seq<string>, b: seq<string>, c: seq<string>)
    ensures a + (b + c) == (a + b) + c
  {
  }

  lemma {:induction false} NamesOfTwo(a: seq<Frame>, b: seq<Frame>)
    ensures Names(a + b) == Names(b) + Names(a)
    decreases |b|
  {
    if b == [] {
      assert a + b == a;
    } else {
      var n := |b| - 1;
      assert (a + b)[..|a| + n] == a + b[..n];
      NamesOfTwo(a, b[..n]);
      Regroup(Word(b[n]), Names(b[..n]), Names(a));
    }
  }

  lemma NamesOfOne(f: Frame)
    ensures Names([f]) == Word(f)
  {
    assert [f][..0] == [];
  }

  /** Components as frames to push, first component on top. */
  function Frames(parts: seq<string>): seq<Frame> {
    if parts == [] then [] else Frames(parts[1..]) + [Name(parts[0])]
  }

  lemma {:induction false} NamesOfFrames(parts: seq<string>)
    ensures Names(Frames(parts)) == parts
    ensures forall i :: 0 <= i < |Frames(parts)| ==> Frames(parts)[i].Name? && Frames(parts)[i].name in parts
    decreases |parts|
  {
    if parts == [] {
    } else {
      NamesOfFrames(parts[1..]);
      NamesOfTwo(Frames(parts[1..]), [Name(parts[0])]);
      NamesOfOne(Name(parts[0]));
      assert parts == [parts[0]] + parts[1..];
    }
  }

  /** What has been recorded of a link: resolved to a path, or still being resolved. */
  type Seen = map<string, Option<string>>

  lemma NamesOnTop(rest: seq<Frame>, f: Frame, i: nat)
    requires i <= |rest|
    ensures Names((rest + [f])[i..]) == Word(f) + Names(rest[i..])
  {
    assert (rest + [f])[i..] == rest[i..] + [f];
    NamesOfTwo(rest[i..], [f]);
    NamesOfOne(f);
  }

  lemma NamesUnderMark(rest: seq<Frame>, link: string, i: nat)
    requires i <= |rest|
    ensures Names((rest + [Mark(link)])[i..]) == Names(rest[i..])
  {
    NamesOnTop(rest, Mark(link), i);
    assert [] + Names(rest[i..]) == Names(rest[i..]);
  }

  /** The stack after expanding a link in place of the name on top. */
  function Expanded(rest: seq<Frame>, link: string, parts: seq<string>): seq<Frame> {
    rest + [Mark(link)] + Frames(parts)
  }

  lemma ExpandedNames(rest: seq<Frame>, link: string, parts: seq<string>, i: nat)
    requires i <= |rest|
    ensures Names(Expanded(rest, link, parts)[i..]) == parts + Names(rest[i..])
  {
    var marked := rest + [Mark(link)];
    assert (marked + Frames(parts))[i..] == marked[i..] + Frames(parts);
    NamesOfTwo(marked[i..], Frames(parts));
    NamesOfFrames(parts);
    NamesUnderMark(rest, link, i);
  }

  lemma WholeStack(rest: seq<Frame>)
    ensures rest[0..] == rest
  {
  }

  // On the way, or past a loop ---------------------------------------------------------------

  /** Where the resolver is, what is left on its stack, what it has recorded, and whether it has met a loop. */
  datatype Progress = Progress(at: string, rest: seq<Frame>, seen: Seen, looped: bool)

  /** The walk has come from a to b, unless a loop has been met and a never ends. */
  ghost predicate Way(fs: Links, looped: bool, a: Walk, b: Walk) {
    OnWay(fs, a, b) || (looped && Diverges(fs, a))
  }

  /** Every mark of the stack is on its link's way. */
  ghost predicate MarkAt(fs: Links, p: Progress, i: nat)
    requires i < |p.rest|
  {
    p.rest[i].Mark? ==>
      && IsLink(fs, p.rest[i].link)
      && Way(fs, p.looped, Expansion(fs, p.rest[i].link), Walk(p.at, Names(p.rest[i + 1..])))
  }

  ghost predicate Marks(fs: Links, p: Progress) {
    forall i: nat :: i < |p.rest| ==> MarkAt(fs, p, i)
  }

  /** A link recorded as resolved leads there, unless it never ends; any other is still on the stack. */
  ghost predicate Known(fs: Links, p: Progress, link: string)
    requires link in p.seen
  {
    && IsLink(fs, link)
    && match p.seen[link]
       case None => Mark(link) in p.rest
       case Some(path) =>
         EndsAt(fs, Expansion(fs, link), Root(path)) || (p.looped && Diverges(fs, Expansion(fs, link)))
  }

  ghost predicate AllKnown(fs: Links, p: Progress) {
    forall link :: link in p.seen ==> Known(fs, p, link)
  }

  ghost predicate Tracked(fs: Links, start: Walk, p: Progress) {
    && p.at != ""
    && (p.looped ==> Diverges(fs, start))
    && Way(fs, p.looped, start, Walk(p.at, Names(p.rest)))
    && Marks(fs, p) && AllKnown(fs, p)
  }

  lemma WayFurther(fs: Links, looped: bool, a: Walk, b: Walk, met: bool, c: Walk)
    requires Way(fs, looped, a, b) && (OnWay(fs, b, c) || (met && Diverges(fs, b)))
    ensures Way(fs, looped || met, a, c)
  {
    if OnWay(fs, a, b) {
      if OnWay(fs, b, c) {
        OnWayFurther(fs, a, b, c);
      } else {
        DivergesBefore(fs, a, b);
      }
    }
  }

  /** Following the name from `at` leads to `to`, whatever comes after, or, if it met a loop, nowhere. */
  ghost predicate Passes(fs: Links, at: string, name: string, to: string, met: bool) {
    forall rest :: Passed(fs, at, name, to, met, rest)
  }

  ghost predicate Passed(fs: Links, at: string, name: string, to: string, met: bool, rest: seq<string>) {
    if met then Diverges(fs, Walk(at, [name] + rest)) else OnWay(fs, Walk(at, [name] + rest), Walk(to, rest))
  }

  lemma PassesStep(fs: Links, at: string, name: string, to: string)
    requires Next(fs, Walk(at, [name])) == Walk(to, [])
    ensures Passes(fs, at, name, to, false)
  {
    forall rest ensures Passed(fs, at, name, to, false, rest) {
      NextOfLonger(fs, at, [name], rest);
      assert [] + rest == rest;
      OnWayStep(fs, Walk(at, [name] + rest));
    }
  }

  lemma PassesJump(fs: Links, at: string, name: string, to: string)
    requires at != "" && Proper(name) && IsLink(fs, Below(at, name))
    requires EndsAt(fs, Expansion(fs, Below(at, name)), to)
    ensures Passes(fs, at, name, to, false)
  {
    var e := Expansion(fs, Below(at, name));
    forall rest ensures Passed(fs, at, name, to, false, rest) {
      StepIntoLink(fs, at, name, rest);
      OnWayStep(fs, Walk(at, [name] + rest));
      OnWayJump(fs, e.at, e.parts, to, rest);
      OnWayFurther(fs, Walk(at, [name] + rest), Walk(e.at, e.parts + rest), Walk(to, rest));
    }
  }

  lemma PassesNowhere(fs: Links, at: string, name: string, to: string)
    requires at != "" && Proper(name) && IsLink(fs, Below(at, name))
    requires Diverges(fs, Expansion(fs, Below(at, name)))
    ensures Passes(fs, at, name, to, true)
  {
    forall rest ensures Passed(fs, at, name, to, true, rest) {
      DivergingName(fs, at, name, rest);
    }
  }

  // Following a name ---------------------------------------------------------------------------

  lemma MarkPass(fs: Links, p: Progress, name: string, q: Progress, met: bool, i: nat)
    requires p.rest == q.rest + [Name(name)] && q.looped == (p.looped || met) && i < |q.rest|
    requires MarkAt(fs, p, i) && Passes(fs, p.at, name, q.at, met)
    ensures MarkAt(fs, q, i)
  {
    if q.rest[i].Mark? {
      var rest := Names(q.rest[i + 1..]);
      NamesOnTop(q.rest, Name(name), i + 1);
      assert Passed(fs, p.at, name, q.at, met, rest);
      WayFurther(fs, p.looped, Expansion(fs, q.rest[i].link), Walk(p.at, [name] + rest), met, Walk(q.at, rest));
    }
  }

  lemma KnownPass(fs: Links, p: Progress, name: string, q: Progress)
    requires p.rest == q.rest + [Name(name)] && q.seen == p.seen && (p.looped ==> q.looped) && AllKnown(fs, p)
    ensures AllKnown(fs, q)
  {
    forall link | link in q.seen ensures Known(fs, q, link) {
      assert Known(fs, p, link);
    }
  }

  lemma TrackedPass(fs: Links, start: Walk, p: Progress, name: string, q: Progress, met: bool)
    requires Tracked(fs, start, p) && Passes(fs, p.at, name, q.at, met) && q.at != ""
    requires p.rest == q.rest + [Name(name)] && q.seen == p.seen && q.looped == (p.looped || met)
    ensures Tracked(fs, start, q)
  {
    forall i: nat | i < |q.rest| ensures MarkAt(fs, q, i) {
      assert MarkAt(fs, p, i);
      MarkPass(fs, p, name, q, met, i);
    }
    KnownPass(fs, p, name, q);
    NamesOnTop(q.rest, Name(name), 0);
    WholeStack(p.rest);
    WholeStack(q.rest);
    assert Passed(fs, p.at, name, q.at, met, Names(q.rest));
    WayFurther(fs, p.looped, start, Walk(p.at, [name] + Names(q.rest)), met, Walk(q.at, Names(q.rest)));
    if met {
      if OnWay(fs, start, Walk(p.at, [name] + Names(q.rest))) {
        DivergesBefore(fs, start, Walk(p.at, [name] + Names(q.rest)));
      }
    }
  }

  // The end of a link's expansion ----------------------------------------------------------------

  lemma MarkEnds(fs: Links, p: Progress, rest: seq<Frame>, link: string)
    requires p.rest == rest + [Mark(link)] && Marks(fs, p)
    ensures IsLink(fs, link)
    ensures EndsAt(fs, Expansion(fs, link), p.at) || (p.looped && Diverges(fs, Expansion(fs, link)))
  {
    assert MarkAt(fs, p, |rest|);
    assert p.rest[|rest| + 1..] == [];
    assert EndsAfter(fs, Walk(p.at, []), p.at, 0);
  }

  lemma MarksUnderMark(fs: Links, p: Progress, q: Progress, link: string)
    requires p.rest == q.rest + [Mark(link)] && Marks(fs, p) && q.at == p.at && q.looped == p.looped
    ensures Marks(fs, q)
  {
    forall i: nat | i < |q.rest| ensures MarkAt(fs, q, i) {
      assert MarkAt(fs, p, i);
      NamesUnderMark(q.rest, link, i + 1);
    }
  }

  lemma TrackedMark(fs: Links, start: Walk, p: Progress, q: Progress, link: string, path: string)
    requires Tracked(fs, start, p) && p.rest == q.rest + [Mark(link)] && Root(path) == p.at
    requires q == Progress(p.at, q.rest, p.seen[link := Some(path)], p.looped)
    ensures Tracked(fs, start, q)
  {
    MarkEnds(fs, p, q.rest, link);
    MarksUnderMark(fs, p, q, link);
    NamesUnderMark(q.rest, link, 0);
    WholeStack(p.rest);
    WholeStack(q.rest);
    forall l | l in q.seen ensures Known(fs, q, l) {
      if l != link {
        assert Known(fs, p, l);
      }
    }
  }

  // Expanding a link -----------------------------------------------------------------------------

  lemma IntoLink(fs: Links, looped: bool, start: Walk, at: string, name: string, rest: seq<string>)
    requires at != "" && Proper(name) && IsLink(fs, Below(at, name))
    requires Way(fs, looped, start, Walk(at, [name] + rest))
    ensures var e := Expansion(fs, Below(at, name));
      Way(fs, looped, start, Walk(e.at, e.parts + rest))
  {
    StepIntoLink(fs, at, name, rest);
    OnWayStep(fs, Walk(at, [name] + rest));
    WayFurther(fs, looped, start, Walk(at, [name] + rest), false, Next(fs, Walk(at, [name] + rest)));
  }

  /** q follows p by expanding the link that the name on top leads to. */
  ghost predicate Expands(fs: Links, p: Progress, name: string, rest: seq<Frame>, q: Progress) {
    && p.at != "" && Proper(name) && IsLink(fs, Below(p.at, name)) && p.rest == rest + [Name(name)]
    && var link := Below(p.at, name);
       var e := Expansion(fs, link);
       q == Progress(e.at, Expanded(rest, link, e.parts), p.seen[link := None], p.looped)
  }

  lemma MarkExpand(fs: Links, p: Progress, name: string, rest: seq<Frame>, q: Progress, i: nat)
    requires Expands(fs, p, name, rest, q) && i < |rest| && MarkAt(fs, p, i)
    ensures MarkAt(fs, q, i)
  {
    var link := Below(p.at, name);
    assert q.rest[i] == rest[i];
    if rest[i].Mark? {
      ExpandedNames(rest, link, Expansion(fs, link).parts, i + 1);
      NamesOnTop(rest, Name(name), i + 1);
      IntoLink(fs, p.looped, Expansion(fs, rest[i].link), p.at, name, Names(rest[i + 1..]));
    }
  }

  lemma MarkOfExpanded(fs: Links, p: Progress, name: string, rest: seq<Frame>, q: Progress, i: nat)
    requires Expands(fs, p, name, rest, q) && |rest| <= i < |q.rest|
    ensures MarkAt(fs, q, i)
  {
    var link := Below(p.at, name);
    var e := Expansion(fs, link);
    NamesOfFrames(e.parts);
    if i == |rest| {
      assert q.rest[i + 1..] == Frames(e.parts);
      OnWayHere(fs, e);
    } else {
      assert q.rest[i] == Frames(e.parts)[i - |rest| - 1];
    }
  }

  lemma KnownExpand(fs: Links, p: Progress, name: string, rest: seq<Frame>, q: Progress)
    requires Expands(fs, p, name, rest, q) && AllKnown(fs, p)
    ensures AllKnown(fs, q)
  {
    var link := Below(p.at, name);
    forall l | l in q.seen ensures Known(fs, q, l) {
      if l != link {
        assert Known(fs, p, l);
      } else {
        assert q.rest[|rest|] == Mark(link);
      }
    }
  }

  lemma TrackedExpand(fs: Links, start: Walk, p: Progress, name: string, rest: seq<Frame>, q: Progress)
    requires Tracked(fs, start, p) && Expands(fs, p, name, rest, q)
    ensures Tracked(fs, start, q)
  {
    forall i: nat | i < |q.rest| ensures MarkAt(fs, q, i) {
      if i < |rest| {
        assert MarkAt(fs, p, i);
        MarkExpand(fs, p, name, rest, q, i);
      } else {
        MarkOfExpanded(fs, p, name, rest, q, i);
      }
    }
    KnownExpand(fs, p, name, rest, q);
    ExpandedNames(rest, Below(p.at, name), Expansion(fs, Below(p.at, name)).parts, 0);
    NamesOnTop(rest, Name(name), 0);
    WholeStack(p.rest);
    WholeStack(q.rest);
    WholeStack(rest);
    IntoLink(fs, p.looped, start, p.at, name, Names(rest));
  }

  // Links met before --------------------------------------------------------------------------------

  lemma MarkedLoop(fs: Links, p: Progress, rest: seq<Frame>, name: string, i: nat)
    requires p.at != "" && p.rest == rest + [Name(name)] && Proper(name) && i < |rest| && MarkAt(fs, p, i)
    requires rest[i] == Mark(Below(p.at, name))
    ensures IsLink(fs, Below(p.at, name)) && Diverges(fs, Expansion(fs, Below(p.at, name)))
  {
    var e, above := Expansion(fs, rest[i].link), Names(rest[i + 1..]);
    NamesOnTop(rest, Name(name), i + 1);
    if OnWay(fs, e, Walk(p.at, [name] + above)) {
      LoopDiverges(fs, p.at, name, above);
      DivergesBefore(fs, e, Walk(p.at, [name] + above));
    }
  }

  /** A link met again while it is being resolved never ends, however the walk got there. */
  lemma MetAgainDiverges(fs: Links, start: Walk, p: Progress, rest: seq<Frame>, name: string)
    requires Tracked(fs, start, p) && p.rest == rest + [Name(name)] && Proper(name)
    requires Below(p.at, name) in p.seen && p.seen[Below(p.at, name)] == None
    ensures IsLink(fs, Below(p.at, name)) && Diverges(fs, Expansion(fs, Below(p.at, name)))
  {
    assert Known(fs, p, Below(p.at, name));
    var i: nat :| i < |p.rest| && p.rest[i] == Mark(Below(p.at, name));
    assert MarkAt(fs, p, i);
    MarkedLoop(fs, p, rest, name, i);
  }

  // The resolver -------------------------------------------------------------------------------

  predicate CleanNames(rest: seq<Frame>) {
    forall i :: 0 <= i < |rest| && rest[i].Name? ==> Without(rest[i].name, '/')
  }

  predicate MarksSeen(rest: seq<Frame>, seen: Seen) {
    forall i :: 0 <= i < |rest| && rest[i].Mark? ==> rest[i].link in seen
  }

  /** What the stack keeps even once a loop has been met. */
  ghost predicate Sound(rest: seq<Frame>, seen: Seen, partCount: int) {
    partCount == |Names(rest)| && CleanNames(rest) && MarksSeen(rest, seen)
  }

  lemma LastFrame(rest: seq<Frame>)
    requires rest != []
    ensures rest == rest[..|rest| - 1] + [rest[|rest| - 1]]
  {
  }

  lemma SoundPop(rest: seq<Frame>, top: Frame, seen: Seen, partCount: int)
    requires Sound(rest + [top], seen, partCount)
    ensures top.Name? ==> Sound(rest, seen, partCount - 1) && Without(top.name, '/')
    ensures top.Mark? ==> Sound(rest, seen, partCount) && top.link in seen
  {
    NamesOfTwo(rest, [top]);
    NamesOfOne(top);
    var all := rest + [top];
    assert all[|rest|] == top && forall i :: 0 <= i < |rest| ==> all[i] == rest[i];
  }

  lemma SoundExpand(rest: seq<Frame>, link: string, target: string, seen: Seen, partCount: nat)
    requires Sound(rest, seen, partCount)
    ensures Sound(Expanded(rest, link, Split(target, '/')), seen[link := None], partCount + |Split(target, '/')|)
  {
    var parts := Split(target, '/');
    ExpandedNames(rest, link, parts, 0);
    WholeStack(rest);
    WholeStack(Expanded(rest, link, parts));
    ExpandedClean(rest, link, target, seen);
  }

  lemma ExpandedClean(rest: seq<Frame>, link: string, target: string, seen: Seen)
    requires CleanNames(rest) && MarksSeen(rest, seen)
    ensures CleanNames(Expanded(rest, link, Split(target, '/')))
        && MarksSeen(Expanded(rest, link, Split(target, '/')), seen[link := None])
  {
    var parts := Split(target, '/');
    var now := Expanded(rest, link, parts);
    NamesOfFrames(parts);
    PartsAreWithout(target, '/');
    forall i | 0 <= i < |now| ensures now[i].Name? ==> Without(now[i].name, '/')
      ensures now[i].Mark? ==> now[i].link in seen[link := None]
    {
      if i < |rest| {
        assert now[i] == rest[i];
      } else if i > |rest| {
        assert now[i] == Frames(parts)[i - |rest| - 1];
      }
    }
  }

  /** Neither the directory nor any recorded path has a prefix among the bad paths. */
  predicate Tidy(dir: string, seen: Seen, bad: set<string>) {
    && Avoids(Root(dir), bad)
    && forall link :: link in seen && seen[link].Some? ==> Avoids(Root(seen[link].value), bad)
  }

  /** From a start without links that end somewhere, none comes into the path. */
  ghost predicate KeepsTidy(fs: Links, start: Walk, dir: string, seen: Seen) {
    "/" !in EndingLinks(fs) && Avoids(start.at, EndingLinks(fs)) ==> Tidy(dir, seen, EndingLinks(fs))
  }

  /** Where the resolver stands; `dir` is its directory, empty only before the first name. */
  ghost predicate Ready(fs: Links, start: Walk, dir: string, rest: seq<Frame>, seen: Seen, partCount: int,
                        looped: bool) {
    && Sound(rest, seen, partCount)
    && Tracked(fs, start, Progress(Root(dir), rest, seen, looped))
    && KeepsTidy(fs, start, dir, seen)
  }

  lemma ParentTidy(fs: Links, dir: string)
    ensures "/" !in EndingLinks(fs) && Avoids(Root(dir), EndingLinks(fs)) ==> Avoids(Parent(dir), EndingLinks(fs))
  {
    SameFromRoot(dir, "");
    if "/" !in EndingLinks(fs) && Avoids(Root(dir), EndingLinks(fs)) {
      ParentAvoids(Root(dir), EndingLinks(fs));
    }
  }

  lemma BelowTidy(fs: Links, dir: string, name: string)
    requires Without(name, '/') && Below(dir, name) !in EndingLinks(fs)
    ensures Avoids(Root(dir), EndingLinks(fs)) ==> Avoids(Below(dir, name), EndingLinks(fs))
  {
    SameFromRoot(dir, name);
    if Avoids(Root(dir), EndingLinks(fs)) {
      BelowAvoids(Root(dir), name, EndingLinks(fs));
    }
  }

  lemma TidyExpand(dir: string, seen: Seen, link: string, target: string, bad: set<string>)
    ensures "/" !in bad && Tidy(dir, seen, bad) ==> Tidy(Base(target, dir), seen[link := None], bad)
  {
    if "/" !in bad {
      RootAvoids(bad);
    }
  }

  lemma NoMarks(rest: seq<Frame>, parts: seq<string>)
    requires rest == Frames(parts)
    ensures Names(rest) == parts && forall i :: 0 <= i < |rest| ==> rest[i].Name? && rest[i].name in parts
  {
    NamesOfFrames(parts);
  }

  lemma FramesAreSound(parts: seq<string>)
    requires Clean(parts)
    ensures Sound(Frames(parts), map[], |parts|)
  {
    NoMarks(Frames(parts), parts);
  }

  lemma ReadyAtStart(fs: Links, path: string, cwd: string, dir: string, rest: seq<Frame>)
    requires dir == (if Absolute(path) then "/" else cwd) && rest == Frames(Split(path, '/'))
    ensures Ready(fs, Start(path, cwd), dir, rest, map[], |Split(path, '/')|, false)
  {
    PartsAreWithout(path, '/');
    FramesAreSound(Split(path, '/'));
    NoMarks(rest, Split(path, '/'));
    OnWayHere(fs, Start(path, cwd));
  }

  lemma ReadyAtEnd(fs: Links, start: Walk, dir: string, rest: seq<Frame>, seen: Seen, partCount: int, looped: bool)
    requires Ready(fs, start, dir, rest, seen, partCount, looped) && partCount <= 0
    ensures if looped then Diverges(fs, start) else EndsAt(fs, start, Root(dir)) && !Diverges(fs, start)
    ensures "/" !in EndingLinks(fs) && Avoids(start.at, EndingLinks(fs)) ==> Avoids(Root(dir), EndingLinks(fs))
  {
    if !looped {
      assert EndsAfter(fs, Walk(Root(dir), []), Root(dir), 0);
      assert EndsAt(fs, Walk(Root(dir), Names(rest)), Root(dir));
    }
  }

  lemma ReadyMark(fs: Links, start: Walk, dir: string, rest: seq<Frame>, link: string, seen: Seen, partCount: int,
                  looped: bool)
    requires Ready(fs, start, dir, rest + [Mark(link)], seen, partCount, looped)
    ensures Ready(fs, start, dir, rest, seen[link := Some(dir)], partCount, looped)
    ensures seen[link := Some(dir)].Keys == seen.Keys
  {
    SoundPop(rest, Mark(link), seen, partCount);
    TrackedMark(fs, start, Progress(Root(dir), rest + [Mark(link)], seen, looped),
                Progress(Root(dir), rest, seen[link := Some(dir)], looped), link, dir);
  }

  lemma TrackedInto(fs: Links, start: Walk, dir: string, rest: seq<Frame>, name: string, seen: Seen, looped: bool,
                    link: string, now: string)
    requires Tracked(fs, start, Progress(Root(dir), rest + [Name(name)], seen, looped)) && Proper(name)
    requires link == Below(dir, name) && IsLink(fs, link) && now == Base(fs[link].target, dir)
    ensures var left := Expanded(rest, link, Split(fs[link].target, '/'));
      Tracked(fs, start, Progress(Root(now), left, seen[link := None], looped))
  {
    SameFromRoot(dir, name);
    ParentOfBelow(Root(dir), name);
    var e := Expansion(fs, link);
    TrackedExpand(fs, start, Progress(Root(dir), rest + [Name(name)], seen, looped), name, rest,
                  Progress(e.at, Expanded(rest, link, e.parts), seen[link := None], looped));
  }

  lemma FewerUnseen(fs: Links, seen: Seen, link: string)
    requires link in fs && link !in seen
    ensures |fs.Keys - seen[link := None].Keys| < |fs.Keys - seen.Keys|
  {
    assert fs.Keys - seen[link := None].Keys == (fs.Keys - seen.Keys) - {link};
  }

  lemma ReadyExpand(fs: Links, start: Walk, dir: string, rest: seq<Frame>, name: string, seen: Seen, partCount: int,
                    looped: bool, link: string, now: string)
    requires Ready(fs, start, dir, rest + [Name(name)], seen, partCount, looped) && Proper(name)
    requires link == Below(dir, name) && IsLink(fs, link) && link !in seen && now == Base(fs[link].target, dir)
    ensures var parts := Split(fs[link].target, '/');
      Ready(fs, start, now, Expanded(rest, link, parts), seen[link := None], partCount - 1 + |parts|, looped)
    ensures |fs.Keys - seen[link := None].Keys| < |fs.Keys - seen.Keys|
  {
    SoundPop(rest, Name(name), seen, partCount);
    SoundExpand(rest, link, fs[link].target, seen, partCount - 1);
    TidyExpand(dir, seen, link, fs[link].target, EndingLinks(fs));
    TrackedInto(fs, start, dir, rest, name, seen, looped, link, now);
    FewerUnseen(fs, seen, link);
  }

  lemma ReadyPass(fs: Links, start: Walk, dir: string, rest: seq<Frame>, name: string, seen: Seen, partCount: int,
                  looped: bool, to: string, met: bool)
    requires Ready(fs, start, dir, rest + [Name(name)], seen, partCount, looped)
    requires Passes(fs, Root(dir), name, Root(to), met) && KeepsTidy(fs, start, to, seen)
    ensures Ready(fs, start, to, rest, seen, partCount - 1, looped || met)
  {
    SoundPop(rest, Name(name), seen, partCount);
    TrackedPass(fs, start, Progress(Root(dir), rest + [Name(name)], seen, looped), name,
                Progress(Root(to), rest, seen, looped || met), met);
  }

  lemma ReadyLoop(fs: Links, start: Walk, dir: string, rest: seq<Frame>, name: string, seen: Seen, partCount: int,
                  looped: bool)
    requires Ready(fs, start, dir, rest + [Name(name)], seen, partCount, looped) && Proper(name)
    requires Below(dir, name) in seen && seen[Below(dir, name)] == None
    ensures Ready(fs, start, Below(dir, name), rest, seen, partCount - 1, true)
  {
    SameFromRoot(dir, name);
    MetAgainDiverges(fs, start, Progress(Root(dir), rest + [Name(name)], seen, looped), rest, name);
    PassesNowhere(fs, Root(dir), name, Below(dir, name));
    BelowTidy(fs, dir, name);
    ReadyPass(fs, start, dir, rest, name, seen, partCount, looped, Below(dir, name), true);
  }

  lemma ReadyJump(fs: Links, start: Walk, dir: string, rest: seq<Frame>, name: string, seen: Seen, partCount: int,
                  looped: bool, to: string)
    requires Ready(fs, start, dir, rest + [Name(name)], seen, partCount, looped) && Proper(name)
    requires Below(dir, name) in seen && seen[Below(dir, name)] == Some(to)
    ensures Ready(fs, start, to, rest, seen, partCount - 1, looped)
  {
    SameFromRoot(dir, name);
    var p := Progress(Root(dir), rest + [Name(name)], seen, looped);
    assert Known(fs, p, Below(dir, name));
    if EndsAt(fs, Expansion(fs, Below(dir, name)), Root(to)) {
      PassesJump(fs, Root(dir), name, Root(to));
      ReadyPass(fs, start, dir, rest, name, seen, partCount, looped, to, false);
    } else {
      PassesNowhere(fs, Root(dir), name, Root(to));
      ReadyPass(fs, start, dir, rest, name, seen, partCount, looped, to, true);
    }
  }

  lemma ReadyStep(fs: Links, start: Walk, dir: string, rest: seq<Frame>, name: string, seen: Seen, partCount: int,
                  looped: bool, to: string)
    requires Ready(fs, start, dir, rest + [Name(name)], seen, partCount, looped)
    requires Next(fs, Walk(Root(dir), [name])) == Walk(Root(to), []) && KeepsTidy(fs, start, to, seen)
    ensures Ready(fs, start, to, rest, seen, partCount - 1, looped)
  {
    PassesStep(fs, Root(dir), name, Root(to));
    ReadyPass(fs, start, dir, rest, name, seen, partCount, looped, to, false);
  }

  /** Where a name leads, unless it is a link not met before; `met` when it is a link still being resolved. */
  method Follow(fs: Links, ghost start: Walk, dir: string, ghost rest: seq<Frame>, name: string, seen: Seen,
                ghost partCount: int, ghost looped: bool)
    returns (to: Option<string>, met: bool)
    requires Ready(fs, start, dir, rest + [Name(name)], seen, partCount, looped) && Without(name, '/')
    ensures to == None ==> Proper(name) && IsLink(fs, Below(dir, name)) && Below(dir, name) !in seen && !met
    ensures to != None ==> Ready(fs, start, to.value, rest, seen, partCount - 1, looped || met)
  {
    met := false;
    SameFromRoot(dir, name);
    var path := Below(dir, name);
    if name == "" || name == "." {
      ReadyStep(fs, start, dir, rest, name, seen, partCount, looped, dir);
      to := Some(dir);
    } else if name == ".." {
      ParentTidy(fs, dir);
      ReadyStep(fs, start, dir, rest, name, seen, partCount, looped, Parent(dir));
      to := Some(Parent(dir));
    } else if !IsLink(fs, path) {
      BelowTidy(fs, dir, name);
      ReadyStep(fs, start, dir, rest, name, seen, partCount, looped, path);
      to := Some(path);
    } else if path !in seen {
      to := None;
    } else if seen[path].Some? {
      to := seen[path];
      ReadyJump(fs, start, dir, rest, name, seen, partCount, looped, to.value);
    } else {
      ReadyLoop(fs, start, dir, rest, name, seen, partCount, looped);
      to, met := Some(path), true;
    }
  }

  /** Takes one name: follows it, or puts the target of a link not met before in its place. */
  method Take(fs: Links, ghost start: Walk, dir: string, rest: seq<Frame>, name: string, seen: Seen, count: nat,
              looped: bool)
    returns (now: string, left: seq<Frame>, noted: Seen, partCount: nat, loop: bool)
    requires Ready(fs, start, dir, rest + [Name(name)], seen, count, looped)
    ensures Ready(fs, start, now, left, noted, partCount, loop)
    ensures (left == rest && noted == seen) || |fs.Keys - noted.Keys| < |fs.Keys - seen.Keys|
  {
    SoundPop(rest, Name(name), seen, count);
    var to, met := Follow(fs, start, dir, rest, name, seen, count, looped);
    if to.Some? {
      return to.value, rest, seen, count - 1, looped || met;
    }
    var link := Below(dir, name);
    var target := fs[link].target;
    ReadyExpand(fs, start, dir, rest, name, seen, count, looped, link, Base(target, dir));
    return Base(target, dir), Expanded(rest, link, Split(target, '/')), seen[link := None],
           count - 1 + |Split(target, '/')|, looped;
  }

  /**
    Resolves every link on the way. It always ends; it meets a link again
    while still resolving it (`looped`) exactly when plain expansion never
    ends, and otherwise arrives where plain expansion does. With a loop or
    without, every link it leaves in the path is one that cannot be read or
    whose own expansion never ends.
   */
  method RealPath(fs: Links, path: string, cwd: string) returns (resolved: string, looped: bool)
    ensures looped <==> Diverges(fs, Start(path, cwd))
    ensures !looped ==> EndsAt(fs, Start(path, cwd), Root(resolved))
    ensures "/" !in EndingLinks(fs) && Avoids(Start(path, cwd).at, EndingLinks(fs)) ==>
      Avoids(Root(resolved), EndingLinks(fs))
  {
    ghost var start := Start(path, cwd);
    var rest := Frames(Split(path, '/'));
    var partCount := |Split(path, '/')|;
    resolved := if Absolute(path) then "/" else cwd;
    ReadyAtStart(fs, path, cwd, resolved, rest);
    var seen: Seen := map[];
    looped := false;
    while partCount > 0
      invariant Ready(fs, start, resolved, rest, seen, partCount, looped)
      decreases |fs.Keys - seen.Keys|, |rest|
    {
      var top := rest[|rest| - 1];
      LastFrame(rest);
      rest := rest[..|rest| - 1];
      if top.Mark? {
        ReadyMark(fs, start, resolved, rest, top.link, seen, partCount, looped);
        seen := seen[top.link := Some(resolved)];
      } else {
        resolved, rest, seen, partCount, looped := Take(fs, start, resolved, rest, top.name, seen, partCount, looped);
      }
    }
    ReadyAtEnd(fs, start, resolved, rest, seen, partCount, looped);
  }
}
