/** Scanning with links followed: when no file is missed, and how one can be. */
module ScannerLinks {
  import opened Seqs
  import opened Traversal
  import opened Scanner

  /** No link lies on the way to the path. */
  ghost predicate Direct(s: Setup, p: Path) { forall n: nat :: n < |p| ==> !s.node(p[..n]).Link? }

  /** Canonical paths pass through no link, and a directory reached directly has its own path as canonical one. */
  ghost predicate Tidy(s: Setup) {
    && (forall p :: s.canonical(p).Some? ==> Direct(s, s.canonical(p).value))
    && (forall p :: s.node(p).Directory? && Direct(s, p) ==> s.canonical(p) == Some(p))
  }

  ghost predicate Listed(s: Setup, d: Path, name: string) {
    s.node(d).Directory? && s.node(d).listing.Some? && Some(name) in s.node(d).listing.value
  }

  ghost predicate OnStack(stack: seq<Entry>, p: Path) { exists i :: 0 <= i < |stack| && stack[i].0 == p }

  ghost predicate AllDirect(s: Setup, stack: seq<Entry>) { forall e <- stack :: Direct(s, e.0) }

  /** What lies in a directory that was entered and not cut has been taken off the stack or is on it. */
  ghost predicate Pursued(s: Setup, stack: seq<Entry>, visited: set<Path>, done: set<Path>, met: seq<Visit>) {
    forall d <- visited, name: string ::
      Cut(d) !in met && Listed(s, d, name) ==> d + [name] in done || OnStack(stack, d + [name])
  }

  /** What has been taken off the stack was considered, if a file, and entered, if a directory. */
  ghost predicate Settled(s: Setup, visited: set<Path>, done: set<Path>, met: seq<Visit>) {
    forall p <- done :: !Ignored(s.rules, p) ==> (s.node(p).File? ==> p in Paths(met)) && (s.node(p).Directory? ==> p in visited)
  }

  lemma ChildIsDirect(s: Setup, d: Path, name: string)
    requires Direct(s, d) && !s.node(d).Link?
    ensures Direct(s, d + [name])
  {
    var p := d + [name];
    forall n: nat | n < |p| ensures !s.node(p[..n]).Link? {
      if n < |d| { assert p[..n] == d[..n]; } else { assert p[..n] == d; }
    }
  }

  lemma OnStackMore(stack: seq<Entry>, e: Entry)
    requires e in stack
    ensures OnStack(stack, e.0)
  {
  }

  /** An entry is listed below a directory that is entered with depth to spare. */
  lemma EnteredPushes(s: Setup, path: Path, depth: nat, visited: set<Path>, name: string)
    requires Enters(s, path, visited) && depth < s.limits.maxDepth && Listed(s, path, name)
    ensures (path + [name], depth + 1) in BelowIn(s, path, depth, visited)
  {
    BelowListed(s, (path, depth), name);
  }

  /** Taking one entry off the stack keeps what lies in entered directories pursued. */
  lemma StepPursues(s: Setup, stack: seq<Entry>, visited: set<Path>, done: set<Path>, met: seq<Visit>)
    requires s.followSymlinks && Tidy(s) && stack != [] && AllDirect(s, stack) && Pursued(s, stack, visited, done, met)
    ensures var e := stack[|stack| - 1];
            Pursued(s, stack[..|stack| - 1] + Reversed(BelowIn(s, e.0, e.1, visited)), SeenAfter(s, e.0, visited),
                    done + {e.0}, met + OwnIn(s, e.0, e.1, visited))
  {
    var e, rest := stack[|stack| - 1], stack[..|stack| - 1];
    var own, below, seen := OwnIn(s, e.0, e.1, visited), BelowIn(s, e.0, e.1, visited), SeenAfter(s, e.0, visited);
    var next := rest + Reversed(below);
    ReversedMembers(below);
    assert e in stack && Direct(s, e.0);
    forall d <- seen, name: string | Cut(d) !in met + own && Listed(s, d, name)
      ensures d + [name] in done + {e.0} || OnStack(next, d + [name])
    {
      var child := d + [name];
      if d in visited {
        if child !in done && child != e.0 {
          assert OnStack(stack, child);
          var i :| 0 <= i < |stack| && stack[i].0 == child;
          assert next[i] == stack[i];
        }
      } else {
        assert d == e.0 && Cut(e.0) !in own;
        EnteredPushes(s, e.0, e.1, visited, name);
        assert (child, e.1 + 1) in next;
        OnStackMore(next, (child, e.1 + 1));
      }
    }
  }

  lemma StepSettles(s: Setup, e: Entry, visited: set<Path>, done: set<Path>, met: seq<Visit>)
    requires s.followSymlinks && Tidy(s) && Direct(s, e.0) && Settled(s, visited, done, met)
    ensures Settled(s, SeenAfter(s, e.0, visited), done + {e.0}, met + OwnIn(s, e.0, e.1, visited))
  {
    var own := OwnIn(s, e.0, e.1, visited);
    PathsBoth(met, own);
    if !Ignored(s.rules, e.0) && s.node(e.0).File? { OwnPaths(s, e); }
  }

  lemma StepStaysDirect(s: Setup, stack: seq<Entry>, visited: set<Path>)
    requires s.followSymlinks && Tidy(s) && stack != [] && AllDirect(s, stack)
    ensures var e := stack[|stack| - 1]; AllDirect(s, stack[..|stack| - 1] + Reversed(BelowIn(s, e.0, e.1, visited)))
  {
    var e := stack[|stack| - 1];
    var below := BelowIn(s, e.0, e.1, visited);
    ReversedMembers(below);
    assert e in stack;
    forall b <- below ensures Direct(s, b.0) {
      if !s.node(e.0).Link? {
        var names := Sorted(Names(s.node(e.0).listing.value));
        var i :| 0 <= i < |below| && below[i] == b;
        assert b.0 == e.0 + [names[i]];
        ChildIsDirect(s, e.0, names[i]);
      }
    }
  }

  /** The walk to its end: everything on the stack is taken off, and what was entered is pursued. */
  lemma {:induction false} Explore(s: Setup, stack: seq<Entry>, visited: set<Path>, done: set<Path>, met: seq<Visit>)
    returns (seen: set<Path>, all: set<Path>)
    requires Plausible(s) && s.followSymlinks && Tidy(s) && AllDirect(s, stack)
    requires Pursued(s, stack, visited, done, met) && Settled(s, visited, done, met)
    ensures done <= all && forall e <- stack :: e.0 in all
    ensures var end := met + VisitsFrom(s, stack, visited); Pursued(s, [], seen, all, end) && Settled(s, seen, all, end)
    decreases Load(s, stack)
  {
    if stack == [] {
      seen, all := visited, done;
      assert met + [] == met;
    } else {
      var e, rest := stack[|stack| - 1], stack[..|stack| - 1];
      var own, below := OwnIn(s, e.0, e.1, visited), BelowIn(s, e.0, e.1, visited);
      var next, after := rest + Reversed(below), SeenAfter(s, e.0, visited);
      BelowInIsNext(s, e.0, e.1, visited);
      StepLowersLoad(s, stack, below);
      assert VisitsFrom(s, stack, visited) == own + VisitsFrom(s, next, after);
      assert e in stack;
      StepPursues(s, stack, visited, done, met);
      StepSettles(s, e, visited, done, met);
      StepStaysDirect(s, stack, visited);
      seen, all := Explore(s, next, after, done + {e.0}, met + own);
      ConcatAssociates(met, own, VisitsFrom(s, next, after));
      forall x <- stack ensures x.0 in all { assert x in next || x == e; }
    }
  }

  /** No directory on the way from `root` to `p` was met too deep to be looked into. */
  ghost predicate NotCut(root: Path, p: Path, met: seq<Visit>) { forall n :: |root| <= n < |p| ==> Cut(p[..n]) !in met }

  /** On the way to a reachable file everything is taken off the stack. */
  lemma {:induction false} WayIsTaken(s: Setup, root: Path, p: Path, n: nat, seen: set<Path>, all: set<Path>, met: seq<Visit>)
    requires Reachable(s, root, 0, p) && |root| <= n <= |p| && root in all
    requires Pursued(s, [], seen, all, met) && Settled(s, seen, all, met) && NotCut(root, p, met)
    ensures p[..n] in all
  {
    if n == |root| {
      assert p[..n] == root;
    } else {
      WayIsTaken(s, root, p, n - 1, seen, all, met);
      var d := p[..n - 1];
      assert Leads(s, p, n - 1);
      assert d in seen && Listed(s, d, p[n - 1]);
      assert p[..n] == d + [p[n - 1]];
      assert p[..n] in all || OnStack([], p[..n]);
    }
  }

  /**
   * With links followed, a file that can be reached without them is considered if no directory on the
   * way to it was entered, over some link, so deep that it was not looked into.
   */
  lemma NotMissedUnlessCut(s: Setup, root: Path, p: Path)
    requires Plausible(s) && s.followSymlinks && Tidy(s) && Direct(s, root) && Reachable(s, root, 0, p)
    requires NotCut(root, p, VisitsFrom(s, [(root, 0)], {}))
    ensures p in Paths(VisitsFrom(s, [(root, 0)], {}))
  {
    var stack: seq<Entry> := [(root, 0)];
    var seen, all := Explore(s, stack, {}, {}, []);
    assert (root, 0) in stack;
    var met := [] + VisitsFrom(s, stack, {});
    assert met == VisitsFrom(s, stack, {});
    WayIsTaken(s, root, p, |p|, seen, all, met);
    assert p[..|p|] == p;
  }

  // ---- A file that is missed --------------------------------------------------------------

  lemma Unignored(s: Setup, p: Path)
    requires s.rules == Rules([], {}, {})
    ensures !Ignored(s.rules, p)
  {
  }

  lemma OneName(name: string)
    ensures Sorted(Names([Some(name)])) == [name] && Failures([Some(name)]) == 0
  {
    var listing := [Some(name)];
    assert listing[1..] == [] && Names(listing) == [name] + [] == [name];
    var names, none: seq<string> := [name], [];
    assert names[1..] == none && InsertAllBy(none, NameLe) == none;
    assert InsertAllBy(names, NameLe) == InsertBy(name, none, NameLe) == [name] + none;
  }

  lemma TwoNames(x: string, y: string)
    requires NameLe(x, y)
    ensures Sorted(Names([Some(x), Some(y)])) == [x, y] && Failures([Some(x), Some(y)]) == 0
  {
    var listing := [Some(x), Some(y)];
    OneName(y);
    assert listing[1..] == [Some(y)] && Names([Some(y)]) == [y] + Names([Some(y)][1..]) == [y];
    assert Names(listing) == [x] + [y];
    var names := [x, y];
    assert names[1..] == [y] && Sorted(names) == InsertBy(x, [y], NameLe);
  }

  lemma ReversedFew(x: Entry, y: Entry)
    ensures Reversed([x]) == [x] && Reversed([x, y]) == [y, x]
  {
    assert [x][1..] == [] && [y][1..] == [] && [x, y][1..] == [y];
    assert Reversed([y]) == Reversed([]) + [y];
    assert Reversed([x]) == Reversed([]) + [x];
  }

  /** One entry off the stack. */
  lemma StepOver(s: Setup, rest: seq<Entry>, e: Entry, visited: set<Path>, own: seq<Visit>, below: seq<Entry>, seen: set<Path>)
    requires Plausible(s) && OwnIn(s, e.0, e.1, visited) == own && BelowIn(s, e.0, e.1, visited) == below
    requires SeenAfter(s, e.0, visited) == seen
    ensures VisitsFrom(s, rest + [e], visited) == own + VisitsFrom(s, rest + Reversed(below), seen)
  {
    var stack := rest + [e];
    assert stack[|stack| - 1] == e && stack[..|stack| - 1] == rest;
  }

  /** A directory that can be entered, with the names listed in it sorted. */
  ghost predicate Enterable(s: Setup, d: Path, visited: set<Path>, names: seq<string>) {
    && s.followSymlinks && s.rules == Rules([], {}, {}) && d !in visited && s.canonical(d) == Some(d)
    && s.node(d).Directory? && s.node(d).listing.Some?
    && Sorted(Names(s.node(d).listing.value)) == names && Failures(s.node(d).listing.value) == 0
  }

  lemma EnterDirectory(s: Setup, rest: seq<Entry>, d: Path, depth: nat, visited: set<Path>, names: seq<string>,
                       stack: seq<Entry>, next: seq<Entry>, seen: set<Path>)
    requires Plausible(s) && Enterable(s, d, visited, names) && depth < s.limits.maxDepth
    requires stack == rest + [(d, depth)] && next == rest + Reversed(Entries(d, depth + 1, names)) && seen == visited + {d}
    ensures VisitsFrom(s, stack, visited) == VisitsFrom(s, next, seen)
  {
    Unignored(s, d);
    assert Own(s, d, depth) == Repeat(0) == [];
    StepOver(s, rest, (d, depth), visited, [], Entries(d, depth + 1, names), seen);
  }

  lemma CutDirectory(s: Setup, rest: seq<Entry>, d: Path, depth: nat, visited: set<Path>, names: seq<string>)
    requires Plausible(s) && Enterable(s, d, visited, names) && depth >= s.limits.maxDepth
    ensures VisitsFrom(s, rest + [(d, depth)], visited) == [Cut(d)] + VisitsFrom(s, rest, visited + {d})
  {
    Unignored(s, d);
    StepOver(s, rest, (d, depth), visited, [Cut(d)], [], visited + {d});
    assert rest + [] == rest;
  }

  lemma EnteredBefore(s: Setup, rest: seq<Entry>, d: Path, depth: nat, visited: set<Path>)
    requires Plausible(s) && s.followSymlinks && s.rules == Rules([], {}, {})
    requires s.node(d).Directory? && s.canonical(d) == Some(d) && d in visited
    ensures VisitsFrom(s, rest + [(d, depth)], visited) == VisitsFrom(s, rest, visited)
  {
    Unignored(s, d);
    StepOver(s, rest, (d, depth), visited, [], [], visited);
    assert rest + [] == rest;
  }

  lemma FollowLink(s: Setup, rest: seq<Entry>, l: Path, depth: nat, visited: set<Path>, target: Path)
    requires Plausible(s) && s.followSymlinks && s.rules == Rules([], {}, {}) && s.node(l).Link? && s.canonical(l) == Some(target)
    ensures VisitsFrom(s, rest + [(l, depth)], visited) == VisitsFrom(s, rest + [(target, depth)], visited)
  {
    Unignored(s, l);
    StepOver(s, rest, (l, depth), visited, [], [(target, depth)], visited);
    ReversedFew((target, depth), (target, depth));
  }

  /**
   * `root` holds the directories `a` and `z`; `z` holds the file `f` and `a` a link `l` to `z`.
   * Directories two levels down are not looked into.
   */
  ghost predicate Crossing(s: Setup, root: Path, a: Path, z: Path, l: Path, f: Path) {
    && Plausible(s) && s.followSymlinks && s.limits.maxDepth == 2
    && a == root + ["a"] && z == root + ["z"] && l == a + ["l"] && f == z + ["f"]
    && s.node(root).Directory? && s.node(root).listing == Some([Some("a"), Some("z")])
    && s.node(a).Directory? && s.node(a).listing == Some([Some("l")])
    && s.node(z).Directory? && s.node(z).listing == Some([Some("f")])
    && s.node(l) == Link && s.canonical(l) == Some(z) && s.node(f).File?
    && s.rules == Rules([], {}, {}) && s.canonical(root) == Some(root) && s.canonical(a) == Some(a) && s.canonical(z) == Some(z)
  }

  lemma PushTwo(root: Path, a: Path, z: Path)
    requires a == root + ["a"] && z == root + ["z"]
    ensures Sorted(Names([Some("a"), Some("z")])) == ["a", "z"] && Failures([Some("a"), Some("z")]) == 0
    ensures Reversed(Entries(root, 1, ["a", "z"])) == [(z, 1), (a, 1)]
  {
    assert NameLe("a", "z");
    TwoNames("a", "z");
    assert Entries(root, 1, ["a", "z"]) == [(a, 1), (z, 1)];
    ReversedFew((a, 1), (z, 1));
  }

  lemma EnterRoot(s: Setup, root: Path, a: Path, z: Path, l: Path, f: Path)
    requires Crossing(s, root, a, z, l, f)
    ensures VisitsFrom(s, [(root, 0)], {}) == VisitsFrom(s, [(z, 1), (a, 1)], {root})
  {
    PushTwo(root, a, z);
    EnterDirectory(s, [], root, 0, {}, ["a", "z"], [(root, 0)], [(z, 1), (a, 1)], {root});
  }

  lemma PushOne(a: Path, l: Path, z: Path)
    requires l == a + ["l"]
    ensures Sorted(Names([Some("l")])) == ["l"] && Failures([Some("l")]) == 0
    ensures [(z, 1)] + Reversed(Entries(a, 2, ["l"])) == [(z, 1)] + [(l, 2)]
  {
    OneName("l");
    assert Entries(a, 2, ["l"]) == [(l, 2)];
    ReversedFew((l, 2), (l, 2));
  }

  lemma EnterA(s: Setup, root: Path, a: Path, z: Path, l: Path, f: Path)
    requires Crossing(s, root, a, z, l, f)
    ensures VisitsFrom(s, [(z, 1), (a, 1)], {root}) == VisitsFrom(s, [(z, 1)] + [(l, 2)], {root} + {a})
  {
    PushOne(a, l, z);
    assert |a| != |root|;
    EnterDirectory(s, [(z, 1)], a, 1, {root}, ["l"], [(z, 1), (a, 1)], [(z, 1)] + [(l, 2)], {root} + {a});
  }

  lemma FromLinkToEnd(s: Setup, root: Path, a: Path, z: Path, l: Path, f: Path)
    requires Crossing(s, root, a, z, l, f)
    ensures VisitsFrom(s, [(z, 1)] + [(l, 2)], {root} + {a}) == [Cut(z)]
  {
    var none: seq<Entry>, visited := [], {root} + {a};
    OneName("f");
    assert |z| != |root| && z[|root|] == "z" && a[|root|] == "a" && "z"[0] != "a"[0];
    FollowLink(s, [(z, 1)], l, 2, visited, z);
    CutDirectory(s, [(z, 1)], z, 2, visited, ["f"]);
    EnteredBefore(s, none, z, 1, visited + {z});
    assert none + [(z, 1)] == [(z, 1)];
    assert VisitsFrom(s, none, visited + {z}) == [];
  }

  lemma FileIsReachable(s: Setup, root: Path, a: Path, z: Path, l: Path, f: Path)
    requires Crossing(s, root, a, z, l, f)
    ensures Reachable(s, root, 0, f)
  {
    forall n: nat | |root| <= n < |f| ensures Leads(s, f, n) {
      Unignored(s, f[..n]);
      if n == |root| {
        assert f[..n] == root && f[n] == "z";
      } else {
        assert f[..n] == z && f[n] == "f";
      }
    }
    Unignored(s, f);
  }

  /**
   * The directory `z`, first met over the link and too deep, is not looked into where it lies: the file in
   * it, which the same scan without following links considers, is missed.
   */
  lemma FollowingMissesAFile(s: Setup, root: Path, a: Path, z: Path, l: Path, f: Path)
    requires Crossing(s, root, a, z, l, f)
    ensures f in Paths(Visits(s, root)) && f !in Paths(VisitsFrom(s, [(root, 0)], {})) && Cut(z) in VisitsFrom(s, [(root, 0)], {})
  {
    EnterRoot(s, root, a, z, l, f);
    EnterA(s, root, a, z, l, f);
    FromLinkToEnd(s, root, a, z, l, f);
    TreeIsSound(s);
    FileIsReachable(s, root, a, z, l, f);
    WalkMeets(s, (root, 0), f);
    var met := [Cut(z)];
    assert met[1..] == [];
  }
}
