/** The budgeted directory scan: a work stack over a file tree, hard limits, ignore rules. */
module Scanner {
  import opened Seqs
  import opened Traversal

  type Path = seq<string>

  datatype Limits = Limits(maxDepth: nat, maxFiles: nat, maxFileBytes: nat, maxTotalBytes: nat)

  /**
   * What the file system answers for a path: a file's length and what reading it later gives (it may
   * have grown, or fail), a directory's listing with failing entries, a link, or nothing.
   */
  datatype Node =
    | File(length: nat, content: Option<Bytes>)
    | Directory(listing: Option<seq<Option<string>>>)
    | Link
    | Special
    | Gone

  datatype Rules = Rules(paths: seq<Path>, names: set<string>, extensions: set<string>)

  /** The scanner's settings and the file system it looks at; `detect` gives a text's findings. */
  datatype Setup = Setup(
    limits: Limits, rules: Rules, followSymlinks: bool, skipBinary: bool,
    node: Path -> Node, canonical: Path -> Option<Path>, isText: Bytes -> bool, detect: Bytes -> seq<string>)

  /** A canonical path is not a symbolic link, and a file's size fits 64 bits. */
  ghost predicate Plausible(s: Setup) {
    && (forall p :: s.canonical(p).Some? ==> !s.node(s.canonical(p).value).Link?)
    && (forall p :: s.node(p).File? && s.node(p).content.Some? ==> |s.node(p).content.value| <= U64_MAX)
  }

  datatype Report = Report(
    files: seq<(Path, seq<string>)>, filesConsidered: nat, bytesRead: nat, skippedBinary: nat, skippedTooLarge: nat,
    skippedIgnored: nat, skippedSymlinks: nat, ioErrors: nat, limitReached: bool)

  const EMPTY := Report([], 0, 0, 0, 0, 0, 0, 0, false)

  /** The hard budgets. */
  predicate Within(limits: Limits, r: Report) {
    r.filesConsidered <= limits.maxFiles && r.bytesRead <= limits.maxTotalBytes
  }

  // ---- Ignore rules -----------------------------------------------------------------------

  function LastDot(name: string): (i: nat)
    ensures i <= |name|
  {
    if name == "" then 0 else if name[|name| - 1] == '.' then |name| - 1
    else
      var i := LastDot(name[..|name| - 1]);
      if i == |name| - 1 then |name| else i
  }

  /** The part after the last dot, unless there is none or it leads the name. */
  function Extension(name: string): Option<string> {
    var i := LastDot(name);
    if name == ".." || i == 0 || i == |name| then None else Some(name[i + 1..])
  }

  predicate Ignored(rules: Rules, path: Path) {
    || (exists p <- rules.paths :: p <= path)
    || (path != [] && path[|path| - 1] in rules.names)
    || (path != [] && Extension(path[|path| - 1]).Some? && Extension(path[|path| - 1]).value in rules.extensions)
  }

  // ---- One file ---------------------------------------------------------------------------

  datatype Verdict = OverBudget | TooLarge | Unreadable | NotText(size: nat) | Read(size: nat, findings: seq<string>)

  predicate LooksBinary(content: Bytes) { 0 in Take(content, 8192) }

  predicate SkippedAsBinary(s: Setup, content: Bytes) { s.skipBinary && (LooksBinary(content) || !s.isText(content)) }

  /** What becomes of a considered file when `used` bytes have been read before. */
  function Judge(s: Setup, used: nat, length: nat, content: Option<Bytes>): Verdict {
    var room := s.limits.maxTotalBytes - used;
    if length > s.limits.maxFileBytes then TooLarge
    else if SaturatingAdd(used, length) > s.limits.maxTotalBytes then OverBudget
    else if content.None? then Unreadable
    else if |content.value| > Min(s.limits.maxFileBytes, room) then
      if room < s.limits.maxFileBytes then OverBudget else TooLarge
    else if SkippedAsBinary(s, content.value) then NotText(|content.value|)
    else Read(|content.value|, s.detect(content.value))
  }

  function Consider(s: Setup, r: Report, path: Path, length: nat, content: Option<Bytes>): Report {
    if r.filesConsidered >= s.limits.maxFiles then r.(limitReached := true)
    else
      var r := r.(filesConsidered := r.filesConsidered + 1);
      match Judge(s, r.bytesRead, length, content)
      case OverBudget => r.(limitReached := true)
      case TooLarge => r.(skippedTooLarge := r.skippedTooLarge + 1)
      case Unreadable => r.(ioErrors := r.ioErrors + 1)
      case NotText(size) => r.(bytesRead := r.bytesRead + size, skippedBinary := r.skippedBinary + 1)
      case Read(size, findings) =>
        r.(bytesRead := r.bytesRead + size, files := r.files + if findings == [] then [] else [(path, findings)])
  }

  /** Reads at most one byte more than it may, which is how growth after the stat is noticed. */
  method ScanFile(s: Setup, report: Report, path: Path, length: nat, content: Option<Bytes>) returns (r: Report)
    requires Within(s.limits, report) && (content.Some? ==> |content.value| <= U64_MAX)
    ensures r == Consider(s, report, path, length, content) && Within(s.limits, r)
  {
    r := report;
    if r.filesConsidered >= s.limits.maxFiles { return r.(limitReached := true); }
    r := r.(filesConsidered := r.filesConsidered + 1);
    if length > s.limits.maxFileBytes { return r.(skippedTooLarge := r.skippedTooLarge + 1); }
    if SaturatingAdd(r.bytesRead, length) > s.limits.maxTotalBytes { return r.(limitReached := true); }
    var remaining := s.limits.maxTotalBytes - r.bytesRead;
    var readLimit := Min(s.limits.maxFileBytes, remaining);
    if content.None? { return r.(ioErrors := r.ioErrors + 1); }
    var bytes := Take(content.value, SaturatingAdd(readLimit, 1));
    if |bytes| > readLimit {
      if readLimit < s.limits.maxFileBytes { return r.(limitReached := true); }
      return r.(skippedTooLarge := r.skippedTooLarge + 1);
    }
    assert bytes == content.value;
    r := r.(bytesRead := r.bytesRead + |bytes|);
    if LooksBinary(bytes) && s.skipBinary { return r.(skippedBinary := r.skippedBinary + 1); }
    if !s.isText(bytes) && s.skipBinary { return r.(skippedBinary := r.skippedBinary + 1); }
    var findings := s.detect(bytes);
    if findings != [] { r := r.(files := r.files + [(path, findings)]); }
  }

  // ---- The tree in preorder ---------------------------------------------------------------

  predicate NameLe(a: string, b: string) { a == "" || (b != "" && (a[0] < b[0] || (a[0] == b[0] && NameLe(a[1..], b[1..])))) }

  lemma {:induction false} NameLeTotal(a: string, b: string)
    ensures NameLe(a, b) || NameLe(b, a)
  {
    if a != "" && b != "" { NameLeTotal(a[1..], b[1..]); }
  }

  lemma {:induction false} NameLeTransitive(a: string, b: string, c: string)
    requires NameLe(a, b) && NameLe(b, c)
    ensures NameLe(a, c)
  {
    if a != "" && b != "" && c != "" && a[0] == b[0] == c[0] { NameLeTransitive(a[1..], b[1..], c[1..]); }
  }

  lemma NameLeOrders()
    ensures TotalPreorder(NameLe)
  {
    forall a, b ensures NameLe(a, b) || NameLe(b, a) { NameLeTotal(a, b); }
    forall a, b, c | NameLe(a, b) && NameLe(b, c) ensures NameLe(a, c) { NameLeTransitive(a, b, c); }
  }

  /** The names of a listing, and how many of its entries failed. */
  function Names(listing: seq<Option<string>>): seq<string> {
    if listing == [] then [] else (if listing[0].Some? then [listing[0].value] else []) + Names(listing[1..])
  }

  function Failures(listing: seq<Option<string>>): (n: nat)
    ensures |Names(listing)| + n == |listing|
  {
    if listing == [] then 0 else (if listing[0].Some? then 0 else 1) + Failures(listing[1..])
  }

  function Sorted(names: seq<string>): seq<string> { InsertAllBy(names, NameLe) }

  /** `Cut` is a directory that is not looked into because it lies too deep. */
  datatype Visit = Skip | SkipLink | Failed | Cut(path: Path) | Reach(path: Path, length: nat, content: Option<Bytes>)

  type Entry = (Path, nat)

  function Entries(path: Path, depth: nat, names: seq<string>): seq<Entry> {
    seq(|names|, i requires 0 <= i < |names| => (path + [names[i]], depth))
  }

  function Repeat(n: nat): seq<Visit> { seq(n, _ => Failed) }

  /** What is met at a path itself, links not followed. */
  function Own(s: Setup, path: Path, depth: nat): seq<Visit> {
    if Ignored(s.rules, path) then [Skip]
    else
      match s.node(path)
      case Gone => [Failed]
      case Link => [SkipLink]
      case Special => []
      case File(length, content) => [Reach(path, length, content)]
      case Directory(listing) =>
        if depth >= s.limits.maxDepth then [Cut(path)]
        else if listing.None? then [Failed]
        else Repeat(Failures(listing.value))
  }

  /** What lies directly below a path, in name order. */
  function Below(s: Setup, path: Path, depth: nat): seq<Entry> {
    if Ignored(s.rules, path) || !s.node(path).Directory? || depth >= s.limits.maxDepth || s.node(path).listing.None? then []
    else Entries(path, depth + 1, Sorted(Names(s.node(path).listing.value)))
  }

  function DepthLeft(s: Setup, depth: nat): nat { if depth <= s.limits.maxDepth then s.limits.maxDepth - depth else 0 }

  ghost function Tree(s: Setup): Plan<Entry, Visit> {
    Plan((e: Entry) => Own(s, e.0, e.1), (e: Entry) => Below(s, e.0, e.1), (e: Entry) => DepthLeft(s, e.1))
  }

  lemma TreeIsSound(s: Setup)
    ensures Sound(Tree(s))
  {
  }

  /** Everything met in a walk of the tree, links not followed. */
  ghost function Visits(s: Setup, root: Path): seq<Visit> {
    TreeIsSound(s);
    Walk(Tree(s), (root, 0))
  }

  function Note(s: Setup, r: Report, v: Visit): Report {
    if r.limitReached then r
    else
      match v
      case Skip => r.(skippedIgnored := r.skippedIgnored + 1)
      case SkipLink => r.(skippedSymlinks := r.skippedSymlinks + 1)
      case Failed => r.(ioErrors := r.ioErrors + 1)
      case Cut(_) => r
      case Reach(path, length, content) => Consider(s, r, path, length, content)
  }

  /** The report of a whole walk, cut off once a budget is exceeded. */
  function NoteAll(s: Setup, r: Report, visits: seq<Visit>): Report
    decreases |visits|
  {
    if visits == [] then r else NoteAll(s, Note(s, r, visits[0]), visits[1..])
  }

  lemma {:induction false} NoteBoth(s: Setup, r: Report, a: seq<Visit>, b: seq<Visit>)
    ensures NoteAll(s, r, a + b) == NoteAll(s, NoteAll(s, r, a), b)
    decreases |a|
  {
    if a == [] {
      assert a + b == b;
    } else {
      assert (a + b)[0] == a[0] && (a + b)[1..] == a[1..] + b;
      NoteBoth(s, Note(s, r, a[0]), a[1..], b);
    }
  }

  lemma {:induction false} NoteLimited(s: Setup, r: Report, visits: seq<Visit>)
    requires r.limitReached
    ensures NoteAll(s, r, visits) == r
  {
    if visits != [] { NoteLimited(s, r, visits[1..]); }
  }

  lemma {:induction false} NoteFailures(s: Setup, r: Report, n: nat)
    requires !r.limitReached
    ensures NoteAll(s, r, Repeat(n)) == r.(ioErrors := r.ioErrors + n)
    decreases n
  {
    if n > 0 {
      assert Repeat(n)[1..] == Repeat(n - 1);
      NoteFailures(s, r.(ioErrors := r.ioErrors + 1), n - 1);
    }
  }

  // ---- Termination ------------------------------------------------------------------------

  /** What an entry can put on the stack at most, links followed. */
  function Next(s: Setup, path: Path, depth: nat): seq<Entry> {
    if !s.node(path).Link? then Below(s, path, depth)
    else if s.canonical(path).Some? then [(s.canonical(path).value, depth)]
    else []
  }

  function Rank(s: Setup, path: Path, depth: nat): nat { 2 * DepthLeft(s, depth) + if s.node(path).Link? then 1 else 0 }

  ghost function Graph(s: Setup): Plan<Entry, ()> {
    Plan((e: Entry) => [()], (e: Entry) => Next(s, e.0, e.1), (e: Entry) => Rank(s, e.0, e.1))
  }

  lemma GraphIsSound(s: Setup)
    requires Plausible(s)
    ensures Sound(Graph(s))
  {
  }

  ghost function Load(s: Setup, stack: seq<Entry>): nat
    requires Plausible(s)
  {
    GraphIsSound(s);
    |Pending(Graph(s), stack)|
  }

  lemma StepLowersLoad(s: Setup, stack: seq<Entry>, below: seq<Entry>)
    requires Plausible(s) && stack != []
    requires var e := stack[|stack| - 1]; below == [] || below == Next(s, e.0, e.1)
    ensures Load(s, stack[..|stack| - 1] + Reversed(below)) < Load(s, stack)
  {
    GraphIsSound(s);
    PendingStep(Graph(s), stack);
    PendingDrop(Graph(s), stack);
    assert stack[..|stack| - 1] + [] == stack[..|stack| - 1];
  }

  // ---- The walk in either mode ------------------------------------------------------------

  /** What an entry adds to the directories that are not to be entered again; none unless links are followed. */
  predicate Enters(s: Setup, path: Path, visited: set<Path>) {
    && s.followSymlinks && !Ignored(s.rules, path) && s.node(path).Directory?
    && s.canonical(path).Some? && s.canonical(path).value !in visited
  }

  function SeenAfter(s: Setup, path: Path, visited: set<Path>): set<Path> {
    if Enters(s, path, visited) then visited + {s.canonical(path).value} else visited
  }

  /** What is met at an entry, given the directories entered before. */
  function OwnIn(s: Setup, path: Path, depth: nat, visited: set<Path>): seq<Visit> {
    if !s.followSymlinks || Ignored(s.rules, path) then Own(s, path, depth)
    else if s.node(path).Link? then if s.canonical(path).None? then [Failed] else []
    else if !s.node(path).Directory? then Own(s, path, depth)
    else if s.canonical(path).None? then [Failed]
    else if s.canonical(path).value in visited then []
    else Own(s, path, depth)
  }

  function BelowIn(s: Setup, path: Path, depth: nat, visited: set<Path>): seq<Entry> {
    if !s.followSymlinks then Below(s, path, depth)
    else if Ignored(s.rules, path) then []
    else if s.node(path).Link? || Enters(s, path, visited) then Next(s, path, depth)
    else []
  }

  lemma BelowInIsNext(s: Setup, path: Path, depth: nat, visited: set<Path>)
    ensures BelowIn(s, path, depth, visited) == [] || BelowIn(s, path, depth, visited) == Next(s, path, depth)
  {
  }

  /** Everything met from a stack on, links followed or not. */
  ghost function VisitsFrom(s: Setup, stack: seq<Entry>, visited: set<Path>): seq<Visit>
    requires Plausible(s)
    decreases Load(s, stack)
  {
    if stack == [] then []
    else
      var e := stack[|stack| - 1];
      var below := BelowIn(s, e.0, e.1, visited);
      BelowInIsNext(s, e.0, e.1, visited);
      StepLowersLoad(s, stack, below);
      OwnIn(s, e.0, e.1, visited) + VisitsFrom(s, stack[..|stack| - 1] + Reversed(below), SeenAfter(s, e.0, visited))
  }

  /** Without following links it is the walk of the tree. */
  lemma {:induction false} VisitsWithoutLinks(s: Setup, stack: seq<Entry>, visited: set<Path>)
    requires Plausible(s) && !s.followSymlinks && Sound(Tree(s))
    ensures VisitsFrom(s, stack, visited) == Pending(Tree(s), stack)
    decreases Load(s, stack)
  {
    if stack != [] {
      var e := stack[|stack| - 1];
      var below := Below(s, e.0, e.1);
      BelowInIsNext(s, e.0, e.1, visited);
      StepLowersLoad(s, stack, below);
      VisitsWithoutLinks(s, stack[..|stack| - 1] + Reversed(below), visited);
      PendingStep(Tree(s), stack);
    }
  }

  // ---- The loop ---------------------------------------------------------------------------

  method ReadDirectory(listing: seq<Option<string>>) returns (names: seq<string>, failures: nat)
    ensures names == Names(listing) && failures == Failures(listing)
  {
    names, failures := [], 0;
    assert listing[0..] == listing;
    for i := 0 to |listing|
      invariant Names(listing) == names + Names(listing[i..]) && Failures(listing) == failures + Failures(listing[i..])
    {
      assert listing[i..][1..] == listing[i + 1..];
      if listing[i].Some? {
        ConcatAssociates(names, [listing[i].value], Names(listing[i + 1..]));
        names := names + [listing[i].value];
      } else {
        failures := failures + 1;
      }
    }
  }

  /** One entry off the stack; `below` is what it puts there, to be taken in that order. */
  method VisitEntry(s: Setup, report: Report, path: Path, depth: nat, visited: set<Path>)
    returns (r: Report, below: seq<Entry>, seen: set<Path>)
    requires Plausible(s) && Within(s.limits, report) && !report.limitReached
    ensures Within(s.limits, r)
    ensures r == NoteAll(s, report, OwnIn(s, path, depth, visited))
    ensures below == BelowIn(s, path, depth, visited) && seen == SeenAfter(s, path, visited)
  {
    r, below, seen := report, [], visited;
    if Ignored(s.rules, path) { r := r.(skippedIgnored := r.skippedIgnored + 1); return; }
    var node := s.node(path);
    if node.Gone? { r := r.(ioErrors := r.ioErrors + 1); return; }
    if node.Link? {
      if !s.followSymlinks { r := r.(skippedSymlinks := r.skippedSymlinks + 1); return; }
      var canonical := s.canonical(path);
      if canonical.None? { r := r.(ioErrors := r.ioErrors + 1); return; }
      below := [(canonical.value, depth)];
    } else if node.Directory? {
      if s.followSymlinks {
        var canonical := s.canonical(path);
        if canonical.None? { r := r.(ioErrors := r.ioErrors + 1); return; }
        if canonical.value in visited { return; }
        seen := visited + {canonical.value};
      }
      if depth >= s.limits.maxDepth { return; }
      if node.listing.None? { r := r.(ioErrors := r.ioErrors + 1); return; }
      var names, failures := ReadDirectory(node.listing.value);
      NoteFailures(s, r, failures);
      r := r.(ioErrors := r.ioErrors + failures);
      below := Entries(path, depth + 1, Sorted(names));
    } else if node.File? {
      r := ScanFile(s, r, path, node.length, node.content);
    }
  }

  /**
   * The scan. It ends for every file system and keeps its budgets whether or not links are followed,
   * and reports what the walk meets, up to the first exceeded budget.
   */
  method Scan(s: Setup, root: Path) returns (r: Option<Report>)
    requires Plausible(s)
    ensures r.None? <==> s.node(root).Gone?
    ensures r.Some? ==> Within(s.limits, r.value)
    ensures r.Some? ==> r.value == NoteAll(s, EMPTY, VisitsFrom(s, [(root, 0)], {}))
    ensures r.Some? ==> Accounts(s, VisitsFrom(s, [(root, 0)], {}), r.value)
  {
    ReportExactly(s, VisitsFrom(s, [(root, 0)], {}));
    if s.node(root).Gone? { return None; }
    var report := EMPTY;
    var stack: seq<Entry> := [(root, 0)];
    var visited: set<Path> := {};
    while stack != []
      invariant Within(s.limits, report)
      invariant NoteAll(s, EMPTY, VisitsFrom(s, [(root, 0)], {})) == NoteAll(s, report, VisitsFrom(s, stack, visited))
      decreases Load(s, stack)
    {
      var e := stack[|stack| - 1];
      if report.limitReached {
        NoteLimited(s, report, VisitsFrom(s, stack, visited));
        return Some(report);
      }
      ghost var before, own := report, OwnIn(s, e.0, e.1, visited);
      var below, seen;
      report, below, seen := VisitEntry(s, report, e.0, e.1, visited);
      BelowInIsNext(s, e.0, e.1, visited);
      StepLowersLoad(s, stack, below);
      NoteBoth(s, before, own, VisitsFrom(s, stack[..|stack| - 1] + Reversed(below), seen));
      stack, visited := stack[..|stack| - 1] + Reversed(below), seen;
    }
    return Some(report);
  }

  /** Without following links the scan reports the walk of the tree. */
  lemma ScanWithoutLinks(s: Setup, root: Path)
    requires Plausible(s) && !s.followSymlinks
    ensures VisitsFrom(s, [(root, 0)], {}) == Visits(s, root)
  {
    TreeIsSound(s);
    VisitsWithoutLinks(s, [(root, 0)], {});
    var none: seq<Entry> := [];
    assert [(root, 0)][..0] == none;
    assert Visits(s, root) + Pending(Tree(s), none) == Visits(s, root);
  }

  // ---- What the walk meets ----------------------------------------------------------------

  function Paths(visits: seq<Visit>): seq<Path> {
    if visits == [] then [] else (if visits[0].Reach? then [visits[0].path] else []) + Paths(visits[1..])
  }

  lemma {:induction false} PathsBoth(a: seq<Visit>, b: seq<Visit>)
    ensures Paths(a + b) == Paths(a) + Paths(b)
  {
    if a == [] {
      assert a + b == b;
    } else {
      assert (a + b)[0] == a[0] && (a + b)[1..] == a[1..] + b;
      PathsBoth(a[1..], b);
    }
  }

  lemma {:induction false} PathsOfFailures(n: nat)
    ensures Paths(Repeat(n)) == []
  {
    if n > 0 {
      assert Repeat(n)[1..] == Repeat(n - 1);
      PathsOfFailures(n - 1);
    }
  }

  lemma {:induction false} PathsCounted(visits: seq<Visit>)
    ensures |Paths(visits)| == Count(IsFile(), visits)
  {
    if visits != [] {
      var before, v := visits[..|visits| - 1], visits[|visits| - 1];
      PathsCounted(before);
      PathsBoth(before, [v]);
      assert visits == before + [v] && [v][1..] == [];
    }
  }

  lemma OwnPaths(s: Setup, e: Entry)
    ensures Paths(Own(s, e.0, e.1)) == if !Ignored(s.rules, e.0) && s.node(e.0).File? then [e.0] else []
  {
    var node := s.node(e.0);
    if node.Directory? && node.listing.Some? { PathsOfFailures(Failures(node.listing.value)); }
  }

  /** The step from the `n`-th ancestor of a path to the next is listed and not ignored. */
  ghost predicate Leads(s: Setup, p: Path, n: nat)
    requires n < |p|
  {
    var node := s.node(p[..n]);
    !Ignored(s.rules, p[..n]) && node.Directory? && node.listing.Some? && Some(p[n]) in node.listing.value
  }

  /** A regular file not too deep below `from`, with no ignored path between them. */
  ghost predicate Reachable(s: Setup, from: Path, depth: nat, p: Path) {
    && from <= p && depth + |p| - |from| <= s.limits.maxDepth
    && !Ignored(s.rules, p) && s.node(p).File?
    && forall n: nat :: |from| <= n < |p| ==> Leads(s, p, n)
  }

  lemma {:induction false} NamesListed(listing: seq<Option<string>>, name: string)
    ensures name in Names(listing) <==> Some(name) in listing
  {
    if listing != [] {
      NamesListed(listing[1..], name);
      assert listing == [listing[0]] + listing[1..];
    }
  }

  lemma SortedMembers(names: seq<string>, name: string)
    ensures name in Sorted(names) <==> name in names
  {
    NameLeOrders();
    InsertAllBySorts(names, NameLe);
    assert name in Sorted(names) <==> name in multiset(Sorted(names));
    assert name in names <==> name in multiset(names);
  }

  /** An entry is put below a directory exactly when its name is listed there. */
  lemma BelowListed(s: Setup, e: Entry, name: string)
    requires !Ignored(s.rules, e.0) && s.node(e.0).Directory? && e.1 < s.limits.maxDepth && s.node(e.0).listing.Some?
    ensures (e.0 + [name], e.1 + 1) in Below(s, e.0, e.1) <==> Some(name) in s.node(e.0).listing.value
  {
    var names := Names(s.node(e.0).listing.value);
    NamesListed(s.node(e.0).listing.value, name);
    SortedMembers(names, name);
    var below := Below(s, e.0, e.1);
    if name in Sorted(names) {
      var i :| 0 <= i < |Sorted(names)| && Sorted(names)[i] == name;
      assert below[i] == (e.0 + [name], e.1 + 1);
    }
    if (e.0 + [name], e.1 + 1) in below {
      var i :| 0 <= i < |below| && below[i] == (e.0 + [name], e.1 + 1);
      assert (e.0 + [name])[|e.0|] == (e.0 + [Sorted(names)[i]])[|e.0|];
    }
  }

  ghost predicate MetBelow<E(!new)>(plan: Plan<E, Visit>, entries: seq<E>, p: Path)
    requires Sound(plan)
  {
    exists i :: 0 <= i < |entries| && p in Paths(Walk(plan, entries[i]))
  }

  lemma {:induction false} WalkAllMeets<E(!new)>(plan: Plan<E, Visit>, entries: seq<E>, bound: nat, p: Path)
    requires Sound(plan) && forall e <- entries :: plan.rank(e) < bound
    ensures p in Paths(WalkAll(plan, entries, bound)) <==> MetBelow(plan, entries, p)
    decreases |entries|
  {
    if entries != [] {
      WalkAllMeets(plan, entries[1..], bound, p);
      PathsBoth(Walk(plan, entries[0]), WalkAll(plan, entries[1..], bound));
      if MetBelow(plan, entries[1..], p) {
        var i :| 0 <= i < |entries| - 1 && p in Paths(Walk(plan, entries[1..][i]));
        assert entries[i + 1] == entries[1..][i];
      }
      if MetBelow(plan, entries, p) && p !in Paths(Walk(plan, entries[0])) {
        var i :| 0 <= i < |entries| && p in Paths(Walk(plan, entries[i]));
        assert entries[1..][i - 1] == entries[i];
      }
    }
  }

  lemma ReachableStep(s: Setup, e: Entry, name: string, p: Path)
    requires e.0 + [name] <= p
    ensures Reachable(s, e.0, e.1, p) <==> Reachable(s, e.0 + [name], e.1 + 1, p) && Leads(s, p, |e.0|)
  {
    assert e.0 == p[..|e.0|];
  }

  /** Below a directory lie exactly the entries on the way to its listed names. */
  ghost predicate ReachableBelow(s: Setup, e: Entry, p: Path) {
    var below := Below(s, e.0, e.1);
    exists i :: 0 <= i < |below| && Reachable(s, below[i].0, below[i].1, p)
  }

  lemma ReachableSplits(s: Setup, e: Entry, p: Path)
    ensures Reachable(s, e.0, e.1, p) <==> (p == e.0 && e.1 <= s.limits.maxDepth && !Ignored(s.rules, p) && s.node(p).File?) || ReachableBelow(s, e, p)
  {
    var below := Below(s, e.0, e.1);
    if ReachableBelow(s, e, p) {
      var i :| 0 <= i < |below| && Reachable(s, below[i].0, below[i].1, p);
      var name := below[i].0[|e.0|];
      assert below[i] == (e.0 + [name], e.1 + 1);
      assert below[i] in below;
      BelowListed(s, e, name);
      assert p[..|e.0|] == e.0 && p[|e.0|] == name;
      ReachableStep(s, e, name, p);
    }
    if Reachable(s, e.0, e.1, p) && p != e.0 {
      var name := p[|e.0|];
      assert p[..|e.0|] == e.0 && e.0 + [name] == p[..|e.0| + 1];
      assert Leads(s, p, |e.0|);
      ReachableStep(s, e, name, p);
      BelowListed(s, e, name);
      var i :| 0 <= i < |below| && below[i] == (e.0 + [name], e.1 + 1);
      assert Reachable(s, below[i].0, below[i].1, p);
    }
  }

  lemma WalkSplits<E(!new)>(plan: Plan<E, Visit>, e: E, p: Path)
    requires Sound(plan)
    ensures p in Paths(Walk(plan, e)) <==> p in Paths(plan.own(e)) || MetBelow(plan, plan.below(e), p)
  {
    PathsBoth(plan.own(e), WalkAll(plan, plan.below(e), plan.rank(e)));
    WalkAllMeets(plan, plan.below(e), plan.rank(e), p);
  }

  /** The walk considers exactly the files that can be reached. */
  lemma {:induction false} WalkMeets(s: Setup, e: Entry, p: Path)
    requires e.1 <= s.limits.maxDepth && Sound(Tree(s))
    ensures p in Paths(Walk(Tree(s), e)) <==> Reachable(s, e.0, e.1, p)
    decreases s.limits.maxDepth - e.1
  {
    var below := Below(s, e.0, e.1);
    forall i | 0 <= i < |below|
      ensures p in Paths(Walk(Tree(s), below[i])) <==> Reachable(s, below[i].0, below[i].1, p)
    {
      WalkMeets(s, below[i], p);
    }
    WalkSplits(Tree(s), e, p);
    OwnPaths(s, e);
    ReachableSplits(s, e, p);
  }

  // ---- Exactly once -----------------------------------------------------------------------

  ghost predicate Apart<E(!new)>(plan: Plan<E, Visit>, a: E, b: E)
    requires Sound(plan)
  {
    forall p <- Paths(Walk(plan, a)) :: p !in Paths(Walk(plan, b))
  }

  lemma {:induction false} WalkAllDistinct<E(!new)>(plan: Plan<E, Visit>, entries: seq<E>, bound: nat)
    requires Sound(plan) && forall e <- entries :: plan.rank(e) < bound
    requires forall i :: 0 <= i < |entries| ==> Distinct(Paths(Walk(plan, entries[i])))
    requires forall i, j :: 0 <= i < j < |entries| ==> Apart(plan, entries[i], entries[j])
    ensures Distinct(Paths(WalkAll(plan, entries, bound)))
    decreases |entries|
  {
    if entries != [] {
      var first, rest := Paths(Walk(plan, entries[0])), entries[1..];
      forall i, j | 0 <= i < j < |rest| ensures Apart(plan, rest[i], rest[j]) {
        assert Apart(plan, entries[i + 1], entries[j + 1]);
      }
      WalkAllDistinct(plan, rest, bound);
      forall p <- first ensures p !in Paths(WalkAll(plan, rest, bound)) {
        WalkAllMeets(plan, rest, bound, p);
        forall i | 0 <= i < |rest| ensures p !in Paths(Walk(plan, rest[i])) { assert Apart(plan, entries[0], entries[i + 1]); }
      }
      PathsBoth(Walk(plan, entries[0]), WalkAll(plan, rest, bound));
      DistinctBoth(first, Paths(WalkAll(plan, rest, bound)));
    }
  }

  /** No directory lists a name twice. */
  ghost predicate Proper(s: Setup) {
    forall p :: s.node(p).Directory? && s.node(p).listing.Some? ==> Distinct(Names(s.node(p).listing.value))
  }

  lemma SortedDistinct(names: seq<string>)
    requires Distinct(names)
    ensures Distinct(Sorted(names))
  {
    NameLeOrders();
    InsertAllBySorts(names, NameLe);
    DistinctCounts(names);
    DistinctCounts(Sorted(names));
  }

  lemma BelowApart(s: Setup, e: Entry, i: nat, j: nat)
    requires Proper(s) && Sound(Tree(s)) && i < j < |Below(s, e.0, e.1)|
    ensures var below := Below(s, e.0, e.1); Apart(Tree(s), below[i], below[j])
  {
    var below := Below(s, e.0, e.1);
    var names := Names(s.node(e.0).listing.value);
    SortedDistinct(names);
    assert below[i].0 == e.0 + [Sorted(names)[i]] && below[j].0 == e.0 + [Sorted(names)[j]];
    forall p <- Paths(Walk(Tree(s), below[i])) ensures p !in Paths(Walk(Tree(s), below[j])) {
      WalkMeets(s, below[i], p);
      WalkMeets(s, below[j], p);
      assert p[|e.0|] == Sorted(names)[i];
    }
  }

  lemma {:induction false} WalkDistinct(s: Setup, e: Entry)
    requires e.1 <= s.limits.maxDepth && Sound(Tree(s)) && Proper(s)
    ensures Distinct(Paths(Walk(Tree(s), e)))
    decreases s.limits.maxDepth - e.1
  {
    var tree, below := Tree(s), Below(s, e.0, e.1);
    forall i | 0 <= i < |below| ensures Distinct(Paths(Walk(tree, below[i]))) { WalkDistinct(s, below[i]); }
    forall i, j | 0 <= i < j < |below| ensures Apart(tree, below[i], below[j]) { BelowApart(s, e, i, j); }
    WalkAllDistinct(tree, below, tree.rank(e));
    OwnPaths(s, e);
    PathsBoth(tree.own(e), WalkAll(tree, below, tree.rank(e)));
    DistinctBoth(Paths(tree.own(e)), Paths(WalkAll(tree, below, tree.rank(e))));
  }

  // ---- What the report accounts for -------------------------------------------------------

  /** The findings of a file that is readable, not too large and not skipped as binary. */
  function Hits(s: Setup, visits: seq<Visit>): seq<(Path, seq<string>)> {
    if visits == [] then [] else Hits(s, visits[..|visits| - 1]) + HitsOf(s, visits[|visits| - 1])
  }

  function HitsOf(s: Setup, v: Visit): seq<(Path, seq<string>)> {
    if !IsRead(s)(v) || SkippedAsBinary(s, v.content.value) || s.detect(v.content.value) == [] then []
    else [(v.path, s.detect(v.content.value))]
  }

  function Count(chosen: Visit -> bool, visits: seq<Visit>): nat {
    if visits == [] then 0 else Count(chosen, visits[..|visits| - 1]) + if chosen(visits[|visits| - 1]) then 1 else 0
  }

  function IsFile(): Visit -> bool { (v: Visit) => v.Reach? }

  function IsIgnored(): Visit -> bool { (v: Visit) => v.Skip? }

  function IsLink(): Visit -> bool { (v: Visit) => v.SkipLink? }

  /** A file that can be read and is not too large, neither by its length nor by what it holds when read. */
  function IsRead(s: Setup): Visit -> bool {
    (v: Visit) => v.Reach? && v.length <= s.limits.maxFileBytes && v.content.Some? && |v.content.value| <= s.limits.maxFileBytes
  }

  function IsBinary(s: Setup): Visit -> bool { (v: Visit) => IsRead(s)(v) && SkippedAsBinary(s, v.content.value) }

  function IsTooLarge(s: Setup): Visit -> bool {
    (v: Visit) =>
      v.Reach? && (v.length > s.limits.maxFileBytes || (v.content.Some? && |v.content.value| > s.limits.maxFileBytes))
  }

  function IsFailure(s: Setup): Visit -> bool {
    (v: Visit) => v.Failed? || (v.Reach? && v.length <= s.limits.maxFileBytes && v.content.None?)
  }

  /** The bytes of the files that are read, text or not. */
  function BytesOf(s: Setup, visits: seq<Visit>): nat {
    if visits == [] then 0
    else
      var v := visits[|visits| - 1];
      BytesOf(s, visits[..|visits| - 1]) + if IsRead(s)(v) then |v.content.value| else 0
  }

  /** Everything that the visits come to when no budget is exceeded. */
  function Account(s: Setup, visits: seq<Visit>): Report {
    Report(Hits(s, visits), Count(IsFile(), visits), BytesOf(s, visits), Count(IsBinary(s), visits), Count(IsTooLarge(s), visits),
           Count(IsIgnored(), visits), Count(IsLink(), visits), Count(IsFailure(s), visits), false)
  }

  /** `v` takes the file budget or the byte budget too far when `before` has been visited. */
  predicate Breaks(s: Setup, before: seq<Visit>, v: Visit) { Exceeds(s, Account(s, before), v) }

  predicate Exceeds(s: Setup, r: Report, v: Visit) {
    var room := s.limits.maxTotalBytes - r.bytesRead;
    && v.Reach?
    && (|| r.filesConsidered >= s.limits.maxFiles
        || (v.length <= s.limits.maxFileBytes
            && (SaturatingAdd(r.bytesRead, v.length) > s.limits.maxTotalBytes
                || (room < s.limits.maxFileBytes && v.content.Some? && |v.content.value| > room))))
  }

  ghost predicate Affordable(s: Setup, visits: seq<Visit>) { forall i :: 0 <= i < |visits| ==> !Breaks(s, visits[..i], visits[i]) }

  /** The report of these visits, cut off where they first break a budget; a file beyond the byte budget still counts as considered. */
  ghost predicate Accounts(s: Setup, visits: seq<Visit>, r: Report) {
    if Affordable(s, visits) then r == Account(s, visits)
    else exists n :: CutAt(s, visits, n, r)
  }

  ghost predicate CutAt(s: Setup, visits: seq<Visit>, n: nat, r: Report) {
    && n < |visits| && Affordable(s, visits[..n]) && Breaks(s, visits[..n], visits[n])
    && var before := Account(s, visits[..n]);
       r == before.(limitReached := true, filesConsidered := before.filesConsidered + One(before.filesConsidered < s.limits.maxFiles))
  }

  function One(chosen: bool): nat { if chosen then 1 else 0 }

  lemma CountMore(chosen: Visit -> bool, before: seq<Visit>, v: Visit)
    ensures Count(chosen, before + [v]) == Count(chosen, before) + One(chosen(v))
  {
    assert (before + [v])[..|before|] == before;
  }

  /** The account with one visit more. */
  function Added(s: Setup, r: Report, v: Visit): Report {
    Report(r.files + HitsOf(s, v), r.filesConsidered + One(v.Reach?), r.bytesRead + if IsRead(s)(v) then |v.content.value| else 0,
           r.skippedBinary + One(IsBinary(s)(v)), r.skippedTooLarge + One(IsTooLarge(s)(v)), r.skippedIgnored + One(v.Skip?),
           r.skippedSymlinks + One(v.SkipLink?), r.ioErrors + One(IsFailure(s)(v)), r.limitReached)
  }

  lemma AccountAdds(s: Setup, before: seq<Visit>, v: Visit)
    ensures Account(s, before + [v]) == Added(s, Account(s, before), v)
  {
    assert (before + [v])[..|before|] == before;
    CountMore(IsFile(), before, v);
    CountMore(IsBinary(s), before, v);
    CountMore(IsTooLarge(s), before, v);
    CountMore(IsIgnored(), before, v);
    CountMore(IsLink(), before, v);
    CountMore(IsFailure(s), before, v);
  }

  lemma NoteAdds(s: Setup, r: Report, v: Visit)
    requires !r.limitReached && r.bytesRead <= s.limits.maxTotalBytes
    ensures Exceeds(s, r, v) ==>
      Note(s, r, v) == r.(limitReached := true, filesConsidered := r.filesConsidered + One(r.filesConsidered < s.limits.maxFiles))
    ensures !Exceeds(s, r, v) ==> Note(s, r, v) == Added(s, r, v) && Added(s, r, v).bytesRead <= s.limits.maxTotalBytes
  {
  }

  lemma AccountMore(s: Setup, before: seq<Visit>, v: Visit)
    requires BytesOf(s, before) <= s.limits.maxTotalBytes
    ensures Breaks(s, before, v) ==>
      Note(s, Account(s, before), v)
      == Account(s, before).(limitReached := true, filesConsidered := Count(IsFile(), before) + One(Count(IsFile(), before) < s.limits.maxFiles))
    ensures !Breaks(s, before, v) ==>
      Note(s, Account(s, before), v) == Account(s, before + [v]) && BytesOf(s, before + [v]) <= s.limits.maxTotalBytes
  {
    NoteAdds(s, Account(s, before), v);
    AccountAdds(s, before, v);
  }

  lemma AffordableMore(s: Setup, before: seq<Visit>, v: Visit)
    ensures Affordable(s, before + [v]) <==> Affordable(s, before) && !Breaks(s, before, v)
  {
    var all := before + [v];
    assert all[..|before|] == before;
    assert forall i :: 0 <= i < |before| ==> all[..i] == before[..i];
    if Affordable(s, before) && !Breaks(s, before, v) {
      forall i | 0 <= i < |all| ensures !Breaks(s, all[..i], all[i]) { assert i < |before| ==> !Breaks(s, before[..i], before[i]); }
    }
    if Affordable(s, all) {
      forall i | 0 <= i < |before| ensures !Breaks(s, before[..i], before[i]) { assert !Breaks(s, all[..i], all[i]); }
    }
  }

  lemma CutStays(s: Setup, before: seq<Visit>, v: Visit, n: nat, r: Report)
    requires CutAt(s, before, n, r)
    ensures CutAt(s, before + [v], n, r)
  {
    assert (before + [v])[..n] == before[..n];
  }

  /** The report is exactly the account of what was met up to the first exceeded budget, and no more was read than allowed. */
  lemma {:induction false} ReportExactly(s: Setup, visits: seq<Visit>)
    ensures Accounts(s, visits, NoteAll(s, EMPTY, visits))
    ensures Affordable(s, visits) ==> BytesOf(s, visits) <= s.limits.maxTotalBytes
    decreases |visits|
  {
    if visits != [] {
      var before, v := visits[..|visits| - 1], visits[|visits| - 1];
      assert visits == before + [v];
      ReportExactly(s, before);
      NoteBoth(s, EMPTY, before, [v]);
      AffordableMore(s, before, v);
      var r := NoteAll(s, EMPTY, before);
      assert NoteAll(s, EMPTY, visits) == Note(s, r, v) by { assert [v][1..] == []; }
      if Affordable(s, before) {
        AccountMore(s, before, v);
        if Breaks(s, before, v) { assert CutAt(s, visits, |before|, Note(s, r, v)); }
      } else {
        var n :| CutAt(s, before, n, r);
        CutStays(s, before, v, n, r);
      }
    }
  }

  /** When the files met hold more than the byte budget, or are more than allowed, the limit is reported. */
  lemma TooMuchIsReported(s: Setup, visits: seq<Visit>)
    requires BytesOf(s, visits) > s.limits.maxTotalBytes || Count(IsFile(), visits) > s.limits.maxFiles
    ensures NoteAll(s, EMPTY, visits).limitReached
  {
    ReportExactly(s, visits);
    if Affordable(s, visits) { AffordableFiles(s, visits); }
  }

  lemma {:induction false} AffordableFiles(s: Setup, visits: seq<Visit>)
    requires Affordable(s, visits)
    ensures Count(IsFile(), visits) <= s.limits.maxFiles
  {
    if visits != [] {
      var before, v := visits[..|visits| - 1], visits[|visits| - 1];
      assert visits == before + [v];
      AffordableMore(s, before, v);
      AffordableFiles(s, before);
    }
  }

  function Max(a: nat, b: nat): nat { if a >= b then a else b }

  /** The most a file can take of the byte budget: nothing if too large from the start. */
  function Demand(s: Setup, v: Visit): nat {
    if !v.Reach? || v.length > s.limits.maxFileBytes then 0
    else if v.content.None? then v.length
    else Max(v.length, Min(|v.content.value|, s.limits.maxFileBytes))
  }

  function Demands(s: Setup, visits: seq<Visit>): nat {
    if visits == [] then 0 else Demand(s, visits[0]) + Demands(s, visits[1..])
  }

  lemma NoteSpends(s: Setup, r: Report, v: Visit)
    requires !r.limitReached && r.filesConsidered + |Paths([v])| <= s.limits.maxFiles
    requires r.bytesRead + Demand(s, v) <= s.limits.maxTotalBytes
    ensures var next := Note(s, r, v);
            && !next.limitReached && next.bytesRead <= r.bytesRead + Demand(s, v)
            && next.filesConsidered == r.filesConsidered + |Paths([v])|
  {
  }

  /** No limit is reported unless a budget is really too small. */
  lemma {:induction false} EnoughBudget(s: Setup, r: Report, visits: seq<Visit>)
    requires !r.limitReached && r.filesConsidered + |Paths(visits)| <= s.limits.maxFiles
    requires r.bytesRead + Demands(s, visits) <= s.limits.maxTotalBytes
    ensures !NoteAll(s, r, visits).limitReached
    decreases |visits|
  {
    if visits != [] {
      PathsBoth([visits[0]], visits[1..]);
      assert [visits[0]] + visits[1..] == visits;
      NoteSpends(s, r, visits[0]);
      EnoughBudget(s, Note(s, r, visits[0]), visits[1..]);
    }
  }

  /**
   * When no limit was hit, every regular file at depth at most `maxDepth` below no ignored path was
   * considered exactly once, and the report holds the findings of each that could be scanned.
   */
  lemma EveryFileExactlyOnce(s: Setup, root: Path)
    requires Proper(s) && !NoteAll(s, EMPTY, Visits(s, root)).limitReached
    ensures Distinct(Paths(Visits(s, root)))
    ensures forall p :: p in Paths(Visits(s, root)) <==> Reachable(s, root, 0, p)
    ensures NoteAll(s, EMPTY, Visits(s, root)) == Account(s, Visits(s, root))
    ensures NoteAll(s, EMPTY, Visits(s, root)).filesConsidered == |Paths(Visits(s, root))|
  {
    PathsCounted(Visits(s, root));
    TreeIsSound(s);
    WalkDistinct(s, (root, 0));
    forall p ensures p in Paths(Visits(s, root)) <==> Reachable(s, root, 0, p) { WalkMeets(s, (root, 0), p); }
    ReportExactly(s, Visits(s, root));
  }
}
