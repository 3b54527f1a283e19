/** A canonical Git-style printer for patches, and the proof that the parser undoes it. */
module PatchPrinting {
  import opened Seqs
  import opened Patches
  import opened PatchScan
  import Decimal

  // ---- The printer ------------------------------------------------------------------------

  function GitPath(side: string, path: Option<string>): string {
    if path.None? then "/dev/null" else side + path.value
  }

  function Range(start: nat, count: nat): string { Decimal.Print(start) + "," + Decimal.Print(count) }

  function HunkHeader(h: Hunk): string {
    "@@ -" + Range(h.oldStart, OldCount(h.lines, |h.lines|)) + " +" + Range(h.newStart, NewCount(h.lines, |h.lines|)) + " @@"
  }

  function LineText(line: PatchLine): string {
    (match line.kind case Context => " " case Addition => "+" case Removal => "-") + line.content
  }

  function LineTexts(lines: seq<PatchLine>): seq<string> {
    seq(|lines|, i requires 0 <= i < |lines| => LineText(lines[i]))
  }

  function HunkText(h: Hunk): seq<string> { [HunkHeader(h)] + LineTexts(h.lines) }

  function HunksText(hunks: seq<Hunk>): seq<string> {
    if hunks == [] then [] else HunksText(hunks[..|hunks| - 1]) + HunkText(hunks[|hunks| - 1])
  }

  function PathText(path: Option<string>): string { if path.None? then "" else path.value }

  const BINARY: string := "Binary files differ"

  function ChangeTexts(f: FilePatch): seq<string> {
    match f.change
    case Renamed => ["rename from " + PathText(f.oldPath), "rename to " + PathText(f.newPath)]
    case Binary => [BINARY]
    case _ => []
  }

  function DiffLine(f: FilePatch): string { "diff --git " + GitPath("a/", f.oldPath) + " " + GitPath("b/", f.newPath) }

  function SideLines(f: FilePatch): seq<string> { ["--- " + GitPath("a/", f.oldPath), "+++ " + GitPath("b/", f.newPath)] }

  function FileText(f: FilePatch): seq<string> {
    [DiffLine(f)] + ChangeTexts(f) + SideLines(f) + HunksText(f.hunks)
  }

  function FilesText(files: seq<FilePatch>): seq<string> {
    if files == [] then [] else FilesText(files[..|files| - 1]) + FileText(files[|files| - 1])
  }

  function Print(files: seq<FilePatch>): string { Unlines(FilesText(files)) }

  // ---- What can be printed ----------------------------------------------------------------

  /** Non-empty, without whitespace, quotes or backslashes. */
  predicate PlainPath(path: string) { path != "" && forall c <- path :: !IsWhitespace(c) && c != '\"' && c != '\\' }

  predicate PlainLine(content: string) { '\n' !in content && (content == "" || content[|content| - 1] != '\r') }

  ghost predicate PrintableHunk(h: Hunk) {
    && h.oldStart < USIZE_LIMIT && h.newStart < USIZE_LIMIT
    && OldCount(h.lines, |h.lines|) < USIZE_LIMIT && NewCount(h.lines, |h.lines|) < USIZE_LIMIT
    && Numbered(h.oldStart, h.newStart, h.lines)
    && forall l <- h.lines :: PlainLine(l.content)
  }

  ghost predicate PrintableFile(f: FilePatch) {
    && (f.oldPath.Some? ==> PlainPath(f.oldPath.value))
    && (f.newPath.Some? ==> PlainPath(f.newPath.value))
    && (match f.change
        case Binary => true
        case Renamed => f.oldPath.Some? && f.newPath.Some?
        case Added => f.oldPath.None?
        case Deleted => f.oldPath.Some? && f.newPath.None?
        case Modified => f.oldPath.Some? && f.newPath.Some?)
    && forall h <- f.hunks :: PrintableHunk(h)
  }

  // ---- Lines ------------------------------------------------------------------------------

  lemma LinesFrom(line: string, rest: string)
    requires PlainLine(line)
    ensures Lines(line + ['\n'] + rest) == [line] + Lines(rest)
  {
    SplitOnceAt(line, '\n', rest);
    var s := line + ['\n'] + rest;
    assert s[..|line|] == line && s[|line| + 1..] == rest;
  }

  lemma {:induction false} LinesOfUnlines(lines: seq<string>)
    requires forall l <- lines :: PlainLine(l)
    ensures Lines(Unlines(lines)) == lines
  {
    if lines != [] {
      LinesFrom(lines[0], Unlines(lines[1..]));
      LinesOfUnlines(lines[1..]);
    }
  }

  // ---- Paths ------------------------------------------------------------------------------

  lemma {:induction false} NothingToUnescape(s: string, c: char)
    requires '\\' !in s
    ensures Unescape(s, c) == s
  {
    if s != "" {
      NothingToUnescape(s[1..], c);
      assert s == [s[0]] + s[1..];
    }
  }

  lemma PlainPathIsUnquoted(path: string)
    requires PlainPath(path)
    ensures UnquotePath(path) == path && '\t' !in path
  {
    assert path[0] in path;
    NothingToUnescape(path, '\"');
    NothingToUnescape(path, '\\');
    assert forall c <- path :: !IsWhitespace(c);
    assert IsWhitespace('\t');
  }

  lemma GitPathReadsBack(side: string, path: Option<string>)
    requires side in ["a/", "b/"] && (path.Some? ==> PlainPath(path.value))
    ensures ParseGitPath(GitPath(side, path)) == path && ParseHeaderPath(GitPath(side, path)) == path
    ensures forall c <- GitPath(side, path) :: !IsWhitespace(c)
    ensures GitPath(side, path) != ""
  {
    var text := GitPath(side, path);
    if path.Some? {
      PlainPathIsUnquoted(path.value);
      assert text[2..] == path.value && text[..2] == side;
      assert text[0] != '/';
    }
    assert '\t' !in text by { assert IsWhitespace('\t'); }
    SplitOnceNone(text, '\t');
  }

  // ---- Words ------------------------------------------------------------------------------

  predicate Word(s: string) { s != "" && forall c <- s :: !IsWhitespace(c) }

  lemma {:induction false} WordLengthOf(word: string, rest: string)
    requires (forall c <- word :: !IsWhitespace(c)) && (rest == "" || IsWhitespace(rest[0]))
    ensures WordLength(word + rest) == |word|
  {
    if word == "" {
      assert word + rest == rest;
    } else {
      assert (word + rest)[1..] == word[1..] + rest;
      WordLengthOf(word[1..], rest);
    }
  }

  lemma WordFirst(word: string, rest: string)
    requires Word(word) && (rest == "" || IsWhitespace(rest[0]))
    ensures SplitWhitespace(word + rest) == [word] + SplitWhitespace(rest)
  {
    assert word[0] in word;
    WordLengthOf(word, rest);
    var s := word + rest;
    assert s[..|word|] == word && s[|word|..] == rest;
  }

  lemma TwoWords(a: string, b: string)
    requires Word(a) && Word(b)
    ensures SplitWhitespace(a + " " + b) == [a, b]
  {
    WordFirst(b, "");
    assert b + "" == b;
    assert (" " + b)[1..] == b;
    ConcatAssociates(a, " ", b);
    WordFirst(a, " " + b);
  }

  lemma {:induction false} SplitAtWordAt(head: string, word: string, tail: string)
    requires word != "" && forall j: nat :: j < |head| ==> !StartsAt(head + word + tail, j, word)
    ensures SplitAtWord(head + word + tail, word) == Some((head, tail))
  {
    var s := head + word + tail;
    if head == "" {
      assert s[|word|..] == tail;
    } else {
      var t := head[1..] + word + tail;
      assert s[1..] == t;
      assert !StartsAt(s, 0, word);
      StartsAtIsPrefix(s, 0, word);
      assert s[0..] == s;
      forall j: nat | j < |head| - 1 ensures !StartsAt(t, j, word) {
        assert !StartsAt(s, j + 1, word);
        assert j + |word| <= |t| ==> t[j..j + |word|] == s[j + 1..j + 1 + |word|];
      }
      SplitAtWordAt(head[1..], word, tail);
      assert [head[0]] + head[1..] == head;
    }
  }

  // ---- Headers ----------------------------------------------------------------------------

  predicate Spaceless(s: string) { ' ' !in s }

  lemma PrintedNumber(n: nat)
    requires n < USIZE_LIMIT
    ensures ParseUsize(Decimal.Print(n)) == Some(n) && ',' !in Decimal.Print(n) && ' ' !in Decimal.Print(n)
  {
    var s := Decimal.Print(n);
    Decimal.ParsePrint(n);
    assert s[0] in s;
    assert forall c <- s :: Decimal.IsDigit(c);
  }

  lemma RangeReadsBack(start: nat, count: nat)
    requires start < USIZE_LIMIT && count < USIZE_LIMIT
    ensures ParseRange(Range(start, count)) == Ok((start, count)) && Spaceless(Range(start, count))
  {
    PrintedNumber(start);
    PrintedNumber(count);
    assert Range(start, count) == Decimal.Print(start) + [','] + Decimal.Print(count);
    SplitOnceAt(Decimal.Print(start), ',', Decimal.Print(count));
  }

  lemma SplitHeader(a: string, b: string, tail: string)
    requires Spaceless(a) && Spaceless(b)
    ensures SplitAtWord(a + " +" + b + " @@" + tail, " @@") == Some((a + " +" + b, tail))
    ensures SplitAtWord(a + " +" + b, " +") == Some((a, b))
  {
    var head := a + " +" + b;
    var s := head + " @@" + tail;
    forall j: nat | j < |head| ensures !StartsAt(s, j, " @@") {
      if j == |a| { DiffersAt(s, j, " @@", 1); } else { DiffersAt(s, j, " @@", 0); }
    }
    SplitAtWordAt(head, " @@", tail);
    forall j: nat | j < |a| ensures !StartsAt(head, j, " +") {
      assert head[j] == a[j] && a[j] in a;
      DiffersAt(head, j, " +", 0);
    }
    SplitAtWordAt(a, " +", b);
  }

  /** A header's ranges are read whatever heading follows them. */
  lemma ParseHeaderParts(a: string, b: string, tail: string, x: (nat, nat), y: (nat, nat))
    requires ParseRange(a) == Ok(x) && ParseRange(b) == Ok(y) && Spaceless(a) && Spaceless(b)
    ensures ParseHunkHeader("@@ -" + (a + " +" + b + " @@" + tail)) == Ok(HunkBuilder(x.0, x.1, y.0, y.1, 0, 0, []))
  {
    SplitHeader(a, b, tail);
    StripPrefixOf("@@ -", a + " +" + b + " @@" + tail);
  }

  lemma HeaderReadsBack(h: Hunk)
    requires PrintableHunk(h)
    ensures ParseHunkHeader(HunkHeader(h))
            == Ok(HunkBuilder(h.oldStart, OldCount(h.lines, |h.lines|), h.newStart, NewCount(h.lines, |h.lines|), 0, 0, []))
  {
    var a, b := Range(h.oldStart, OldCount(h.lines, |h.lines|)), Range(h.newStart, NewCount(h.lines, |h.lines|));
    RangeReadsBack(h.oldStart, OldCount(h.lines, |h.lines|));
    RangeReadsBack(h.newStart, NewCount(h.lines, |h.lines|));
    ParseHeaderParts(a, b, "", (h.oldStart, OldCount(h.lines, |h.lines|)), (h.newStart, NewCount(h.lines, |h.lines|)));
    AppendFour("@@ -", a, " +", b, " @@");
    assert a + " +" + b + " @@" + "" == a + " +" + b + " @@";
  }

  lemma AppendFour(s: string, a: string, b: string, c: string, d: string)
    ensures s + a + b + c + d == s + (a + b + c + d)
  {
  }

  lemma HeaderStarts(h: Hunk)
    ensures "@@ " <= HunkHeader(h) && !("diff --git " <= HunkHeader(h))
  {
    assert HunkHeader(h)[0] == '@' && HunkHeader(h)[..3] == "@@ ";
  }

  // ---- Running the parser over printed lines ----------------------------------------------

  ghost predicate Follows(s: State, line: string, next: State) { Step(s, line) == Ok(next) }

  ghost predicate Reads(s: State, lines: seq<string>, end: State) { Run(s, lines) == Ok(end) }

  lemma {:induction false} ReadsThrough(states: seq<State>, lines: seq<string>)
    requires |states| == |lines| + 1
    requires forall i :: 0 <= i < |lines| ==> Follows(states[i], lines[i], states[i + 1])
    ensures Reads(states[0], lines, states[|lines|])
    decreases |lines|
  {
    if lines != [] {
      var rest := states[1..];
      forall i | 0 <= i < |lines| - 1 ensures Follows(rest[i], lines[1..][i], rest[i + 1]) {
        assert Follows(states[i + 1], lines[i + 1], states[i + 2]);
      }
      assert Follows(states[0], lines[0], states[1]);
      ReadsThrough(rest, lines[1..]);
    }
  }

  lemma {:induction false} ReadsBoth(s: State, a: seq<string>, middle: State, b: seq<string>, end: State)
    requires Reads(s, a, middle) && Reads(middle, b, end)
    ensures Reads(s, a + b, end)
    decreases |a|
  {
    if a == [] {
      assert a + b == b;
    } else {
      assert (a + b)[0] == a[0] && (a + b)[1..] == a[1..] + b;
      ReadsBoth(Step(s, a[0]).value, a[1..], middle, b, end);
    }
  }

  // ---- Hunks ------------------------------------------------------------------------------

  /** The builder after the first `n` lines of a hunk. */
  ghost function Partial(h: Hunk, n: nat): HunkBuilder
    requires n <= |h.lines|
  {
    HunkBuilder(h.oldStart, OldCount(h.lines, |h.lines|), h.newStart, NewCount(h.lines, |h.lines|),
                OldCount(h.lines, n), NewCount(h.lines, n), h.lines[..n])
  }

  lemma PushHunkLine(h: Hunk, n: nat)
    requires PrintableHunk(h) && n < |h.lines|
    ensures PushLine(Partial(h, n), LineText(h.lines[n])) == Ok(Partial(h, n + 1))
  {
    var line := h.lines[n];
    var text := LineText(line);
    assert text[0] in [' ', '+', '-'] && text[1..] == line.content;
    assert NumberedAt(h.oldStart, h.newStart, h.lines, n);
    assert h.lines[..n + 1] == h.lines[..n] + [line];
  }

  /** A hunk line is pushed, whatever file header its content may look like. */
  lemma StepHunkLine(s: State, h: Hunk, n: nat)
    requires PrintableHunk(h) && n < |h.lines| && s.hunk == Some(Partial(h, n))
    ensures Follows(s, LineText(h.lines[n]), s.(hunk := Some(Partial(h, n + 1))))
  {
    var text := LineText(h.lines[n]);
    assert text[0] in [' ', '+', '-'];
    PushHunkLine(h, n);
  }

  /** A whole printed hunk, read after whatever hunk was open before. */
  lemma ReadsHunk(s: State, b: FileBuilder, h: Hunk)
    requires PrintableHunk(h) && CloseHunk(s) == Ok(State(s.files, Some(b), None))
    ensures Reads(s, HunkText(h), State(s.files, Some(b), Some(Partial(h, |h.lines|))))
  {
    var at := n requires 0 <= n <= |h.lines| => State(s.files, Some(b), Some(Partial(h, n)));
    var states := seq(|h.lines| + 1, at);
    var texts := LineTexts(h.lines);
    forall n | 0 <= n < |texts| ensures Follows(states[n], texts[n], states[n + 1]) {
      StepHunkLine(states[n], h, n);
    }
    ReadsThrough(states, texts);
    FollowsHunkHeader(s, b, h);
    ReadsThrough([s, states[0]], [HunkHeader(h)]);
    ReadsBoth(s, [HunkHeader(h)], states[0], texts, states[|texts|]);
  }

  lemma FollowsHunkHeader(s: State, b: FileBuilder, h: Hunk)
    requires PrintableHunk(h) && CloseHunk(s) == Ok(State(s.files, Some(b), None))
    ensures Follows(s, HunkHeader(h), State(s.files, Some(b), Some(Partial(h, 0))))
  {
    HeaderReadsBack(h);
    HeaderStarts(h);
    assert h.lines[..0] == [];
  }

  /** The parser's state after the hunks of a file: the last of them is still open. */
  ghost function AfterHunks(files: seq<FilePatch>, b: FileBuilder, hunks: seq<Hunk>): State {
    if hunks == [] then State(files, Some(b), None)
    else
      var n := |hunks| - 1;
      State(files, Some(b.(hunks := b.hunks + hunks[..n])), Some(Partial(hunks[n], |hunks[n].lines|)))
  }

  lemma CloseAfterHunks(files: seq<FilePatch>, b: FileBuilder, hunks: seq<Hunk>)
    ensures CloseHunk(AfterHunks(files, b, hunks)) == Ok(State(files, Some(b.(hunks := b.hunks + hunks)), None))
  {
    if hunks == [] {
      assert b.hunks + hunks == b.hunks;
    } else {
      var n, h := |hunks| - 1, hunks[|hunks| - 1];
      assert h.lines[..|h.lines|] == h.lines;
      assert b.hunks + hunks[..n] + [h] == b.hunks + hunks;
    }
  }

  lemma {:induction false} ReadsHunks(files: seq<FilePatch>, b: FileBuilder, hunks: seq<Hunk>)
    requires forall h <- hunks :: PrintableHunk(h)
    ensures Reads(State(files, Some(b), None), HunksText(hunks), AfterHunks(files, b, hunks))
  {
    if hunks != [] {
      var front, h := hunks[..|hunks| - 1], hunks[|hunks| - 1];
      ReadsHunks(files, b, front);
      CloseAfterHunks(files, b, front);
      ReadsHunk(AfterHunks(files, b, front), b.(hunks := b.hunks + front), h);
      ReadsBoth(State(files, Some(b), None), HunksText(front), AfterHunks(files, b, front), HunkText(h), AfterHunks(files, b, hunks));
    }
  }

  // ---- Files ------------------------------------------------------------------------------

  ghost function Header(f: FilePatch): FileBuilder { FileBuilder(f.oldPath, f.newPath, f.change.Renamed?, f.change.Binary?, []) }

  lemma DiffPathsReadBack(f: FilePatch)
    requires PrintableFile(f)
    ensures ParseDiffPaths(GitPath("a/", f.oldPath) + " " + GitPath("b/", f.newPath)) == (f.oldPath, f.newPath)
  {
    GitPathReadsBack("a/", f.oldPath);
    GitPathReadsBack("b/", f.newPath);
    TwoWords(GitPath("a/", f.oldPath), GitPath("b/", f.newPath));
  }

  lemma FollowsSection(s: State, files: seq<FilePatch>, body: string)
    requires Close(s) == Ok(files)
    ensures var (before, after) := ParseDiffPaths(body);
            Follows(s, "diff --git " + body, State(files, Some(NEW_FILE.(oldPath := before, newPath := after)), None))
  {
    StripPrefixOf("diff --git ", body);
  }

  lemma FollowsDiffLine(s: State, files: seq<FilePatch>, f: FilePatch)
    requires PrintableFile(f) && Close(s) == Ok(files)
    ensures Follows(s, DiffLine(f), State(files, Some(NEW_FILE.(oldPath := f.oldPath, newPath := f.newPath)), None))
  {
    var a, b := GitPath("a/", f.oldPath), GitPath("b/", f.newPath);
    DiffPathsReadBack(f);
    FollowsSection(s, files, a + " " + b);
    ConcatAssociates("diff --git ", a, " ");
    ConcatAssociates("diff --git ", a + " ", b);
  }

  lemma FollowsHeaderLine(s: State, line: string)
    requires s.hunk.None? && line != "" && line[0] != 'd' && line[0] != '@'
    ensures Follows(s, line, HeaderLine(s, line))
  {
  }

  lemma FollowsOldSide(files: seq<FilePatch>, b: FileBuilder, path: Option<string>)
    requires path.Some? ==> PlainPath(path.value)
    ensures Follows(State(files, Some(b), None), "--- " + GitPath("a/", path), State(files, Some(b.(oldPath := path)), None))
  {
    var text := GitPath("a/", path);
    GitPathReadsBack("a/", path);
    StripPrefixOf("--- ", text);
    assert ("--- " + text)[0] == '-';
    FollowsHeaderLine(State(files, Some(b), None), "--- " + text);
  }

  lemma FollowsNewSide(files: seq<FilePatch>, b: FileBuilder, path: Option<string>)
    requires path.Some? ==> PlainPath(path.value)
    ensures Follows(State(files, Some(b), None), "+++ " + GitPath("b/", path), State(files, Some(b.(newPath := path)), None))
  {
    var text := GitPath("b/", path);
    GitPathReadsBack("b/", path);
    StripPrefixOf("+++ ", text);
    assert ("+++ " + text)[0] == '+';
    FollowsHeaderLine(State(files, Some(b), None), "+++ " + text);
  }

  lemma FollowsRenameFrom(files: seq<FilePatch>, b: FileBuilder, path: string)
    requires PlainPath(path)
    ensures Follows(State(files, Some(b), None), "rename from " + path,
                    State(files, Some(b.(oldPath := Some(path), renamed := true)), None))
  {
    PlainPathIsUnquoted(path);
    StripPrefixOf("rename from ", path);
    assert ("rename from " + path)[0] == 'r';
    FollowsHeaderLine(State(files, Some(b), None), "rename from " + path);
  }

  lemma FollowsRenameTo(files: seq<FilePatch>, b: FileBuilder, path: string)
    requires PlainPath(path)
    ensures Follows(State(files, Some(b), None), "rename to " + path,
                    State(files, Some(b.(newPath := Some(path), renamed := true)), None))
  {
    PlainPathIsUnquoted(path);
    StripPrefixOf("rename to ", path);
    assert ("rename to " + path)[0] == 'r' && ("rename to " + path)[7] == 't' && "rename from "[7] == 'f';
    FollowsHeaderLine(State(files, Some(b), None), "rename to " + path);
  }

  lemma FollowsBinary(files: seq<FilePatch>, b: FileBuilder)
    ensures Follows(State(files, Some(b), None), BINARY, State(files, Some(b.(binary := true)), None))
  {
    assert BINARY[0] == 'B' && BINARY[..13] == "Binary files ";
    FollowsHeaderLine(State(files, Some(b), None), BINARY);
  }

  lemma ReadsChange(files: seq<FilePatch>, f: FilePatch)
    requires PrintableFile(f)
    ensures Reads(State(files, Some(NEW_FILE.(oldPath := f.oldPath, newPath := f.newPath)), None), ChangeTexts(f),
                  State(files, Some(Header(f)), None))
  {
    var b := NEW_FILE.(oldPath := f.oldPath, newPath := f.newPath);
    var s, end := State(files, Some(b), None), State(files, Some(Header(f)), None);
    match f.change {
      case Renamed =>
        FollowsRenameFrom(files, b, f.oldPath.value);
        FollowsRenameTo(files, b.(renamed := true), f.newPath.value);
        ReadsThrough([s, end, end], ChangeTexts(f));
      case Binary =>
        FollowsBinary(files, b);
        ReadsThrough([s, end], ChangeTexts(f));
      case _ =>
    }
  }

  lemma ReadsSides(files: seq<FilePatch>, f: FilePatch)
    requires PrintableFile(f)
    ensures Reads(State(files, Some(Header(f)), None), SideLines(f), State(files, Some(Header(f)), None))
  {
    var s := State(files, Some(Header(f)), None);
    FollowsOldSide(files, Header(f), f.oldPath);
    FollowsNewSide(files, Header(f), f.newPath);
    ReadsThrough([s, s, s], SideLines(f));
  }

  /** The parser's state after the files: the last of them is still open. */
  ghost function AfterFiles(files: seq<FilePatch>): State {
    if files == [] then START
    else var n := |files| - 1; AfterHunks(files[..n], Header(files[n]), files[n].hunks)
  }

  lemma FinishedHeader(f: FilePatch)
    requires PrintableFile(f)
    ensures FinishFile(Header(f).(hunks := Header(f).hunks + f.hunks)) == f
  {
    assert [] + f.hunks == f.hunks;
  }

  lemma CloseAfterFiles(files: seq<FilePatch>)
    requires forall f <- files :: PrintableFile(f)
    ensures Close(AfterFiles(files)) == Ok(files)
  {
    if files != [] {
      var n, f := |files| - 1, files[|files| - 1];
      assert f in files;
      CloseAfterHunks(files[..n], Header(f), f.hunks);
      FinishedHeader(f);
      assert files[..n] + [f] == files;
    }
  }

  lemma ReadsFile(s: State, files: seq<FilePatch>, f: FilePatch)
    requires PrintableFile(f) && Close(s) == Ok(files)
    ensures Reads(s, FileText(f), AfterHunks(files, Header(f), f.hunks))
  {
    var section := State(files, Some(NEW_FILE.(oldPath := f.oldPath, newPath := f.newPath)), None);
    var header := State(files, Some(Header(f)), None);
    FollowsDiffLine(s, files, f);
    ReadsThrough([s, section], [DiffLine(f)]);
    ReadsChange(files, f);
    ReadsBoth(s, [DiffLine(f)], section, ChangeTexts(f), header);
    ReadsSides(files, f);
    ReadsBoth(s, [DiffLine(f)] + ChangeTexts(f), header, SideLines(f), header);
    ReadsHunks(files, Header(f), f.hunks);
    ReadsBoth(s, [DiffLine(f)] + ChangeTexts(f) + SideLines(f), header, HunksText(f.hunks),
              AfterHunks(files, Header(f), f.hunks));
  }

  lemma {:induction false} ReadsFiles(files: seq<FilePatch>)
    requires forall f <- files :: PrintableFile(f)
    ensures Reads(START, FilesText(files), AfterFiles(files))
  {
    if files != [] {
      var front, f := files[..|files| - 1], files[|files| - 1];
      ReadsFiles(front);
      CloseAfterFiles(front);
      ReadsFile(AfterFiles(front), front, f);
      ReadsBoth(START, FilesText(front), AfterFiles(front), FileText(f), AfterFiles(files));
    }
  }

  // ---- Printed lines have no line break ---------------------------------------------------

  predicate PlainLines(lines: seq<string>) { forall l <- lines :: PlainLine(l) }

  lemma PlainAfter(prefix: string, s: string)
    requires '\n' !in prefix && s != "" && PlainLine(s)
    ensures PlainLine(prefix + s)
  {
    assert (prefix + s)[|prefix + s| - 1] == s[|s| - 1];
  }

  lemma WordIsPlain(s: string)
    requires Word(s)
    ensures PlainLine(s)
  {
    assert IsWhitespace('\n') && IsWhitespace('\r');
    assert s[|s| - 1] in s;
  }

  lemma HunkTextIsPlain(h: Hunk)
    requires PrintableHunk(h)
    ensures PlainLines(HunkText(h))
  {
    PlainHunkHeader(h);
    forall l <- LineTexts(h.lines) ensures PlainLine(l) {
      var i :| 0 <= i < |h.lines| && l == LineText(h.lines[i]);
      assert h.lines[i] in h.lines;
      var mark := [l[0]];
      assert l == mark + h.lines[i].content;
      if h.lines[i].content != "" { PlainAfter(mark, h.lines[i].content); }
    }
  }

  lemma PlainHunkHeader(h: Hunk)
    requires PrintableHunk(h)
    ensures PlainLine(HunkHeader(h))
  {
    var a, b := Range(h.oldStart, OldCount(h.lines, |h.lines|)), Range(h.newStart, NewCount(h.lines, |h.lines|));
    RangeHasNoBreak(h.oldStart, OldCount(h.lines, |h.lines|));
    RangeHasNoBreak(h.newStart, NewCount(h.lines, |h.lines|));
    PlainAfter("@@ -" + a + " +" + b, " @@");
  }

  lemma RangeHasNoBreak(start: nat, count: nat)
    ensures '\n' !in Range(start, count)
  {
    Decimal.ParsePrint(start);
    Decimal.ParsePrint(count);
    assert forall c <- Decimal.Print(start) :: Decimal.IsDigit(c);
    assert forall c <- Decimal.Print(count) :: Decimal.IsDigit(c);
  }

  lemma HeaderIsPlain(f: FilePatch)
    requires PrintableFile(f)
    ensures PlainLine(DiffLine(f)) && PlainLines(SideLines(f))
  {
    var a, b := GitPath("a/", f.oldPath), GitPath("b/", f.newPath);
    GitPathReadsBack("a/", f.oldPath);
    GitPathReadsBack("b/", f.newPath);
    WordIsPlain(a);
    WordIsPlain(b);
    PlainAfter("diff --git " + a + " ", b);
    PlainAfter("--- ", a);
    PlainAfter("+++ ", b);
  }

  lemma {:induction false} HunksArePlain(hunks: seq<Hunk>)
    requires forall h <- hunks :: PrintableHunk(h)
    ensures PlainLines(HunksText(hunks))
  {
    if hunks != [] {
      HunksArePlain(hunks[..|hunks| - 1]);
      HunkTextIsPlain(hunks[|hunks| - 1]);
    }
  }

  lemma FileTextIsPlain(f: FilePatch)
    requires PrintableFile(f)
    ensures PlainLines(FileText(f))
  {
    HeaderIsPlain(f);
    ChangeTextsArePlain(f);
    HunksArePlain(f.hunks);
  }

  lemma ChangeTextsArePlain(f: FilePatch)
    requires PrintableFile(f)
    ensures PlainLines(ChangeTexts(f))
  {
    match f.change {
      case Renamed =>
        WordIsPlain(f.oldPath.value);
        WordIsPlain(f.newPath.value);
        PlainAfter("rename from ", f.oldPath.value);
        PlainAfter("rename to ", f.newPath.value);
      case Binary => assert PlainLine(BINARY);
      case _ =>
    }
  }

  // ---- Printing and parsing ---------------------------------------------------------------

  lemma {:induction false} FilesArePlain(files: seq<FilePatch>)
    requires forall f <- files :: PrintableFile(f)
    ensures PlainLines(FilesText(files))
  {
    if files != [] {
      FilesArePlain(files[..|files| - 1]);
      FileTextIsPlain(files[|files| - 1]);
    }
  }

  /** Parsing what was printed gives back the files, their hunks, line numbers and contents. */
  lemma ParsePrint(files: seq<FilePatch>)
    requires forall f <- files :: PrintableFile(f)
    ensures Parsed(Print(files)) == Ok(files)
  {
    FilesArePlain(files);
    LinesOfUnlines(FilesText(files));
    ReadsFiles(files);
    CloseAfterFiles(files);
    if files == [] { assert Print(files) == ""; }
  }
}
