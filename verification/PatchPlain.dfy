/** Ordinary unified patches, without `diff --git` lines: which of them the parser reads. */
module PatchPlain {
  import opened Seqs
  import opened Patches
  import opened PatchScan
  import opened PatchPrinting

  function PlainText(f: FilePatch): seq<string> { SideLines(f) + HunksText(f.hunks) }

  function PlainTexts(files: seq<FilePatch>): seq<string> {
    if files == [] then [] else PlainText(files[0]) + PlainTexts(files[1..])
  }

  /** The files one after the other, each with its two side lines and its hunks. */
  function PrintPlain(files: seq<FilePatch>): string { Unlines(PlainTexts(files)) }

  ghost predicate PlainFile(f: FilePatch) { PrintableFile(f) && !f.change.Renamed? && !f.change.Binary? }

  ghost predicate PlainFiles(files: seq<FilePatch>) { forall f <- files :: PlainFile(f) }

  // ---- Printed lines ----------------------------------------------------------------------

  /** A line a hunk takes in, or one that opens a hunk. */
  predicate HunkLike(line: string) { "@@ " <= line || (line != "" && line[0] in [' ', '+', '-']) }

  ghost predicate HunkLikes(lines: seq<string>) { forall i :: 0 <= i < |lines| ==> HunkLike(lines[i]) }

  lemma HunkLikesBoth(a: seq<string>, b: seq<string>)
    requires HunkLikes(a) && HunkLikes(b)
    ensures HunkLikes(a + b)
  {
  }

  lemma LineIsHunkLike(line: PatchLine)
    ensures HunkLike(LineText(line))
  {
    assert LineText(line)[0] in [' ', '+', '-'];
  }

  lemma HunkIsHunkLike(h: Hunk)
    ensures HunkLikes(HunkText(h))
  {
    HeaderStarts(h);
    var texts := HunkText(h);
    forall i | 0 <= i < |texts| ensures HunkLike(texts[i]) {
      if i > 0 {
        assert texts[i] == LineText(h.lines[i - 1]);
        LineIsHunkLike(h.lines[i - 1]);
      }
    }
  }

  lemma {:induction false} HunksAreHunkLike(hunks: seq<Hunk>)
    ensures HunkLikes(HunksText(hunks))
  {
    if hunks != [] {
      HunksAreHunkLike(hunks[..|hunks| - 1]);
      HunkIsHunkLike(hunks[|hunks| - 1]);
      HunkLikesBoth(HunksText(hunks[..|hunks| - 1]), HunkText(hunks[|hunks| - 1]));
    }
  }

  lemma SidesAreHunkLike(f: FilePatch)
    ensures HunkLikes(SideLines(f)) && |SideLines(f)| == 2 && SideLines(f)[0][0] == '-'
  {
    assert SideLines(f)[0][0] == '-' && SideLines(f)[1][0] == '+';
  }

  lemma PlainTextIsHunkLike(f: FilePatch)
    ensures HunkLikes(PlainText(f))
  {
    HunksAreHunkLike(f.hunks);
    SidesAreHunkLike(f);
    HunkLikesBoth(SideLines(f), HunksText(f.hunks));
  }

  lemma {:induction false} PlainTextsAreHunkLike(files: seq<FilePatch>)
    ensures HunkLikes(PlainTexts(files))
  {
    if files != [] {
      PlainTextIsHunkLike(files[0]);
      PlainTextsAreHunkLike(files[1..]);
      HunkLikesBoth(PlainText(files[0]), PlainTexts(files[1..]));
    }
  }

  lemma {:induction false} PlainTextsHaveNoBreak(files: seq<FilePatch>)
    requires PlainFiles(files)
    ensures PlainLines(PlainTexts(files))
  {
    if files != [] {
      assert PlainFile(files[0]);
      HeaderIsPlain(files[0]);
      HunksArePlain(files[0].hunks);
      PlainTextsHaveNoBreak(files[1..]);
    }
  }

  // ---- One file ---------------------------------------------------------------------------

  lemma ReadsFirstSides(f: FilePatch)
    requires PlainFile(f)
    ensures Reads(START, SideLines(f), State([], Some(Header(f)), None))
  {
    var a, b := GitPath("a/", f.oldPath), GitPath("b/", f.newPath);
    var middle := State([], Some(NEW_FILE.(oldPath := f.oldPath)), None);
    FollowsFirstSide(f.oldPath);
    FollowsNewSide([], NEW_FILE.(oldPath := f.oldPath), f.newPath);
    ReadsThrough([START, middle, State([], Some(Header(f)), None)], SideLines(f));
  }

  lemma FollowsFirstSide(path: Option<string>)
    requires path.Some? ==> PlainPath(path.value)
    ensures Follows(START, "--- " + GitPath("a/", path), State([], Some(NEW_FILE.(oldPath := path)), None))
  {
    var text := GitPath("a/", path);
    GitPathReadsBack("a/", path);
    StripPrefixOf("--- ", text);
    assert ("--- " + text)[0] == '-';
    FollowsHeaderLine(START, "--- " + text);
  }

  /** The first file's lines are read to a state from which it is closed. */
  lemma ReadsFirst(f: FilePatch)
    requires PlainFile(f)
    ensures Reads(START, PlainText(f), AfterHunks([], Header(f), f.hunks))
    ensures Close(AfterHunks([], Header(f), f.hunks)) == Ok([f])
  {
    ReadsFirstSides(f);
    ReadsHunks([], Header(f), f.hunks);
    ReadsBoth(START, SideLines(f), State([], Some(Header(f)), None), HunksText(f.hunks),
              AfterHunks([], Header(f), f.hunks));
    var files := [f];
    assert files[..0] == [];
    CloseAfterFiles(files);
  }

  // ---- More files -------------------------------------------------------------------------

  /** Without a section line nothing is finished before the end, so at most one file comes out. */
  lemma {:induction false} RunFinishesNone(s: State, lines: seq<string>)
    requires HunkLikes(lines) && Run(s, lines).Ok?
    ensures Run(s, lines).value.files == s.files
    decreases |lines|
  {
    if lines != [] {
      assert HunkLike(lines[0]);
      StepFinishesNone(s, lines[0]);
      RunFinishesNone(Step(s, lines[0]).value, lines[1..]);
    }
  }

  lemma StepFinishesNone(s: State, line: string)
    requires HunkLike(line) && Step(s, line).Ok?
    ensures Step(s, line).value.files == s.files
  {
    assert line[0] != 'd';
  }

  /** The open hunk has more old-side lines than its header announced. */
  ghost predicate Overfull(s: State) { s.file.Some? && s.hunk.Some? && s.hunk.value.oldSeen > s.hunk.value.oldCount }

  lemma StepOverfull(s: State, line: string)
    requires Overfull(s) && HunkLike(line)
    ensures Step(s, line) == Err(HunkCountMismatch) || (Step(s, line).Ok? && Overfull(Step(s, line).value))
  {
    assert line[0] != 'd' && line[0] != '\\';
    if !("@@ " <= line) { assert line[0] in [' ', '+', '-']; }
  }

  lemma {:induction false} RunOverfull(s: State, lines: seq<string>)
    requires Overfull(s) && HunkLikes(lines)
    ensures Run(s, lines) == Err(HunkCountMismatch) || (Run(s, lines).Ok? && Overfull(Run(s, lines).value))
    decreases |lines|
  {
    if lines != [] {
      StepOverfull(s, lines[0]);
      if Step(s, lines[0]).Ok? { RunOverfull(Step(s, lines[0]).value, lines[1..]); }
    }
  }

  /** After a complete hunk, the next file's first side line is taken for a removed line. */
  lemma SideLineOverfills(files: seq<FilePatch>, b: FileBuilder, h: Hunk, line: string)
    requires line != "" && line[0] == '-'
    ensures var s := State(files, Some(b), Some(Partial(h, |h.lines|))); Step(s, line).Ok? && Overfull(Step(s, line).value)
  {
  }

  lemma {:induction false} RunContinues(s: State, a: seq<string>, middle: State, b: seq<string>)
    requires Reads(s, a, middle)
    ensures Run(s, a + b) == Run(middle, b)
    decreases |a|
  {
    if a == [] {
      assert a + b == b;
    } else {
      assert (a + b)[0] == a[0] && (a + b)[1..] == a[1..] + b;
      RunContinues(Step(s, a[0]).value, a[1..], middle, b);
    }
  }

  /** Lines that start with a side line, read with a complete hunk open, fail at the latest at the end. */
  lemma Swallowed(files: seq<FilePatch>, b: FileBuilder, h: Hunk, line: string, rest: seq<string>)
    requires line != "" && line[0] == '-' && HunkLikes(rest)
    ensures Fails(Run(State(files, Some(b), Some(Partial(h, |h.lines|))), [line] + rest))
  {
    var s := State(files, Some(b), Some(Partial(h, |h.lines|)));
    SideLineOverfills(files, b, h, line);
    RunOverfull(Step(s, line).value, rest);
    assert ([line] + rest)[1..] == rest;
  }

  /** Refused for its counts, during the run or when the last hunk is closed. */
  ghost predicate Fails(end: Result<State>) {
    end == Err(HunkCountMismatch) || (end.Ok? && Close(end.value) == Err(HunkCountMismatch))
  }

  lemma SecondStarts(files: seq<FilePatch>) returns (line: string, rest: seq<string>)
    requires files != []
    ensures PlainTexts(files) == [line] + rest && line != "" && line[0] == '-' && HunkLikes(rest)
  {
    var texts := PlainTexts(files);
    PlainTextsAreHunkLike(files);
    SidesAreHunkLike(files[0]);
    assert texts[0] == SideLines(files[0])[0];
    line, rest := texts[0], texts[1..];
    forall i | 0 <= i < |rest| ensures HunkLike(rest[i]) { assert HunkLike(texts[i + 1]); }
  }

  lemma SwallowedAfter(f: FilePatch, line: string, rest: seq<string>)
    requires f.hunks != [] && line != "" && line[0] == '-' && HunkLikes(rest)
    ensures Fails(Run(AfterHunks([], Header(f), f.hunks), [line] + rest))
  {
    var n := |f.hunks| - 1;
    Swallowed([], Header(f).(hunks := Header(f).hunks + f.hunks[..n]), f.hunks[n], line, rest);
  }

  lemma FailsAfter(s: State, a: seq<string>, middle: State, b: seq<string>)
    requires Reads(s, a, middle) && Fails(Run(middle, b))
    ensures Fails(Run(s, a + b))
  {
    RunContinues(s, a, middle, b);
  }

  /** A second file is swallowed by the first one's last hunk. */
  lemma SecondFileFails(files: seq<FilePatch>)
    requires PlainFiles(files) && |files| >= 2 && files[0].hunks != []
    ensures Fails(Run(START, PlainTexts(files)))
  {
    assert PlainFile(files[0]);
    var line, rest := SecondStarts(files[1..]);
    FirstThenSide(files[0], line, rest);
  }

  lemma FirstThenSide(f: FilePatch, line: string, rest: seq<string>)
    requires PlainFile(f) && f.hunks != [] && line != "" && line[0] == '-' && HunkLikes(rest)
    ensures Fails(Run(START, PlainText(f) + ([line] + rest)))
  {
    ReadsFirst(f);
    SwallowedAfter(f, line, rest);
    FailsAfter(START, PlainText(f), AfterHunks([], Header(f), f.hunks), [line] + rest);
  }

  lemma ParsedPlain(files: seq<FilePatch>)
    requires PlainFiles(files)
    ensures Lines(PrintPlain(files)) == PlainTexts(files)
  {
    PlainTextsHaveNoBreak(files);
    LinesOfUnlines(PlainTexts(files));
  }

  /** An ordinary patch of two or more files whose first has hunks is refused. */
  lemma SeveralFilesAreRefused(files: seq<FilePatch>)
    requires PlainFiles(files) && |files| >= 2 && files[0].hunks != []
    ensures Parsed(PrintPlain(files)) == Err(HunkCountMismatch)
  {
    ParsedPlain(files);
    SecondFileFails(files);
  }

  lemma ParsedFrom(input: string, lines: seq<string>, end: State, files: seq<FilePatch>)
    requires Lines(input) == lines && Reads(START, lines, end) && Close(end) == Ok(files) && files != []
    ensures Parsed(input) == Ok(files)
  {
  }

  lemma OneFileIsRead(f: FilePatch)
    requires PlainFile(f)
    ensures Parsed(PrintPlain([f])) == Ok([f])
  {
    var files := [f];
    assert files[1..] == [] && PlainTexts(files) == PlainText(f) + [];
    assert PlainText(f) + [] == PlainText(f);
    ParsedPlain(files);
    ReadsFirst(f);
    ParsedFrom(PrintPlain(files), PlainText(f), AfterHunks([], Header(f), f.hunks), files);
  }

  lemma AtMostOneFile(input: string)
    requires HunkLikes(Lines(input)) && Parsed(input).Ok?
    ensures |Parsed(input).value| <= 1
  {
    RunFinishesNone(START, Lines(input));
  }

  /** An ordinary patch is read back exactly when it is of one file, or empty. */
  lemma OrdinaryExactly(files: seq<FilePatch>)
    requires PlainFiles(files)
    ensures Parsed(PrintPlain(files)) == Ok(files) <==> |files| <= 1
  {
    if files == [] {
      assert PrintPlain(files) == "";
    } else if |files| == 1 {
      assert PlainFile(files[0]) && files == [files[0]];
      OneFileIsRead(files[0]);
    } else {
      ParsedPlain(files);
      PlainTextsAreHunkLike(files);
      if Parsed(PrintPlain(files)).Ok? { AtMostOneFile(PrintPlain(files)); }
    }
  }
}
