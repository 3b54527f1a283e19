/** The hunks of an accepted patch correspond one to one to the header lines of its text. */
module PatchHeaders {
  import opened Seqs
  import opened Patches
  import opened PatchScan

  /** The lines that open a hunk, in order. */
  function HeaderLines(lines: seq<string>): seq<string> {
    if lines == [] then [] else (if "@@ " <= lines[0] then [lines[0]] else []) + HeaderLines(lines[1..])
  }

  /** All hunks of all files, in order. */
  function HunksOf(files: seq<FilePatch>): seq<Hunk> {
    if files == [] then [] else HunksOf(files[..|files| - 1]) + files[|files| - 1].hunks
  }

  ghost predicate Announces(line: string, oldStart: nat, oldCount: nat, newStart: nat, newCount: nat) {
    ParseHunkHeader(line) == Ok(HunkBuilder(oldStart, oldCount, newStart, newCount, 0, 0, []))
  }

  /** A hunk starts where its header says and has as many old-side and new-side lines as it says. */
  ghost predicate Meets(h: Hunk, line: string) {
    Announces(line, h.oldStart, OldCount(h.lines, |h.lines|), h.newStart, NewCount(h.lines, |h.lines|))
  }

  ghost predicate AllMeet(hunks: seq<Hunk>, lines: seq<string>) {
    |hunks| == |lines| && forall i :: 0 <= i < |hunks| ==> Meets(hunks[i], lines[i])
  }

  ghost function ClosedHunks(s: State): seq<Hunk> {
    HunksOf(s.files) + if s.file.Some? then s.file.value.hunks else []
  }

  ghost predicate OpenHunk(b: HunkBuilder, line: string) {
    BuilderOk(b) && Announces(line, b.oldStart, b.oldCount, b.newStart, b.newCount)
  }

  /** What the headers read so far say about the parser's state. */
  ghost predicate Tied(s: State, headers: seq<string>) {
    if s.hunk.None? then AllMeet(ClosedHunks(s), headers)
    else headers != [] && AllMeet(ClosedHunks(s), headers[..|headers| - 1]) && OpenHunk(s.hunk.value, headers[|headers| - 1])
  }

  lemma AllMeetMore(hunks: seq<Hunk>, headers: seq<string>, h: Hunk, line: string)
    requires AllMeet(hunks, headers) && Meets(h, line)
    ensures AllMeet(hunks + [h], headers + [line])
  {
  }

  lemma FinishedMeets(b: HunkBuilder, line: string)
    requires OpenHunk(b, line) && FinishHunk(b).Ok?
    ensures Meets(FinishHunk(b).value, line)
  {
  }

  lemma CloseHunkTies(s: State, headers: seq<string>)
    requires Tied(s, headers) && CloseHunk(s).Ok?
    ensures CloseHunk(s).value.hunk.None? && AllMeet(ClosedHunks(CloseHunk(s).value), headers)
  {
    if s.hunk.Some? {
      var h, b, before := FinishHunk(s.hunk.value).value, s.file.value, headers[..|headers| - 1];
      FinishedMeets(s.hunk.value, headers[|headers| - 1]);
      AllMeetMore(ClosedHunks(s), before, h, headers[|headers| - 1]);
      assert before + [headers[|headers| - 1]] == headers;
      ConcatAssociates(HunksOf(s.files), b.hunks, [h]);
    }
  }

  lemma CloseFileTies(s: State, headers: seq<string>)
    requires s.hunk.None? && AllMeet(ClosedHunks(s), headers)
    ensures AllMeet(HunksOf(CloseFile(s).files), headers)
  {
    if s.file.Some? {
      assert CloseFile(s).files[..|s.files|] == s.files;
    } else {
      assert HunksOf(s.files) + [] == HunksOf(s.files);
    }
  }

  lemma StartHunkTies(s: State, headers: seq<string>, line: string, b: HunkBuilder)
    requires s.hunk.None? && AllMeet(ClosedHunks(s), headers) && ParseHunkHeader(line) == Ok(b)
    ensures Tied(s.(hunk := Some(b)), headers + [line])
  {
    assert (headers + [line])[..|headers|] == headers;
    assert b.lines == [] && b.oldSeen == 0 && b.newSeen == 0;
  }

  lemma HeaderLineTies(s: State, headers: seq<string>, line: string)
    requires s.hunk.None? && Tied(s, headers)
    ensures Tied(HeaderLine(s, line), headers)
  {
    assert ClosedHunks(HeaderLine(s, line)) == ClosedHunks(s);
  }

  lemma PushTies(s: State, headers: seq<string>, line: string)
    requires s.hunk.Some? && Tied(s, headers) && PushLine(s.hunk.value, line).Ok?
    ensures Tied(s.(hunk := Some(PushLine(s.hunk.value, line).value)), headers)
  {
    PushKeepsNumbers(s.hunk.value, line);
  }

  lemma StepTies(s: State, headers: seq<string>, line: string)
    requires Tied(s, headers) && Step(s, line).Ok?
    ensures Tied(Step(s, line).value, headers + if "@@ " <= line then [line] else [])
  {
    assert headers + [] == headers;
    if "diff --git " <= line {
      DiffIsNoHeader(line);
      CloseHunkTies(s, headers);
      CloseFileTies(CloseHunk(s).value, headers);
      assert HunksOf(Step(s, line).value.files) + [] == HunksOf(Step(s, line).value.files);
    } else if "@@ " <= line {
      CloseHunkTies(s, headers);
      StartHunkTies(CloseHunk(s).value, headers, line, ParseHunkHeader(line).value);
    } else if s.hunk.Some? {
      if line != "\\ No newline at end of file" { PushTies(s, headers, line); }
    } else {
      HeaderLineTies(s, headers, line);
    }
  }

  lemma DiffIsNoHeader(line: string)
    requires "diff --git " <= line
    ensures !("@@ " <= line)
  {
    assert line[0] == 'd';
  }

  lemma {:induction false} RunTies(s: State, headers: seq<string>, lines: seq<string>)
    requires Tied(s, headers) && Run(s, lines).Ok?
    ensures Tied(Run(s, lines).value, headers + HeaderLines(lines))
    decreases |lines|
  {
    if lines == [] {
      assert headers + [] == headers;
    } else {
      var first: seq<string> := if "@@ " <= lines[0] then [lines[0]] else [];
      StepTies(s, headers, lines[0]);
      RunTies(Step(s, lines[0]).value, headers + first, lines[1..]);
      ConcatAssociates(headers, first, HeaderLines(lines[1..]));
    }
  }

  /**
   * In every accepted patch the hunks of all files, in order, are those announced by the header lines
   * of the text, one for one: same starts, and line totals equal to the announced counts.
   */
  lemma AcceptedMeetsHeaders(input: string)
    requires Parsed(input).Ok?
    ensures AllMeet(HunksOf(Parsed(input).value), HeaderLines(Lines(input)))
  {
    var lines := Lines(input);
    var end := Run(START, lines).value;
    RunTies(START, [], lines);
    assert [] + HeaderLines(lines) == HeaderLines(lines);
    CloseHunkTies(end, HeaderLines(lines));
    CloseFileTies(CloseHunk(end).value, HeaderLines(lines));
  }
}
