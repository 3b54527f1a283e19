/** Unified patches: the line-driven parser of `blindfold-diff`. */
module Patches {
  import opened Seqs
  import Decimal

  const USIZE_LIMIT: nat := 0x1_0000_0000_0000_0000

  datatype FileChange = Added | Modified | Deleted | Renamed | Binary

  datatype LineKind = Context | Addition | Removal

  datatype PatchLine = PatchLine(kind: LineKind, oldLine: Option<nat>, newLine: Option<nat>, content: string)

  datatype Hunk = Hunk(oldStart: nat, newStart: nat, lines: seq<PatchLine>)

  datatype FilePatch = FilePatch(oldPath: Option<string>, newPath: Option<string>, change: FileChange, hunks: seq<Hunk>)

  datatype PatchError = HunkWithoutFile | InvalidHunkHeader | InvalidHunkLine | HunkCountMismatch | NoFileSections

  datatype Result<+T> = Ok(value: T) | Err(error: PatchError)

  // ---- Lines and words --------------------------------------------------------------------

  function StripCr(line: string): string {
    if line != "" && line[|line| - 1] == '\r' then line[..|line| - 1] else line
  }

  /** `str::lines`: a line ends at LF or CR LF; the last one needs no end. */
  function Lines(s: string): seq<string>
    decreases |s|
  {
    if s == "" then []
    else
      var i := IndexOf(s, '\n');
      if i == |s| then [s] else [StripCr(s[..i])] + Lines(s[i + 1..])
  }

  predicate IsWhitespace(c: char) {
    c in [' ', '\t', '\n', '\U{0B}', '\U{0C}', '\r', '\U{85}', '\U{A0}', '\U{1680}', '\U{2028}', '\U{2029}', '\U{202F}', '\U{205F}', '\U{3000}']
    || '\U{2000}' <= c <= '\U{200A}'
  }

  /** Length of the leading run without whitespace. */
  function WordLength(s: string): (n: nat)
    ensures n <= |s|
  {
    if s == "" || IsWhitespace(s[0]) then 0 else 1 + WordLength(s[1..])
  }

  function SplitWhitespace(s: string): seq<string>
    decreases |s|
  {
    if s == "" then []
    else if IsWhitespace(s[0]) then SplitWhitespace(s[1..])
    else
      var n := WordLength(s);
      assert n > 0;
      [s[..n]] + SplitWhitespace(s[n..])
  }

  /** The parts around the first occurrence of a word. */
  function SplitAtWord(s: string, word: string): Option<(string, string)> {
    if word <= s then Some(("", s[|word|..]))
    else if s == "" then None
    else
      var rest := SplitAtWord(s[1..], word);
      if rest.None? then None else Some(([s[0]] + rest.value.0, rest.value.1))
  }

  /** Left to right, each backslash followed by `c` becomes `c`. */
  function Unescape(s: string, c: char): string {
    if s == "" then ""
    else if |s| >= 2 && s[0] == '\\' && s[1] == c then [c] + Unescape(s[2..], c)
    else [s[0]] + Unescape(s[1..], c)
  }

  // ---- Paths and headers ------------------------------------------------------------------

  function UnquotePath(path: string): string {
    var rest := StripPrefix(path, "\"");
    var inner := if rest.None? then None else StripSuffix(rest.value, "\"");
    Unescape(Unescape(if inner.None? then path else inner.value, '\"'), '\\')
  }

  function ParseGitPath(path: string): Option<string> {
    if path == "/dev/null" then None
    else if "a/" <= path || "b/" <= path then Some(UnquotePath(path[2..]))
    else Some(UnquotePath(path))
  }

  function ParseHeaderPath(path: string): Option<string> {
    var parts := SplitOnce(path, '\t');
    ParseGitPath(if parts.None? then path else parts.value.0)
  }

  function ParseDiffPaths(body: string): (Option<string>, Option<string>) {
    var words := SplitWhitespace(body);
    (if |words| > 0 then ParseGitPath(words[0]) else None, if |words| > 1 then ParseGitPath(words[1]) else None)
  }

  /** `str::parse::<usize>`: an optional plus sign and at least one digit, below the limit. */
  function ParseUsize(s: string): Option<nat> {
    var n := Decimal.Parse(if s != "" && s[0] == '+' then s[1..] else s);
    if n.Some? && n.value < USIZE_LIMIT then n else None
  }

  function ParseRange(range: string): Result<(nat, nat)> {
    var parts := SplitOnce(range, ',');
    var start := ParseUsize(if parts.None? then range else parts.value.0);
    var count := if parts.None? then Some(1) else ParseUsize(parts.value.1);
    if start.None? || count.None? then Err(InvalidHunkHeader) else Ok((start.value, count.value))
  }

  /** A hunk under construction. */
  datatype HunkBuilder = HunkBuilder(
    oldStart: nat, oldCount: nat, newStart: nat, newCount: nat, oldSeen: nat, newSeen: nat, lines: seq<PatchLine>)

  function ParseHunkHeader(line: string): Result<HunkBuilder> {
    var rest := StripPrefix(line, "@@ -");
    var body := if rest.None? then None else SplitAtWord(rest.value, " @@");
    if body.None? then Err(InvalidHunkHeader)
    else
      var ranges := SplitAtWord(body.value.0, " +");
      if ranges.None? then Err(InvalidHunkHeader)
      else
        var before, after := ParseRange(ranges.value.0), ParseRange(ranges.value.1);
        if before.Err? then Err(before.error)
        else if after.Err? then Err(after.error)
        else Ok(HunkBuilder(before.value.0, before.value.1, after.value.0, after.value.1, 0, 0, []))
  }

  function PushLine(h: HunkBuilder, line: string): Result<HunkBuilder> {
    if line == "" || line[0] !in [' ', '+', '-'] then Err(InvalidHunkLine)
    else
      var kind := if line[0] == ' ' then Context else if line[0] == '+' then Addition else Removal;
      var before := if kind == Addition then None else Some(h.oldStart + h.oldSeen);
      var after := if kind == Removal then None else Some(h.newStart + h.newSeen);
      Ok(h.(oldSeen := h.oldSeen + if kind == Addition then 0 else 1,
            newSeen := h.newSeen + if kind == Removal then 0 else 1,
            lines := h.lines + [PatchLine(kind, before, after, line[1..])]))
  }

  function FinishHunk(h: HunkBuilder): Result<Hunk> {
    if h.oldSeen != h.oldCount || h.newSeen != h.newCount then Err(HunkCountMismatch)
    else Ok(Hunk(h.oldStart, h.newStart, h.lines))
  }

  datatype FileBuilder = FileBuilder(
    oldPath: Option<string>, newPath: Option<string>, renamed: bool, binary: bool, hunks: seq<Hunk>)

  function FinishFile(b: FileBuilder): FilePatch {
    var change :=
      if b.binary then Binary
      else if b.renamed then Renamed
      else if b.oldPath.None? then FileChange.Added
      else if b.newPath.None? then Deleted
      else Modified;
    FilePatch(b.oldPath, b.newPath, change, b.hunks)
  }

  // ---- The parser -------------------------------------------------------------------------

  /** Finished files, the file being read and the hunk being read. */
  datatype State = State(files: seq<FilePatch>, file: Option<FileBuilder>, hunk: Option<HunkBuilder>)

  const START := State([], None, None)

  function CloseHunk(s: State): Result<State> {
    if s.hunk.None? then Ok(s)
    else if s.file.None? then Err(HunkWithoutFile)
    else
      var hunk := FinishHunk(s.hunk.value);
      if hunk.Err? then Err(hunk.error)
      else Ok(State(s.files, Some(s.file.value.(hunks := s.file.value.hunks + [hunk.value])), None))
  }

  function CloseFile(s: State): State {
    if s.file.None? then s else State(s.files + [FinishFile(s.file.value)], None, s.hunk)
  }

  const NEW_FILE := FileBuilder(None, None, false, false, [])

  /** A line outside hunks that is neither a section nor a hunk header. */
  function HeaderLine(s: State, line: string): State {
    var b := if s.file.Some? then s.file.value else NEW_FILE;
    if "--- " <= line then s.(file := Some(b.(oldPath := ParseHeaderPath(line[4..]))))
    else if "+++ " <= line then s.(file := Some(b.(newPath := ParseHeaderPath(line[4..]))))
    else if s.file.None? then s
    else if "rename from " <= line then s.(file := Some(b.(oldPath := Some(UnquotePath(line[12..])), renamed := true)))
    else if "rename to " <= line then s.(file := Some(b.(newPath := Some(UnquotePath(line[10..])), renamed := true)))
    else if "Binary files " <= line || line == "GIT binary patch" then s.(file := Some(b.(binary := true)))
    else s
  }

  function Step(s: State, line: string): Result<State> {
    if "diff --git " <= line then
      var closed := CloseHunk(s);
      if closed.Err? then closed
      else
        var (before, after) := ParseDiffPaths(line[11..]);
        Ok(State(CloseFile(closed.value).files, Some(NEW_FILE.(oldPath := before, newPath := after)), None))
    else if "@@ " <= line then
      var closed := CloseHunk(s);
      if closed.Err? then closed
      else if closed.value.file.None? then Err(HunkWithoutFile)
      else
        var header := ParseHunkHeader(line);
        if header.Err? then Err(header.error) else Ok(closed.value.(hunk := Some(header.value)))
    else if s.hunk.Some? then
      if line == "\\ No newline at end of file" then Ok(s)
      else
        var pushed := PushLine(s.hunk.value, line);
        if pushed.Err? then Err(pushed.error) else Ok(s.(hunk := Some(pushed.value)))
    else Ok(HeaderLine(s, line))
  }

  function Run(s: State, lines: seq<string>): Result<State>
    decreases |lines|
  {
    if lines == [] then Ok(s)
    else
      var next := Step(s, lines[0]);
      if next.Err? then next else Run(next.value, lines[1..])
  }

  function Close(s: State): Result<seq<FilePatch>> {
    var closed := CloseHunk(s);
    if closed.Err? then Err(closed.error) else Ok(CloseFile(closed.value).files)
  }

  predicate Blank(s: string) { forall c <- s :: IsWhitespace(c) }

  function Parsed(input: string): Result<seq<FilePatch>> {
    var end := Run(START, Lines(input));
    if end.Err? then Err(end.error)
    else
      var files := Close(end.value);
      if files.Ok? && files.value == [] && !Blank(input) then Err(NoFileSections) else files
  }

  /** The line loop, with the builders as variables. */
  method ParsePatch(input: string) returns (r: Result<seq<FilePatch>>)
    ensures r == Parsed(input)
  {
    var lines, state := Lines(input), START;
    assert lines[0..] == lines;
    for i := 0 to |lines|
      invariant Run(START, lines) == Run(state, lines[i..])
    {
      assert lines[i..][1..] == lines[i + 1..];
      var next := Step(state, lines[i]);
      if next.Err? { return Err(next.error); }
      state := next.value;
    }
    var files := Close(state);
    if files.Err? { return files; }
    if files.value == [] && !Blank(input) { return Err(NoFileSections); }
    return files;
  }
}
