/** Line numbers of accepted patches, and the scan that hands every added line to a detector. */
module PatchScan {
  import opened Seqs
  import opened Patches

  // ---- Every accepted hunk is numbered by its header --------------------------------------

  /** Old-side and new-side lines among the first `n`. */
  function OldCount(lines: seq<PatchLine>, n: nat): nat
    requires n <= |lines|
  {
    if n == 0 then 0 else OldCount(lines, n - 1) + if lines[n - 1].kind == Addition then 0 else 1
  }

  function NewCount(lines: seq<PatchLine>, n: nat): nat
    requires n <= |lines|
  {
    if n == 0 then 0 else NewCount(lines, n - 1) + if lines[n - 1].kind == Removal then 0 else 1
  }

  /** The j-th old-side line has number `oldStart + j`, the j-th new-side line `newStart + j`. */
  ghost predicate Numbered(oldStart: nat, newStart: nat, lines: seq<PatchLine>) {
    forall i: nat :: i < |lines| ==> NumberedAt(oldStart, newStart, lines, i)
  }

  ghost predicate NumberedAt(oldStart: nat, newStart: nat, lines: seq<PatchLine>, i: nat)
    requires i < |lines|
  {
    && lines[i].oldLine == (if lines[i].kind == Addition then None else Some(oldStart + OldCount(lines, i)))
    && lines[i].newLine == (if lines[i].kind == Removal then None else Some(newStart + NewCount(lines, i)))
  }

  ghost predicate BuilderOk(h: HunkBuilder) {
    && h.oldSeen == OldCount(h.lines, |h.lines|) && h.newSeen == NewCount(h.lines, |h.lines|)
    && Numbered(h.oldStart, h.newStart, h.lines)
  }

  ghost predicate HunksOk(hunks: seq<Hunk>) { forall h <- hunks :: Numbered(h.oldStart, h.newStart, h.lines) }

  ghost predicate FilesOk(files: seq<FilePatch>) { forall f <- files :: HunksOk(f.hunks) }

  ghost predicate StateOk(s: State) {
    && FilesOk(s.files)
    && (s.file.Some? ==> HunksOk(s.file.value.hunks))
    && (s.hunk.Some? ==> BuilderOk(s.hunk.value))
  }

  lemma {:induction false} CountsOfMore(lines: seq<PatchLine>, more: PatchLine, n: nat)
    requires n <= |lines|
    ensures OldCount(lines + [more], n) == OldCount(lines, n) && NewCount(lines + [more], n) == NewCount(lines, n)
  {
    if n > 0 { CountsOfMore(lines, more, n - 1); }
  }

  lemma NumberedMore(oldStart: nat, newStart: nat, lines: seq<PatchLine>, more: PatchLine)
    requires Numbered(oldStart, newStart, lines)
    requires more.oldLine == (if more.kind == Addition then None else Some(oldStart + OldCount(lines, |lines|)))
    requires more.newLine == (if more.kind == Removal then None else Some(newStart + NewCount(lines, |lines|)))
    ensures Numbered(oldStart, newStart, lines + [more])
  {
    forall i: nat | i < |lines + [more]| ensures NumberedAt(oldStart, newStart, lines + [more], i) {
      CountsOfMore(lines, more, i);
      if i < |lines| { assert NumberedAt(oldStart, newStart, lines, i); }
    }
  }

  lemma PushKeepsNumbers(h: HunkBuilder, line: string)
    requires BuilderOk(h) && PushLine(h, line).Ok?
    ensures var after := PushLine(h, line).value;
            && BuilderOk(after) && after.oldStart == h.oldStart && after.newStart == h.newStart
            && after.oldCount == h.oldCount && after.newCount == h.newCount
  {
    var after := PushLine(h, line).value;
    var n := |h.lines|;
    var more := after.lines[n];
    assert after.lines == h.lines + [more];
    NumberedMore(h.oldStart, h.newStart, h.lines, more);
    CountsOfMore(h.lines, more, n);
  }

  lemma CloseKeepsNumbers(s: State)
    requires StateOk(s) && CloseHunk(s).Ok?
    ensures StateOk(CloseHunk(s).value) && FilesOk(CloseFile(CloseHunk(s).value).files)
  {
  }

  lemma StepKeepsNumbers(s: State, line: string)
    requires StateOk(s) && Step(s, line).Ok?
    ensures StateOk(Step(s, line).value)
  {
    if CloseHunk(s).Ok? { CloseKeepsNumbers(s); }
    if s.hunk.Some? {
      if PushLine(s.hunk.value, line).Ok? { PushKeepsNumbers(s.hunk.value, line); }
    } else {
      HeaderKeepsNumbers(s, line);
    }
  }

  lemma HeaderKeepsNumbers(s: State, line: string)
    requires StateOk(s)
    ensures StateOk(HeaderLine(s, line))
  {
  }

  lemma {:induction false} RunKeepsNumbers(s: State, lines: seq<string>)
    requires StateOk(s) && Run(s, lines).Ok?
    ensures StateOk(Run(s, lines).value)
    decreases |lines|
  {
    if lines != [] {
      StepKeepsNumbers(s, lines[0]);
      RunKeepsNumbers(Step(s, lines[0]).value, lines[1..]);
    }
  }

  /** Whatever the input, the hunks of an accepted patch are numbered by their headers. */
  lemma AcceptedIsNumbered(input: string)
    requires Parsed(input).Ok?
    ensures FilesOk(Parsed(input).value)
  {
    RunKeepsNumbers(START, Lines(input));
    CloseKeepsNumbers(Run(START, Lines(input)).value);
  }

  // ---- Scanning ---------------------------------------------------------------------------

  datatype Severity = Medium | High | Critical
  datatype PathRisk = Normal | EnvironmentFile | ContinuousIntegration | Fixture | FrontendPublic

  datatype AddedLine = AddedLine(path: string, line: nat, content: string, before: seq<string>, after: seq<string>, risk: PathRisk)
  datatype Detection = Detection(rule: string, severity: Severity, column: nat)
  datatype Finding = Finding(rule: string, severity: Severity, path: string, line: nat, column: nat,
                             contextStart: nat, contextEnd: nat, risk: PathRisk)
  datatype Outcome = NoTextChanges | Clean | Found
  datatype Report = Report(outcome: Outcome, filesExamined: nat, addedLinesScanned: nat, binaryFilesSkipped: nat, findings: seq<Finding>)

  function Elevate(severity: Severity, risk: PathRisk): Severity {
    if risk == Normal then severity else if severity == Medium then High else Critical
  }

  function Kept(lines: seq<PatchLine>): seq<string> {
    if lines == [] then [] else (if lines[0].kind == Removal then [] else [lines[0].content]) + Kept(lines[1..])
  }

  /** Up to two lines before and after that are present in the new version. */
  function NearbyBefore(lines: seq<PatchLine>, i: nat): seq<string>
    requires i < |lines|
  {
    Kept(lines[(if i > 2 then i - 2 else 0)..i])
  }

  function NearbyAfter(lines: seq<PatchLine>, i: nat): seq<string>
    requires i < |lines|
  {
    Kept(lines[i + 1..Min(|lines|, i + 3)])
  }

  type Detector = AddedLine -> seq<Detection>
  type Classifier = string -> PathRisk

  function InputAt(classify: Classifier, path: string, lines: seq<PatchLine>, i: nat): AddedLine
    requires i < |lines| && lines[i].newLine.Some?
  {
    AddedLine(path, lines[i].newLine.value, lines[i].content, NearbyBefore(lines, i), NearbyAfter(lines, i), classify(path))
  }

  predicate IsScanned(line: PatchLine) { line.kind == Addition && line.newLine.Some? }

  /** The detector inputs of the first `n` lines of a hunk. */
  function HunkInputs(classify: Classifier, path: string, lines: seq<PatchLine>, n: nat): seq<AddedLine>
    requires n <= |lines|
  {
    if n == 0 then []
    else HunkInputs(classify, path, lines, n - 1) + if IsScanned(lines[n - 1]) then [InputAt(classify, path, lines, n - 1)] else []
  }

  function FileInputs(classify: Classifier, path: string, hunks: seq<Hunk>): seq<AddedLine> {
    if hunks == [] then []
    else FileInputs(classify, path, hunks[..|hunks| - 1]) + HunkInputs(classify, path, hunks[|hunks| - 1].lines, |hunks[|hunks| - 1].lines|)
  }

  predicate IsText(f: FilePatch) { f.change != Binary && f.newPath.Some? }

  /** Every line handed to the detector, in order. */
  function Inputs(classify: Classifier, files: seq<FilePatch>): seq<AddedLine> {
    if files == [] then []
    else
      var last := files[|files| - 1];
      Inputs(classify, files[..|files| - 1]) + if IsText(last) then FileInputs(classify, last.newPath.value, last.hunks) else []
  }

  function FindingsAt(detections: seq<Detection>, input: AddedLine): seq<Finding> {
    if detections == [] then []
    else
      var d := detections[|detections| - 1];
      FindingsAt(detections[..|detections| - 1], input) +
      [Finding(d.rule, Elevate(d.severity, input.risk), input.path, input.line, if d.column > 1 then d.column else 1,
               if input.line > |input.before| then input.line - |input.before| else 0, input.line + |input.after|, input.risk)]
  }

  function FindingsOf(detect: Detector, inputs: seq<AddedLine>): seq<Finding> {
    if inputs == [] then []
    else FindingsOf(detect, inputs[..|inputs| - 1]) + FindingsAt(detect(inputs[|inputs| - 1]), inputs[|inputs| - 1])
  }

  function BinaryCount(files: seq<FilePatch>): nat {
    if files == [] then 0 else BinaryCount(files[..|files| - 1]) + if files[|files| - 1].change == Binary then 1 else 0
  }

  lemma {:induction false} FindingsConcat(detect: Detector, a: seq<AddedLine>, b: seq<AddedLine>)
    ensures FindingsOf(detect, a + b) == FindingsOf(detect, a) + FindingsOf(detect, b)
  {
    if b == [] {
      assert a + b == a;
    } else {
      var n := |b| - 1;
      assert (a + b)[..|a| + n] == a + b[..n];
      FindingsConcat(detect, a, b[..n]);
      ConcatAssociates(FindingsOf(detect, a), FindingsOf(detect, b[..n]), FindingsAt(detect(b[n]), b[n]));
    }
  }

  method ScanHunk(detect: Detector, classify: Classifier, path: string, lines: seq<PatchLine>)
    returns (findings: seq<Finding>, scanned: nat)
    ensures findings == FindingsOf(detect, HunkInputs(classify, path, lines, |lines|))
    ensures scanned == |HunkInputs(classify, path, lines, |lines|)|
  {
    findings, scanned := [], 0;
    for i := 0 to |lines|
      invariant findings == FindingsOf(detect, HunkInputs(classify, path, lines, i))
      invariant scanned == |HunkInputs(classify, path, lines, i)|
    {
      if IsScanned(lines[i]) {
        scanned := scanned + 1;
        var input := InputAt(classify, path, lines, i);
        var detections := detect(input);
        var found: seq<Finding> := [];
        for k := 0 to |detections|
          invariant found == FindingsAt(detections[..k], input)
        {
          var d := detections[k];
          assert detections[..k + 1][..k] == detections[..k];
          found := found + [Finding(d.rule, Elevate(d.severity, input.risk), path, input.line, if d.column > 1 then d.column else 1,
            if input.line > |input.before| then input.line - |input.before| else 0, input.line + |input.after|, input.risk)];
        }
        assert detections[..|detections|] == detections;
        OneMore(detect, HunkInputs(classify, path, lines, i), input);
        findings := findings + found;
      } else {
        assert HunkInputs(classify, path, lines, i) + [] == HunkInputs(classify, path, lines, i);
      }
    }
  }

  lemma OneMore(detect: Detector, inputs: seq<AddedLine>, input: AddedLine)
    ensures FindingsOf(detect, inputs + [input]) == FindingsOf(detect, inputs) + FindingsAt(detect(input), input)
    ensures FindingsOf(detect, inputs + []) == FindingsOf(detect, inputs)
  {
    assert (inputs + [input])[..|inputs|] == inputs;
    assert inputs + [] == inputs;
  }

  /** Every input goes to the detector once and in order; the report counts and concludes accordingly. */
  method ScanWith(files: seq<FilePatch>, detect: Detector, classify: Classifier) returns (report: Report)
    ensures report.findings == FindingsOf(detect, Inputs(classify, files))
    ensures report.addedLinesScanned == |Inputs(classify, files)|
    ensures report.binaryFilesSkipped == BinaryCount(files) && report.filesExamined == |files|
    ensures report.outcome == if report.findings != [] then Found else if Inputs(classify, files) == [] then NoTextChanges else Clean
  {
    var findings: seq<Finding>, scanned, skipped := [], 0, 0;
    for i := 0 to |files|
      invariant findings == FindingsOf(detect, Inputs(classify, files[..i]))
      invariant scanned == |Inputs(classify, files[..i])| && skipped == BinaryCount(files[..i])
    {
      var file := files[i];
      assert files[..i + 1][..i] == files[..i];
      assert Inputs(classify, files[..i]) + [] == Inputs(classify, files[..i]);
      if file.change == Binary {
        skipped := skipped + 1;
      } else if file.newPath.Some? {
        var path := file.newPath.value;
        var found: seq<Finding>, added := [], 0;
        for k := 0 to |file.hunks|
          invariant found == FindingsOf(detect, FileInputs(classify, path, file.hunks[..k]))
          invariant added == |FileInputs(classify, path, file.hunks[..k])|
        {
          assert file.hunks[..k + 1][..k] == file.hunks[..k];
          var more, count := ScanHunk(detect, classify, path, file.hunks[k].lines);
          FindingsConcat(detect, FileInputs(classify, path, file.hunks[..k]), HunkInputs(classify, path, file.hunks[k].lines, |file.hunks[k].lines|));
          found, added := found + more, added + count;
        }
        assert file.hunks[..|file.hunks|] == file.hunks;
        FindingsConcat(detect, Inputs(classify, files[..i]), FileInputs(classify, path, file.hunks));
        findings, scanned := findings + found, scanned + added;
      }
    }
    assert files[..|files|] == files;
    report := Report(if findings != [] then Found else if scanned == 0 then NoTextChanges else Clean, |files|, scanned, skipped, findings);
  }

  /** How many detections the inputs give. */
  function Detections(detect: Detector, inputs: seq<AddedLine>): nat {
    if inputs == [] then 0 else Detections(detect, inputs[..|inputs| - 1]) + |detect(inputs[|inputs| - 1])|
  }

  /** A finding tells of a detection in a line: columns count from one, the context spans the lines kept around it, risky paths weigh more. */
  predicate Tells(f: Finding, d: Detection, input: AddedLine) {
    && f.rule == d.rule && f.path == input.path && f.line == input.line && f.risk == input.risk
    && (if d.column == 0 then f.column == 1 else f.column == d.column)
    && f.contextStart + |input.before| == (if input.line > |input.before| then input.line else |input.before|)
    && f.contextEnd == input.line + |input.after|
    && (input.risk == Normal ==> f.severity == d.severity)
    && (input.risk != Normal ==> (f.severity == High <==> d.severity == Medium) && (f.severity == Critical <==> d.severity != Medium))
  }

  lemma {:induction false} FindingsAtTell(detections: seq<Detection>, input: AddedLine)
    ensures |FindingsAt(detections, input)| == |detections|
    ensures forall k :: 0 <= k < |detections| ==> Tells(FindingsAt(detections, input)[k], detections[k], input)
  {
    if detections != [] { FindingsAtTell(detections[..|detections| - 1], input); }
  }

  /** Every detection in every input is reported, once and in order, and nothing else is. */
  lemma {:induction false} EveryDetectionIsReported(detect: Detector, inputs: seq<AddedLine>, i: nat, k: nat)
    requires i < |inputs| && k < |detect(inputs[i])|
    ensures |FindingsOf(detect, inputs)| == Detections(detect, inputs)
    ensures var n := Detections(detect, inputs[..i]) + k;
            n < |FindingsOf(detect, inputs)| && Tells(FindingsOf(detect, inputs)[n], detect(inputs[i])[k], inputs[i])
  {
    var before, last := inputs[..|inputs| - 1], inputs[|inputs| - 1];
    FindingsAtTell(detect(last), last);
    DetectionsCounted(detect, before);
    if i < |before| {
      assert before[..i] == inputs[..i] && before[i] == inputs[i];
      EveryDetectionIsReported(detect, before, i, k);
    }
  }

  lemma {:induction false} DetectionsCounted(detect: Detector, inputs: seq<AddedLine>)
    ensures |FindingsOf(detect, inputs)| == Detections(detect, inputs)
  {
    if inputs != [] {
      DetectionsCounted(detect, inputs[..|inputs| - 1]);
      FindingsAtTell(detect(inputs[|inputs| - 1]), inputs[|inputs| - 1]);
    }
  }

  function KeptAt(lines: seq<PatchLine>, i: int): seq<string> {
    if 0 <= i < |lines| && lines[i].kind != Removal then [lines[i].content] else []
  }

  /** The context of an input is the two lines on either side, as far as there are any and the patch keeps them. */
  lemma ContextIsNearby(classify: Classifier, path: string, lines: seq<PatchLine>, i: nat)
    requires i < |lines| && lines[i].newLine.Some?
    ensures InputAt(classify, path, lines, i).before == KeptAt(lines, i - 2) + KeptAt(lines, i - 1)
    ensures InputAt(classify, path, lines, i).after == KeptAt(lines, i + 1) + KeptAt(lines, i + 2)
  {
    KeptOfTwo(lines, i - 2, i);
    KeptOfTwo(lines, i + 1, i + 3);
  }

  lemma KeptOfTwo(lines: seq<PatchLine>, from: int, to: int)
    requires to == from + 2 && to > -1 && from <= |lines|
    ensures Kept(lines[(if from > 0 then from else 0)..Min(|lines|, to)]) == KeptAt(lines, from) + KeptAt(lines, from + 1)
  {
    var first := if from > 0 then from else 0;
    var part := lines[first..Min(|lines|, to)];
    if |part| == 2 {
      assert part[1..] == [lines[from + 1]] && part[1..][1..] == [];
      assert Kept(part[1..]) == KeptAt(lines, from + 1);
      assert part[0] == lines[from] && Kept(part) == KeptAt(lines, from) + Kept(part[1..]);
    } else if |part| == 1 {
      assert part[0] == lines[first] && part[1..] == [];
      assert Kept(part) == KeptAt(lines, first);
      assert first == from + 1 || first == from;
    }
  }

  function Additions(lines: seq<PatchLine>, n: nat): nat
    requires n <= |lines|
  {
    if n == 0 then 0 else Additions(lines, n - 1) + if lines[n - 1].kind == Addition then 1 else 0
  }

  /** In a numbered hunk the added lines are handed over one for one, each with its own number. */
  lemma {:induction false} EveryAdditionIsScanned(classify: Classifier, path: string, h: Hunk, n: nat, i: nat)
    requires Numbered(h.oldStart, h.newStart, h.lines) && n <= |h.lines|
    ensures |HunkInputs(classify, path, h.lines, n)| == Additions(h.lines, n)
    ensures i < n && h.lines[i].kind == Addition ==>
        && Additions(h.lines, i) < Additions(h.lines, n)
        && var input := HunkInputs(classify, path, h.lines, n)[Additions(h.lines, i)];
           input.line == h.newStart + NewCount(h.lines, i) && input.content == h.lines[i].content && input.path == path
  {
    if n > 0 {
      EveryAdditionIsScanned(classify, path, h, n - 1, i);
      assert NumberedAt(h.oldStart, h.newStart, h.lines, n - 1);
    }
  }

  function HunkAdditions(hunks: seq<Hunk>): nat {
    if hunks == [] then 0
    else HunkAdditions(hunks[..|hunks| - 1]) + Additions(hunks[|hunks| - 1].lines, |hunks[|hunks| - 1].lines|)
  }

  function FileAdditions(files: seq<FilePatch>): nat {
    if files == [] then 0
    else FileAdditions(files[..|files| - 1]) + if IsText(files[|files| - 1]) then HunkAdditions(files[|files| - 1].hunks) else 0
  }

  lemma {:induction false} FileInputsAreAdditions(classify: Classifier, path: string, hunks: seq<Hunk>)
    requires HunksOk(hunks)
    ensures |FileInputs(classify, path, hunks)| == HunkAdditions(hunks)
  {
    if hunks != [] {
      var last := hunks[|hunks| - 1];
      assert last in hunks;
      FileInputsAreAdditions(classify, path, hunks[..|hunks| - 1]);
      EveryAdditionIsScanned(classify, path, last, |last.lines|, 0);
    }
  }

  /** Over a whole accepted patch, as many lines are scanned as there are added lines in text files. */
  lemma {:induction false} InputsAreAdditions(classify: Classifier, files: seq<FilePatch>)
    requires FilesOk(files)
    ensures |Inputs(classify, files)| == FileAdditions(files)
  {
    if files != [] {
      var last := files[|files| - 1];
      assert last in files;
      InputsAreAdditions(classify, files[..|files| - 1]);
      if IsText(last) { FileInputsAreAdditions(classify, last.newPath.value, last.hunks); }
    }
  }

  lemma {:induction false} FileInputAt(classify: Classifier, path: string, hunks: seq<Hunk>, j: nat, i: nat)
    requires HunksOk(hunks) && j < |hunks| && i < |hunks[j].lines| && hunks[j].lines[i].kind == Addition
    ensures var at := HunkAdditions(hunks[..j]) + Additions(hunks[j].lines, i);
            at < |FileInputs(classify, path, hunks)| && FromLine(FileInputs(classify, path, hunks)[at], path, hunks[j], i)
    decreases |hunks|
  {
    var n, last := |hunks| - 1, hunks[|hunks| - 1];
    assert last in hunks && hunks[j] in hunks;
    FileInputsAreAdditions(classify, path, hunks[..n]);
    if j == n {
      EveryAdditionIsScanned(classify, path, last, |last.lines|, i);
    } else {
      assert hunks[..n][..j] == hunks[..j];
      FileInputAt(classify, path, hunks[..n], j, i);
    }
  }

  /** The detector's input for a line of a hunk. */
  ghost predicate FromLine(input: AddedLine, path: string, h: Hunk, i: nat)
    requires i < |h.lines|
  {
    input.path == path && input.content == h.lines[i].content && input.line == h.newStart + NewCount(h.lines, i)
  }

  /** The inputs of the last file follow those of the files before it. */
  lemma InputsOfLast(classify: Classifier, files: seq<FilePatch>, at: nat)
    requires files != [] && IsText(files[|files| - 1])
    requires var last := files[|files| - 1]; at < |FileInputs(classify, last.newPath.value, last.hunks)|
    ensures var last, before := files[|files| - 1], |Inputs(classify, files[..|files| - 1])|;
            && before + at < |Inputs(classify, files)|
            && Inputs(classify, files)[before + at] == FileInputs(classify, last.newPath.value, last.hunks)[at]
  {
  }

  /**
   * Every added line of every hunk of every text file is handed over, at the place its position
   * among all added lines of text files gives it.
   */
  lemma {:induction false} EveryAdditionAtItsPlace(classify: Classifier, files: seq<FilePatch>, f: nat, j: nat, i: nat)
    requires FilesOk(files) && f < |files| && IsText(files[f]) && j < |files[f].hunks|
    requires i < |files[f].hunks[j].lines| && files[f].hunks[j].lines[i].kind == Addition
    ensures var hunks := files[f].hunks;
            var at := FileAdditions(files[..f]) + HunkAdditions(hunks[..j]) + Additions(hunks[j].lines, i);
            at < |Inputs(classify, files)| && FromLine(Inputs(classify, files)[at], files[f].newPath.value, hunks[j], i)
    decreases |files|
  {
    var n, last := |files| - 1, files[|files| - 1];
    assert last in files && files[f] in files;
    InputsAreAdditions(classify, files[..n]);
    if f == n {
      FileInputAt(classify, last.newPath.value, last.hunks, j, i);
      InputsOfLast(classify, files, HunkAdditions(last.hunks[..j]) + Additions(last.hunks[j].lines, i));
    } else {
      assert files[..n][..f] == files[..f];
      EveryAdditionAtItsPlace(classify, files[..n], f, j, i);
    }
  }
}
