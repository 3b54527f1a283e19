/**
 * Replacing spans of a text, shared by `redact` and `mask_findings`.
 *
 * A Rust string is modelled as its UTF-8 code units, one `char` each, so spans are byte offsets
 * and a slice is refused when either end falls inside a multi-byte character.
 */
module Splicing {
  import opened Seqs
  import opened Findings

  predicate Boundary(text: string, i: nat) {
    i <= |text| && (i == 0 || i == |text| || !(0x80 <= text[i] as int < 0xC0))
  }

  /** `str::get` with a range. */
  function Get(text: string, from: nat, to: nat): Option<string> {
    if from <= to && Boundary(text, from) && Boundary(text, to) then Some(text[from..to]) else None
  }

  // ---- Gaps and fills ---------------------------------------------------------------------

  /** The spans can be cut out of the text, from `cursor` on, one after the other. */
  predicate Spliceable(text: string, cursor: nat, spans: seq<Span>)
    decreases |spans|
  {
    Boundary(text, cursor) &&
    (spans == [] ||
     (cursor <= spans[0].start && Boundary(text, spans[0].start) && Boundary(text, spans[0].end)
      && Spliceable(text, spans[0].end, spans[1..])))
  }

  /** The text before, between and after the spans. */
  function Gaps(text: string, cursor: nat, spans: seq<Span>): (gaps: seq<string>)
    requires Spliceable(text, cursor, spans)
    ensures |gaps| == |spans| + 1
    decreases |spans|
  {
    if spans == [] then [text[cursor..]]
    else [text[cursor..spans[0].start]] + Gaps(text, spans[0].end, spans[1..])
  }

  /** What the spans cover. */
  function Raws(text: string, cursor: nat, spans: seq<Span>): (raws: seq<string>)
    requires Spliceable(text, cursor, spans)
    ensures |raws| == |spans|
    decreases |spans|
  {
    if spans == [] then []
    else [text[spans[0].start..spans[0].end]] + Raws(text, spans[0].end, spans[1..])
  }

  /** Gap, fill, gap, ..., fill, gap. */
  function Interleave(gaps: seq<string>, fills: seq<string>): string
    requires |gaps| == |fills| + 1
  {
    if fills == [] then gaps[0] else gaps[0] + fills[0] + Interleave(gaps[1..], fills[1..])
  }

  /** Filling every gap with what was cut out gives the text back. */
  lemma {:induction false} RefillIsIdentity(text: string, cursor: nat, spans: seq<Span>)
    requires Spliceable(text, cursor, spans)
    ensures Interleave(Gaps(text, cursor, spans), Raws(text, cursor, spans)) == text[cursor..]
    decreases |spans|
  {
    if spans != [] {
      var span := spans[0];
      RefillIsIdentity(text, span.end, spans[1..]);
      assert text[cursor..span.start] + text[span.start..span.end] + text[span.end..] == text[cursor..];
    }
  }

  function TotalLength(parts: seq<string>): nat {
    if parts == [] then 0 else |parts[0]| + TotalLength(parts[1..])
  }

  lemma {:induction false} InterleaveLength(gaps: seq<string>, fills: seq<string>)
    requires |gaps| == |fills| + 1
    ensures |Interleave(gaps, fills)| == TotalLength(gaps) + TotalLength(fills)
  {
    if fills == [] {
      assert gaps[1..] == [];
    } else {
      InterleaveLength(gaps[1..], fills[1..]);
    }
  }

  /** Replacing the spans changes the length by exactly what the replacements add over the originals. */
  lemma SpliceLength(text: string, spans: seq<Span>, fills: seq<string>)
    requires Spliceable(text, 0, spans) && |fills| == |spans|
    ensures |Interleave(Gaps(text, 0, spans), fills)| == |text| - TotalLength(Raws(text, 0, spans)) + TotalLength(fills)
  {
    InterleaveLength(Gaps(text, 0, spans), fills);
    InterleaveLength(Gaps(text, 0, spans), Raws(text, 0, spans));
    RefillIsIdentity(text, 0, spans);
  }

  /** Whatever stands in a gap stands in the woven text. */
  lemma {:induction false} GapOccurs(gaps: seq<string>, fills: seq<string>, gap: string, word: string)
    requires |gaps| == |fills| + 1 && gap in gaps && Occurs(gap, word)
    ensures Occurs(Interleave(gaps, fills), word)
  {
    if fills == [] {
      assert gap == gaps[0];
    } else {
      var rest := Interleave(gaps[1..], fills[1..]);
      if gap == gaps[0] {
        OccursWithin("", gap, fills[0] + rest, word);
        assert "" + gap + (fills[0] + rest) == gaps[0] + fills[0] + rest;
      } else {
        assert gap in gaps[1..];
        GapOccurs(gaps[1..], fills[1..], gap, word);
        OccursWithin(gaps[0] + fills[0], rest, "", word);
        assert gaps[0] + fills[0] + rest + "" == gaps[0] + fills[0] + rest;
      }
    }
  }

  // ---- Operations -------------------------------------------------------------------------

  /** Boundaries are whole characters: a slice exists exactly between two of them, in order. */
  method ValidateFindingSpans(input: string, spans: seq<Span>) returns (valid: bool)
    ensures valid <==> Spliceable(input, 0, spans)
  {
    var cursor := 0;
    assert spans[0..] == spans;
    for i := 0 to |spans|
      invariant Spliceable(input, cursor, spans[i..]) == Spliceable(input, 0, spans)
    {
      var span := spans[i];
      assert spans[i..][1..] == spans[i + 1..];
      if span.start < cursor || Get(input, cursor, span.start).None? || Get(input, span.start, span.end).None? {
        return false;
      }
      cursor := span.end;
    }
    valid := Get(input, cursor, |input|).Some?;
  }

  type Writer = (string, Shape) -> string

  datatype Mode =
    | Block
    | Rewrite(write: Writer)
      /** Keyed surrogates; there is no key when the system has no randomness to give. */
    | Surrogate(keyed: Option<Writer>)

  datatype Outcome = Redacted(text: string) | Blocked | InvalidSpan | RandomnessUnavailable

  function Spans(findings: seq<Shape>): (spans: seq<Span>)
    ensures |spans| == |findings|
  {
    if findings == [] then [] else [findings[0].span] + Spans(findings[1..])
  }

  /** The replacement of each finding, written from the text it covers. */
  function Fills(text: string, cursor: nat, findings: seq<Shape>, write: Writer): (fills: seq<string>)
    requires Spliceable(text, cursor, Spans(findings))
    ensures |fills| == |findings|
    decreases |findings|
  {
    if findings == [] then []
    else
      var span := findings[0].span;
      [write(text[span.start..span.end], findings[0])] + Fills(text, span.end, findings[1..], write)
  }

  /** The text from `cursor` on with every finding replaced, if all spans can be cut out. */
  function Spliced(text: string, cursor: nat, findings: seq<Shape>, write: Writer): Option<string> {
    if Spliceable(text, cursor, Spans(findings))
    then Some(Interleave(Gaps(text, cursor, Spans(findings)), Fills(text, cursor, findings, write)))
    else None
  }

  lemma SplicedStep(text: string, cursor: nat, findings: seq<Shape>, write: Writer)
    requires findings != []
    ensures var span := findings[0].span;
            Spliced(text, cursor, findings, write) ==
            if Get(text, cursor, span.start).None? || Get(text, span.start, span.end).None? then None
            else Prepend(text[cursor..span.start] + write(text[span.start..span.end], findings[0]),
                         Spliced(text, span.end, findings[1..], write))
  {
    var span, spans := findings[0].span, Spans(findings);
    assert spans[0] == span && spans[1..] == Spans(findings[1..]);
    if Spliceable(text, cursor, spans) {
      var gaps, fills := Gaps(text, cursor, spans), Fills(text, cursor, findings, write);
      assert gaps[1..] == Gaps(text, span.end, spans[1..]);
      assert fills[1..] == Fills(text, span.end, findings[1..], write);
    }
  }

  lemma SplicedEnd(text: string, cursor: nat, write: Writer)
    ensures Spliced(text, cursor, [], write) == Get(text, cursor, |text|)
  {
    if Boundary(text, cursor) {
      assert text[cursor..|text|] == text[cursor..];
    }
  }

  /**
   * Block mode refuses any finding; otherwise the result is the input with each finding replaced
   * and all else kept in place, or `InvalidSpan` exactly when the spans cannot be cut out in order.
   */
  method Redact(input: string, findings: seq<Shape>, mode: Mode) returns (outcome: Outcome)
    ensures outcome.Blocked? <==> mode.Block? && findings != []
    ensures outcome.RandomnessUnavailable? <==> mode.Surrogate? && findings != [] && mode.keyed.None?
    ensures outcome.InvalidSpan? ==> !Spliceable(input, 0, Spans(findings))
    ensures outcome.Redacted? ==> Some(outcome.text) == Spliced(input, 0, findings, WriterOf(mode))
    ensures outcome.Redacted? ==> Rewritten(input, findings, mode, outcome.text)
  {
    if Spliceable(input, 0, Spans(findings)) && (findings == [] || mode.Rewrite? || (mode.Surrogate? && mode.keyed.Some?)) {
      SplicedIsRewritten(input, findings, mode);
    }
    if mode.Block? && findings != [] { return Blocked; }
    if mode.Surrogate? && findings != [] && mode.keyed.None? { return RandomnessUnavailable; }
    var write := WriterOf(mode);
    var output, cursor := "", 0;
    assert findings[0..] == findings;
    PrependTwice("", "", Spliced(input, 0, findings, write));
    for i := 0 to |findings|
      invariant Spliced(input, 0, findings, write) == Prepend(output, Spliced(input, cursor, findings[i..], write))
    {
      var span := findings[i].span;
      SplicedStep(input, cursor, findings[i..], write);
      assert findings[i..][1..] == findings[i + 1..];
      var prefix := Get(input, cursor, span.start);
      if prefix.None? { return InvalidSpan; }
      var raw := Get(input, span.start, span.end);
      if raw.None? { return InvalidSpan; }
      PrependTwice(output, prefix.value + write(raw.value, findings[i]), Spliced(input, span.end, findings[i + 1..], write));
      output := output + (prefix.value + write(raw.value, findings[i]));
      cursor := span.end;
    }
    SplicedEnd(input, cursor, write);
    assert findings[|findings|..] == [];
    var suffix := Get(input, cursor, |input|);
    if suffix.None? { return InvalidSpan; }
    outcome := Redacted(output + suffix.value);
  }

  /** The replacement writer of a mode; modes that replace nothing copy. */
  function WriterOf(mode: Mode): Writer {
    match mode
    case Rewrite(write) => write
    case Surrogate(Some(write)) => write
    case _ => (raw, f) => raw
  }

  /** `fill` is what the mode's own writer, keyed or not, makes of the text a finding covers; no other mode replaces anything. */
  predicate WrittenBy(mode: Mode, input: string, f: Shape, fill: string) {
    && f.span.start <= f.span.end <= |input|
    && match mode
       case Rewrite(write) => fill == write(input[f.span.start..f.span.end], f)
       case Surrogate(Some(write)) => fill == write(input[f.span.start..f.span.end], f)
       case _ => false
  }

  /** The text outside the findings stays, and each finding gives way to what the mode writes for it. */
  ghost predicate Rewritten(input: string, findings: seq<Shape>, mode: Mode, output: string) {
    && Spliceable(input, 0, Spans(findings))
    && exists fills :: FilledWith(input, findings, mode, fills) && output == Interleave(Gaps(input, 0, Spans(findings)), fills)
  }

  ghost predicate FilledWith(input: string, findings: seq<Shape>, mode: Mode, fills: seq<string>) {
    |fills| == |findings| && forall i :: 0 <= i < |findings| ==> WrittenBy(mode, input, findings[i], fills[i])
  }

  lemma {:induction false} FillsAreWritten(input: string, cursor: nat, findings: seq<Shape>, mode: Mode)
    requires Spliceable(input, cursor, Spans(findings)) && (mode.Rewrite? || (mode.Surrogate? && mode.keyed.Some?))
    ensures FilledWith(input, findings, mode, Fills(input, cursor, findings, WriterOf(mode)))
    decreases |findings|
  {
    if findings != [] {
      var fills := Fills(input, cursor, findings, WriterOf(mode));
      FillsAreWritten(input, findings[0].span.end, findings[1..], mode);
      forall i | 0 <= i < |findings| ensures WrittenBy(mode, input, findings[i], fills[i]) {
        if i > 0 { assert WrittenBy(mode, input, findings[1..][i - 1], fills[1..][i - 1]); }
      }
    }
  }

  lemma SplicedIsRewritten(input: string, findings: seq<Shape>, mode: Mode)
    requires Spliceable(input, 0, Spans(findings))
    requires findings == [] || mode.Rewrite? || (mode.Surrogate? && mode.keyed.Some?)
    ensures Rewritten(input, findings, mode, Spliced(input, 0, findings, WriterOf(mode)).value)
  {
    var fills := Fills(input, 0, findings, WriterOf(mode));
    if findings != [] { FillsAreWritten(input, 0, findings, mode); }
    assert FilledWith(input, findings, mode, fills);
  }

  // ---- Detection followed by redaction ----------------------------------------------------

  /** Every span lies within the text, on character boundaries. */
  predicate Aligned(text: string, findings: set<Shape>) {
    forall f <- findings :: Boundary(text, f.span.start) && Boundary(text, f.span.end)
  }

  lemma {:induction false} DisjointIsSpliceable(text: string, cursor: nat, kept: seq<Shape>)
    requires Disjoint(kept) && Aligned(text, SetOf(kept)) && Boundary(text, cursor)
    requires kept != [] ==> cursor <= kept[0].span.start
    ensures Spliceable(text, cursor, Spans(kept))
    decreases |kept|
  {
    if kept != [] {
      assert kept[0] in SetOf(kept);
      forall f <- SetOf(kept[1..]) ensures f in SetOf(kept) {
      }
      DisjointIsSpliceable(text, kept[0].span.end, kept[1..]);
    }
  }

  /** Resolved findings whose spans are aligned never make `redact` report an invalid span. */
  method DetectAndRedact(input: string, detected: seq<Finding>, mode: Mode) returns (outcome: Outcome, kept: seq<Shape>)
    ensures Resolution(SetOf(Shapes(detected)), kept)
    ensures Aligned(input, SetOf(Shapes(detected))) ==> !outcome.InvalidSpan? && Spliceable(input, 0, Spans(kept))
    ensures outcome.Redacted? ==> Some(outcome.text) == Spliced(input, 0, kept, WriterOf(mode))
    ensures outcome.Redacted? ==> Rewritten(input, kept, mode, outcome.text)
  {
    var resolved := ResolveOverlaps(detected);
    kept := Shapes(resolved);
    if Aligned(input, SetOf(Shapes(detected))) {
      DisjointIsSpliceable(input, 0, kept);
    }
    outcome := Redact(input, kept, mode);
  }
}
