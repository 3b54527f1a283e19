/**
 * The exact-value stream redactor of `blindfold-exec`.
 *
 * `Rewrite` is the reference: one pass over the whole input that replaces the longest
 * pattern at the leftmost position. `StreamingRedactor` sees the input in chunks, holds
 * back a tail, and bounds what it retains; it is proved to compute the same thing.
 */
module Redaction {
  import opened Seqs
  import opened Leaks

  const OPEN: Byte := 91
  const CLOSE: Byte := 93
  /** The marker between its brackets: `REDACTED`. */
  const MARKER_WORD: Bytes := [82, 69, 68, 65, 67, 84, 69, 68]
  const REDACTION: Bytes := [OPEN] + MARKER_WORD + [CLOSE]

  // ---- Reference semantics ------------------------------------------------------------

  datatype Rewritten = Rewritten(text: Bytes, redactions: nat)

  /** Leftmost-longest replacement of every pattern in the whole input. */
  function Rewrite(patterns: set<Bytes>, s: Bytes): Rewritten
    decreases |s|
  {
    if s == [] then Rewritten([], 0)
    else
      var k := Longest(patterns, s);
      if k > 0 then
        var rest := Rewrite(patterns, s[k..]);
        Rewritten(REDACTION + rest.text, rest.redactions + 1)
      else
        var rest := Rewrite(patterns, s[1..]);
        Rewritten([s[0]] + rest.text, rest.redactions)
  }

  /** Bytes beyond the longest pattern cannot change what matches at the front. */
  lemma LongestIgnoresTail(patterns: set<Bytes>, s: Bytes, tail: Bytes, longest: nat)
    requires forall p <- patterns :: |p| <= longest
    requires longest <= |s|
    ensures Longest(patterns, s + tail) == Longest(patterns, s)
  {
    var k, m := Longest(patterns, s + tail), Longest(patterns, s);
    if k > 0 {
      assert |(s + tail)[..k]| <= longest;
      assert (s + tail)[..k] == s[..k];
    }
    if m > 0 {
      assert (s + tail)[..m] == s[..m];
    }
  }

  // ---- The streaming implementation ---------------------------------------------------

  /** What is left of `input`'s rewriting once `text` has been emitted is that of `pending`. */
  ghost predicate Committed(patterns: set<Bytes>, input: Bytes, emitted: Rewritten, pending: Bytes, tail: Bytes) {
    var whole, rest := Rewrite(patterns, input + tail), Rewrite(patterns, pending + tail);
    whole.text == emitted.text + rest.text && whole.redactions == emitted.redactions + rest.redactions
  }

  /** One loop step of `process`: a marker or a copied byte moves from pending to emitted. */
  lemma CommitStep(patterns: set<Bytes>, input: Bytes, emitted: Rewritten, pending: Bytes, tail: Bytes)
    requires Committed(patterns, input, emitted, pending, tail)
    requires pending != []
    requires Longest(patterns, pending + tail) == Longest(patterns, pending)
    ensures var k := Longest(patterns, pending);
            if k > 0
            then Committed(patterns, input, Rewritten(emitted.text + REDACTION, emitted.redactions + 1), pending[k..], tail)
            else Committed(patterns, input, Rewritten(emitted.text + [pending[0]], emitted.redactions), pending[1..], tail)
  {
    var k := Longest(patterns, pending);
    var drop := if k > 0 then k else 1;
    assert (pending + tail)[drop..] == pending[drop..] + tail;
    var rest := Rewrite(patterns, pending[drop..] + tail).text;
    assert emitted.text + (REDACTION + rest) == emitted.text + REDACTION + rest;
    assert emitted.text + ([pending[0]] + rest) == emitted.text + [pending[0]] + rest;
  }

  /** `Committed` for every continuation, or only for the empty one at the end of the stream. */
  ghost predicate CommittedAll(patterns: set<Bytes>, input: Bytes, emitted: Rewritten, pending: Bytes, atEnd: bool) {
    forall tail: Bytes :: (atEnd ==> tail == []) ==> Committed(patterns, input, emitted, pending, tail)
  }

  /** A step is sound while a whole longest pattern is buffered, or once the stream has ended. */
  lemma CommitAllStep(patterns: set<Bytes>, input: Bytes, emitted: Rewritten, pending: Bytes, atEnd: bool, longest: nat)
    requires CommittedAll(patterns, input, emitted, pending, atEnd)
    requires forall p <- patterns :: |p| <= longest
    requires pending != [] && (atEnd || longest <= |pending|)
    ensures var k := Longest(patterns, pending);
            if k > 0
            then CommittedAll(patterns, input, Rewritten(emitted.text + REDACTION, emitted.redactions + 1), pending[k..], atEnd)
            else CommittedAll(patterns, input, Rewritten(emitted.text + pending[..1], emitted.redactions), pending[1..], atEnd)
  {
    assert pending[..1] == [pending[0]];
    forall tail: Bytes | atEnd ==> tail == []
      ensures Committed(patterns, input, emitted, pending, tail)
      ensures Longest(patterns, pending + tail) == Longest(patterns, pending)
    {
      if atEnd {
        assert pending + tail == pending;
      } else {
        LongestIgnoresTail(patterns, pending, tail, longest);
      }
    }
    var k := Longest(patterns, pending);
    var next := if k > 0 then Rewritten(emitted.text + REDACTION, emitted.redactions + 1)
                else Rewritten(emitted.text + [pending[0]], emitted.redactions);
    var left := pending[(if k > 0 then k else 1)..];
    forall tail: Bytes | atEnd ==> tail == [] ensures Committed(patterns, input, next, left, tail)
    {
      CommitStep(patterns, input, emitted, pending, tail);
    }
  }

  lemma CommitEnd(patterns: set<Bytes>, input: Bytes, emitted: Rewritten)
    requires CommittedAll(patterns, input, emitted, [], true)
    ensures emitted == Rewrite(patterns, input)
  {
    assert Committed(patterns, input, emitted, [], []);
    assert input + [] == input && emitted.text + [] == emitted.text;
  }

  lemma CommitMore(patterns: set<Bytes>, input: Bytes, emitted: Rewritten, pending: Bytes, more: Bytes)
    requires CommittedAll(patterns, input, emitted, pending, false)
    ensures CommittedAll(patterns, input + more, emitted, pending + more, false)
  {
    forall tail: Bytes ensures Committed(patterns, input + more, emitted, pending + more, tail) {
      assert input + (more + tail) == input + more + tail;
      assert pending + (more + tail) == pending + more + tail;
      assert Committed(patterns, input, emitted, pending, more + tail);
    }
  }

  /** Output retained up to a limit, with a flag for anything dropped. */
  class BoundedOutput {
    var bytes: Bytes
    const limit: nat
    var truncated: bool
    /** Everything ever pushed. */
    ghost var pushed: Bytes

    ghost predicate Valid()
      reads this
    {
      bytes == Take(pushed, limit) && truncated == (|pushed| > limit)
    }

    constructor (limit: nat)
      ensures Valid() && pushed == [] && this.limit == limit
    {
      this.limit := limit;
      bytes, truncated, pushed := [], false, [];
    }

    method Push(more: Bytes)
      requires Valid()
      modifies this
      ensures Valid() && pushed == old(pushed) + more
    {
      var available := if limit > |bytes| then limit - |bytes| else 0;
      var retained := Min(available, |more|);
      bytes := bytes + more[..retained];
      truncated := truncated || retained < |more|;
      pushed := pushed + more;
    }
  }

  datatype Summary = Summary(output: Bytes, bytesRead: nat, redactions: nat, truncated: bool)

  /** Drops each pattern equal to its predecessor. */
  method Dedup(patterns: seq<Bytes>) returns (kept: seq<Bytes>)
    requires LongestFirst(patterns)
    ensures LongestFirst(kept)
    ensures SetOf(kept) == SetOf(patterns)
  {
    kept := [];
    for i := 0 to |patterns|
      invariant SetOf(kept) == SetOf(patterns[..i])
      invariant LongestFirst(kept)
      invariant kept == [] <==> i == 0
      invariant i > 0 ==> kept[|kept| - 1] == patterns[i - 1]
    {
      assert SetOf(patterns[..i + 1]) == SetOf(patterns[..i]) + {patterns[i]} by {
        assert patterns[..i + 1] == patterns[..i] + [patterns[i]];
      }
      if i == 0 || patterns[i] != patterns[i - 1] {
        assert SetOf(kept + [patterns[i]]) == SetOf(kept) + {patterns[i]};
        kept := kept + [patterns[i]];
      } else {
        assert patterns[i] in SetOf(kept);
      }
    }
    assert patterns[..|patterns|] == patterns;
  }

  class StreamingRedactor {
    const patterns: seq<Bytes>
    ghost const patternSet: set<Bytes>
    const maximumPatternLength: nat
    var pending: Bytes
    const output: BoundedOutput
    var bytesRead: nat
    var redactions: nat
    /** Everything pushed so far, and the number of markers written. */
    ghost var input: Bytes
    ghost var markers: nat

    ghost function Emitted(): Rewritten
      reads this, output
    {
      Rewritten(output.pushed, markers)
    }

    ghost predicate Configured() {
      && patternSet == SetOf(patterns)
      && LongestFirst(patterns)
      && [] !in patterns
      && (forall p <- patternSet :: |p| <= maximumPatternLength)
      && maximumPatternLength > 0
    }

    ghost predicate Valid()
      reads this, output
    {
      && output.Valid()
      && Configured()
      && bytesRead == Min(|input|, U64_MAX)
      && redactions == Min(markers, U64_MAX)
      && CommittedAll(patternSet, input, Emitted(), pending, false)
    }

    constructor (given: seq<Bytes>, limit: nat)
      requires [] !in given
      ensures Valid() && fresh(output)
      ensures patternSet == SetOf(given) && output.limit == limit && input == []
    {
      var sorted := SortUnstableBy(given, NotShorter<Byte>);
      var unique := Dedup(sorted);
      assert forall p <- unique :: p in SetOf(given) by {
        assert forall p <- unique :: p in SetOf(unique);
      }
      patterns, patternSet := unique, SetOf(given);
      maximumPatternLength := if unique == [] then 1 else |unique[0]|;
      pending, bytesRead, redactions := [], 0, 0;
      output := new BoundedOutput(limit);
      input, markers := [], 0;
    }

    /** The first listed pattern standing at `offset`; listed longest first, it is the longest. */
    method MatchLength(offset: nat) returns (k: nat)
      requires Configured() && offset <= |pending|
      ensures k == Longest(patternSet, pending[offset..])
    {
      for i := 0 to |patterns|
        invariant forall j :: 0 <= j < i ==> !(patterns[j] <= pending[offset..])
      {
        StartsAtIsPrefix(pending, offset, patterns[i]);
        if StartsAt(pending, offset, patterns[i]) {
          FirstIsLongest(patterns, pending[offset..], i);
          return |patterns[i]|;
        }
      }
      k := 0;
      NoneMatches(patterns, pending[offset..]);
    }

    /** One turn of the loop in `process`: writes a marker or copies a byte. */
    method Advance(cursor: nat, atEnd: bool) returns (next: nat)
      requires Configured() && output.Valid() && redactions == Min(markers, U64_MAX)
      requires cursor < |pending| && (atEnd || maximumPatternLength <= |pending| - cursor)
      requires CommittedAll(patternSet, input, Emitted(), pending[cursor..], atEnd)
      modifies `redactions, `markers, output
      ensures output.Valid() && redactions == Min(markers, U64_MAX)
      ensures cursor < next <= |pending|
      ensures CommittedAll(patternSet, input, Emitted(), pending[next..], atEnd)
    {
      var k := MatchLength(cursor);
      CommitAllStep(patternSet, input, Emitted(), pending[cursor..], atEnd, maximumPatternLength);
      next := cursor + if k > 0 then k else 1;
      assert pending[next..] == pending[cursor..][next - cursor..];
      if k > 0 {
        output.Push(REDACTION);
        redactions := SaturatingAdd(redactions, 1);
        markers := markers + 1;
      } else {
        assert pending[cursor..next] == pending[cursor..][..1];
        output.Push(pending[cursor..next]);
      }
    }

    method Process(atEnd: bool)
      requires Valid()
      modifies `pending, `redactions, `markers, output
      ensures !atEnd ==> Valid()
      ensures atEnd ==> output.Valid() && redactions == Min(markers, U64_MAX)
                        && Emitted() == Rewrite(patternSet, input)
    {
      var held := if atEnd then 0 else maximumPatternLength - 1;
      var processBefore := if |pending| > held then |pending| - held else 0;
      var cursor := 0;
      assert pending[0..] == pending;
      while cursor < processBefore
        invariant cursor <= |pending| && pending == old(pending)
        invariant output.Valid() && redactions == Min(markers, U64_MAX)
        invariant CommittedAll(patternSet, input, Emitted(), pending[cursor..], atEnd)
      {
        cursor := Advance(cursor, atEnd);
      }
      pending := pending[cursor..];
      if atEnd {
        assert pending == [];
        CommitEnd(patternSet, input, Emitted());
      }
    }

    method Push(more: Bytes)
      requires Valid()
      modifies this, output
      ensures Valid() && input == old(input) + more
    {
      bytesRead := SaturatingAdd(bytesRead, |more|);
      CommitMore(patternSet, input, Emitted(), pending, more);
      pending := pending + more;
      input := input + more;
      Process(false);
    }

    method Finish() returns (summary: Summary)
      requires Valid()
      modifies this, output
      ensures summary == Expected(patternSet, output.limit, old(input))
    {
      Process(true);
      summary := Summary(output.bytes, bytesRead, redactions, output.truncated);
    }
  }

  /** The summary a one-shot redaction of the whole input would report. */
  function Expected(patterns: set<Bytes>, limit: nat, input: Bytes): Summary {
    var whole := Rewrite(patterns, input);
    Summary(Take(whole.text, limit), Min(|input|, U64_MAX), Min(whole.redactions, U64_MAX), |whole.text| > limit)
  }

  /**
   * `capture_stream`: reads until a read returns no bytes and feeds every chunk. Whatever the
   * chunking, the order of the patterns and their repetitions, the summary is the one-shot one.
   */
  method CaptureStream(chunks: seq<Bytes>, patterns: seq<Bytes>, limit: nat) returns (summary: Summary)
    requires [] !in patterns
    ensures summary == Expected(SetOf(patterns), limit, UntilEmptyRead(chunks))
    ensures forall n :: Delivers(chunks, n) ==> summary == Expected(SetOf(patterns), limit, Joined(chunks[..n]))
  {
    var redactor := new StreamingRedactor(patterns, limit);
    FeedAll(redactor, chunks);
    assert redactor.input == UntilEmptyRead(chunks);
    summary := redactor.Finish();
    forall n | Delivers(chunks, n) ensures UntilEmptyRead(chunks) == Joined(chunks[..n]) { DeliveredIsJoined(chunks, n); }
  }

  method FeedAll(redactor: StreamingRedactor, chunks: seq<Bytes>)
    requires redactor.Valid()
    modifies redactor, redactor.output
    ensures redactor.Valid() && redactor.input == old(redactor.input) + UntilEmptyRead(chunks)
  {
    ghost var total := redactor.input + UntilEmptyRead(chunks);
    var i := 0;
    assert chunks[0..] == chunks;
    while i < |chunks| && chunks[i] != []
      invariant 0 <= i <= |chunks|
      invariant redactor.Valid()
      invariant redactor.input + UntilEmptyRead(chunks[i..]) == total
    {
      assert chunks[i..][1..] == chunks[i + 1..];
      ConcatAssociates(redactor.input, chunks[i], UntilEmptyRead(chunks[i + 1..]));
      redactor.Push(chunks[i]);
      i := i + 1;
    }
    assert UntilEmptyRead(chunks[i..]) == [];
  }

  /** The bytes delivered before the first empty read, which means end of stream. */
  function UntilEmptyRead(chunks: seq<Bytes>): Bytes {
    if chunks == [] || chunks[0] == [] then [] else chunks[0] + UntilEmptyRead(chunks[1..])
  }

  function Joined(chunks: seq<Bytes>): Bytes {
    if chunks == [] then [] else Joined(chunks[..|chunks| - 1]) + chunks[|chunks| - 1]
  }

  /** The first `n` reads delivered something, and no other did after them. */
  ghost predicate Delivers(chunks: seq<Bytes>, n: int) {
    0 <= n <= |chunks| && [] !in chunks[..n] && (n < |chunks| ==> chunks[n] == [])
  }

  lemma {:induction false} JoinedFirst(chunk: Bytes, chunks: seq<Bytes>)
    ensures Joined([chunk] + chunks) == chunk + Joined(chunks)
  {
    var all := [chunk] + chunks;
    if chunks != [] {
      var n := |chunks| - 1;
      assert all[..|all| - 1] == [chunk] + chunks[..n];
      JoinedFirst(chunk, chunks[..n]);
      ConcatAssociates(chunk, Joined(chunks[..n]), chunks[n]);
    } else {
      assert all[..0] == [] && all[0] == chunk;
    }
  }

  /** What is delivered is all that was read before the first empty read, joined. */
  lemma {:induction false} DeliveredIsJoined(chunks: seq<Bytes>, n: nat)
    requires Delivers(chunks, n)
    ensures UntilEmptyRead(chunks) == Joined(chunks[..n])
    decreases n
  {
    if n > 0 {
      assert chunks[..n][0] == chunks[0] && chunks[..n] == [chunks[0]] + chunks[1..][..n - 1];
      DeliveredIsJoined(chunks[1..], n - 1);
      JoinedFirst(chunks[0], chunks[1..][..n - 1]);
    }
  }

  /** However the same bytes are cut into reads, the same is delivered. */
  lemma CuttingsAgree(a: seq<Bytes>, b: seq<Bytes>)
    requires [] !in a && [] !in b && Joined(a) == Joined(b)
    ensures UntilEmptyRead(a) == UntilEmptyRead(b) == Joined(a)
  {
    assert a[..|a|] == a && b[..|b|] == b;
    DeliveredIsJoined(a, |a|);
    DeliveredIsJoined(b, |b|);
  }

  // ---- No registered value survives in what is retained -------------------------------

  function Marker(): Bytes -> Bytes { (p: Bytes) => REDACTION }

  lemma {:induction false} RewriteReplaces(patterns: set<Bytes>, s: Bytes)
    ensures Rewrite(patterns, s).text == Replaced(patterns, Marker(), s)
    decreases |s|
  {
    if s != [] {
      var k := Longest(patterns, s);
      RewriteReplaces(patterns, s[(if k > 0 then k else 1)..]);
    }
  }

  /** No registered value occurs in what is retained, for any input and any limit. */
  ghost predicate NeverLeaks(patterns: set<Bytes>) {
    forall s: Bytes, limit: nat, p <- patterns :: !Occurs(Expected(patterns, limit, s).output, p)
  }

  /** A limit hides nothing for good and reveals nothing: what matters is the whole rewritten text. */
  lemma LeaksAreOccurrences(patterns: set<Bytes>)
    ensures NeverLeaks(patterns) <==> NeverOccurs(patterns, Marker())
  {
    if NeverOccurs(patterns, Marker()) {
      forall s: Bytes, limit: nat, p <- patterns ensures !Occurs(Expected(patterns, limit, s).output, p) {
        RewriteReplaces(patterns, s);
        NotInPrefix(Rewrite(patterns, s).text, limit, p);
      }
    }
    if NeverLeaks(patterns) {
      forall s: Bytes, p <- patterns, i: nat ensures !StartsAt(Replaced(patterns, Marker(), s), i, p) {
        RewriteReplaces(patterns, s);
        var text := Rewrite(patterns, s).text;
        assert Expected(patterns, |text|, s).output == text;
        assert !Occurs(text, p);
      }
    }
  }

  lemma NotInPrefix(text: Bytes, limit: nat, p: Bytes)
    requires forall i: nat :: !StartsAt(text, i, p)
    ensures !Occurs(Take(text, limit), p)
  {
    var kept := Take(text, limit);
    forall i: nat | i <= |kept| ensures !StartsAt(kept, i, p) {
      assert !StartsAt(text, i, p);
      assert i + |p| <= |kept| ==> kept[i..i + |p|] == text[i..i + |p|];
    }
  }

  /** A registered value that is part of the marker reappears in its own redaction. */
  lemma LeakOf(patterns: set<Bytes>, p: Bytes)
    requires [] !in patterns && p in patterns && Occurs(REDACTION, p)
    ensures Occurs(Expected(patterns, |REDACTION|, p).output, p)
    ensures !NeverLeaks(patterns)
  {
    OwnMarkLeaks(patterns, Marker(), p);
    RewriteReplaces(patterns, p);
    LeaksAreOccurrences(patterns);
    assert Expected(patterns, |REDACTION|, p).output == REDACTION;
  }

  /** Values clear of the marker, with or without brackets, never occur in what is retained. */
  lemma ClearNeverLeaks(patterns: set<Bytes>)
    requires [] !in patterns && forall p <- patterns :: ClearOf(p, REDACTION)
    ensures NeverLeaks(patterns)
  {
    ClearNeverOccurs(patterns, Marker());
    LeaksAreOccurrences(patterns);
  }

  /**
   * For any one value, brackets or not: it never occurs in retained output exactly when it cannot
   * start inside a marker and no beginning of it can stand, unmatched, before a marker it runs into.
   */
  lemma OneValueExactly(p: Bytes)
    requires p != []
    ensures NeverLeaks({p}) <==> !StartsWithin(p, REDACTION) && forall n :: 0 < n < |p| ==> !Exposed(p, n, REDACTION)
  {
    OneExactly(p, Marker());
    LeaksAreOccurrences({p});
  }

  // ---- Values without brackets --------------------------------------------------------

  ghost predicate BracketFree(patterns: set<Bytes>) {
    forall p <- patterns :: OPEN !in p && CLOSE !in p
  }

  /** A word without brackets that lies within a bracketed word lies within the word. */
  lemma InsideBrackets(word: Bytes, p: Bytes, i: nat)
    requires p != [] && OPEN !in p && CLOSE !in p && StartsAt([OPEN] + word + [CLOSE], i, p)
    ensures Occurs(word, p)
  {
    var marker := [OPEN] + word + [CLOSE];
    assert p == marker[i..i + |p|];
    assert p[0] == marker[i] && p[|p| - 1] == marker[i + |p| - 1];
    assert p[0] in p && p[|p| - 1] in p;
    assert word[i - 1..i - 1 + |p|] == p;
    assert StartsAt(word, i - 1, p);
  }

  lemma ClearOfBrackets(word: Bytes, p: Bytes)
    requires p != [] && OPEN !in p && CLOSE !in p && !Occurs(word, p)
    ensures ClearOf(p, [OPEN] + word + [CLOSE])
  {
    var marker := [OPEN] + word + [CLOSE];
    forall i | 0 <= i < |marker| ensures !Agree(marker[i..], p) {
      var end := marker[i..];
      assert end[|end| - 1] == CLOSE;
      if p <= end {
        assert marker[i..i + |p|] == end[..|p|];
        InsideBrackets(word, p, i);
      }
    }
    forall n | 0 < n < |p| ensures !RunsInto(p, n, marker) {
      assert p[n..][0] == p[n] && p[n] in p && marker[0] == OPEN;
    }
  }

  lemma PartOfWordIsPartOfMarker(p: Bytes)
    requires Occurs(MARKER_WORD, p)
    ensures Occurs(REDACTION, p)
  {
    OccursWithin([OPEN], MARKER_WORD, [CLOSE], p);
  }

  /**
   * With bracket-free values, no registered value ever occurs in retained output - across
   * marker edges and at the truncation point too - exactly when none is part of `REDACTED`.
   */
  lemma NoLeakExactly(patterns: set<Bytes>)
    requires [] !in patterns && BracketFree(patterns)
    ensures NeverLeaks(patterns) <==> forall p <- patterns :: !Occurs(MARKER_WORD, p)
  {
    if forall p <- patterns :: !Occurs(MARKER_WORD, p) {
      forall p <- patterns ensures ClearOf(p, REDACTION) { ClearOfBrackets(MARKER_WORD, p); }
      ClearNeverLeaks(patterns);
    } else {
      var p :| p in patterns && Occurs(MARKER_WORD, p);
      PartOfWordIsPartOfMarker(p);
      LeakOf(patterns, p);
    }
  }
}
