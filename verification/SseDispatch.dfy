/**
 * What a client dispatches by sections 9.2.5 and 9.2.6 of the WHATWG HTML Standard, before and after
 * re-framing: an event counts only if a blank line ends it, only one with data is dispatched, and the
 * last event id carries over.
 */
module SseDispatch {
  import opened Seqs
  import opened JsonSanitizing
  import opened Sse

  // ---- The standard's events --------------------------------------------------------------

  /** The non-empty events ended by a blank line. */
  function Complete(lines: seq<string>, current: Event): seq<Event> {
    if lines == [] then []
    else if lines[0] == "" then Emit(current) + Complete(lines[1..], EMPTY)
    else Complete(lines[1..], PushLine(current, lines[0]))
  }

  /** What has been read since the last blank line. */
  function Unfinished(lines: seq<string>, current: Event): Event {
    if lines == [] then current
    else Unfinished(lines[1..], if lines[0] == "" then EMPTY else PushLine(current, lines[0]))
  }

  /** The lines of a text that have an end, and the rest after the last end. */
  function Ended(text: string): seq<string> {
    var lines := SplitOn(Normalize(text), '\n');
    lines[..|lines| - 1]
  }

  function Rest(text: string): string {
    var lines := SplitOn(Normalize(text), '\n');
    lines[|lines| - 1]
  }

  function StandardEvents(text: string): seq<Event> { Complete(Ended(text), EMPTY) }

  /** The event a stream breaks off in, which the standard discards. */
  function LeftOver(text: string): Event {
    var current := Unfinished(Ended(text), EMPTY);
    if Rest(text) == "" then current else PushLine(current, Rest(text))
  }

  lemma {:induction false} EventsSplit(lines: seq<string>, last: string, current: Event)
    ensures var open := Unfinished(lines, current);
            Events(lines + [last], current) == Complete(lines, current) + Emit(if last == "" then open else PushLine(open, last))
    decreases |lines|
  {
    var all := lines + [last];
    if lines == [] {
      assert all == [last] && all[1..] == [];
      assert Emit(EMPTY) == [];
    } else {
      assert all[0] == lines[0] && all[1..] == lines[1..] + [last];
      EventsSplit(lines[1..], last, if lines[0] == "" then EMPTY else PushLine(current, lines[0]));
    }
  }

  /** The proxy reads the standard's events and, unlike the standard, the one a stream breaks off in. */
  lemma ProxyReadsOneMore(text: string)
    ensures Parse(text) == StandardEvents(text) + Emit(LeftOver(text))
  {
    var lines := SplitOn(Normalize(text), '\n');
    assert lines == Ended(text) + [Rest(text)];
    EventsSplit(Ended(text), Rest(text), EMPTY);
  }

  // ---- The written stream is complete -----------------------------------------------------

  lemma {:induction false} CompleteOfLines(lines: seq<string>, more: seq<string>, current: Event)
    requires "" !in lines
    ensures Complete(lines + [""] + more, current) == Emit(Fold(current, lines)) + Complete(more, EMPTY)
    decreases |lines|
  {
    var all := lines + [""] + more;
    if lines == [] {
      assert all[1..] == more;
    } else {
      assert all[1..] == lines[1..] + [""] + more;
      CompleteOfLines(lines[1..], more, PushLine(current, lines[0]));
    }
  }

  /** The lines of one written event, and what reading them makes of nothing. */
  lemma WrittenLines(e: Event, rest: string)
    requires Printable(e)
    ensures SplitOn(Write(e) + rest, '\n') == Lines(e) + [""] + SplitOn(rest, '\n')
    ensures "" !in Lines(e) && Emit(Fold(EMPTY, Lines(e))) == [e]
  {
    LinesAreClean(e);
    SplitUnlines(Lines(e) + [""], rest);
    FoldLines(e);
  }

  lemma CompleteFirst(lines: seq<string>, rest: seq<string>, e: Event)
    requires "" !in lines && Emit(Fold(EMPTY, lines)) == [e] && rest != []
    ensures var all := lines + [""] + rest; Complete(all[..|all| - 1], EMPTY) == [e] + Complete(rest[..|rest| - 1], EMPTY)
  {
    var all := lines + [""] + rest;
    assert all[..|all| - 1] == lines + [""] + rest[..|rest| - 1];
    CompleteOfLines(lines, rest[..|rest| - 1], EMPTY);
  }

  function CompleteIn(text: string): seq<Event> {
    var lines := SplitOn(text, '\n');
    Complete(lines[..|lines| - 1], EMPTY)
  }

  lemma FirstOf(text: string, lines: seq<string>, rest: string, e: Event)
    requires SplitOn(text, '\n') == lines + [""] + SplitOn(rest, '\n') && "" !in lines && Emit(Fold(EMPTY, lines)) == [e]
    ensures CompleteIn(text) == [e] + CompleteIn(rest) && OpenIn(text) == OpenIn(rest)
  {
    CompleteFirst(lines, SplitOn(rest, '\n'), e);
    OpenAfterFirst(lines, SplitOn(rest, '\n'));
  }

  lemma FirstWritten(e: Event, rest: string)
    requires Printable(e)
    ensures CompleteIn(Write(e) + rest) == [e] + CompleteIn(rest) && OpenIn(Write(e) + rest) == OpenIn(rest)
  {
    WrittenLines(e, rest);
    FirstOf(Write(e) + rest, Lines(e), rest, e);
  }

  lemma {:induction false} WrittenIsComplete(es: seq<Event>)
    requires forall e <- es :: Printable(e)
    ensures CompleteIn(WriteAll(es)) == es
  {
    if es != [] {
      FirstWritten(es[0], WriteAll(es[1..]));
      WrittenIsComplete(es[1..]);
    } else {
      assert SplitOn("", '\n') == [""];
    }
  }

  lemma StandardReadsWritten(es: seq<Event>)
    requires forall e <- es :: Printable(e)
    ensures StandardEvents(WriteAll(es)) == es
  {
    WrittenHasNoCr(es);
    NothingToNormalize(WriteAll(es));
    WrittenIsComplete(es);
  }

  // ---- Dispatch ---------------------------------------------------------------------------

  datatype Dispatched = Dispatched(event: Option<string>, data: seq<string>, lastId: Option<string>)

  function IdAfter(e: Event, last: Option<string>): Option<string> { if e.id.Some? then e.id else last }

  function Dispatch(es: seq<Event>, last: Option<string>): seq<Dispatched>
    decreases |es|
  {
    if es == [] then []
    else
      var id := IdAfter(es[0], last);
      (if es[0].data == [] then [] else [Dispatched(es[0].event, es[0].data, id)]) + Dispatch(es[1..], id)
  }

  lemma {:induction false} DispatchOneMore(es: seq<Event>, more: seq<Event>, last: Option<string>)
    requires |more| <= 1
    ensures |Dispatch(es + more, last)| == |Dispatch(es, last)| + if more != [] && more[0].data != [] then 1 else 0
    ensures more == [] || more[0].data == [] ==> Dispatch(es + more, last) == Dispatch(es, last)
    decreases |es|
  {
    if es == [] {
      assert es + more == more;
      if more != [] { assert more[1..] == []; }
    } else {
      assert (es + more)[0] == es[0] && (es + more)[1..] == es[1..] + more;
      DispatchOneMore(es[1..], more, IdAfter(es[0], last));
    }
  }

  // ---- Dispatch and sanitizing ------------------------------------------------------------

  function CleanText(z: Sanitizer, text: Option<string>): Option<string> {
    if text.None? then None else Some(z.traced(text.value).0)
  }

  function CleanData(z: Sanitizer, c: Codec, openAi: bool, data: seq<string>): seq<string> {
    var clean := SanitizeData(z, c, openAi, data);
    if clean.None? then [] else clean.value.0
  }

  function Cleaned(z: Sanitizer, c: Codec, openAi: bool, ds: seq<Dispatched>): (r: seq<Dispatched>)
    ensures |r| == |ds|
  {
    if ds == [] then []
    else [Dispatched(CleanText(z, ds[0].event), CleanData(z, c, openAi, ds[0].data), CleanText(z, ds[0].lastId))] + Cleaned(z, c, openAi, ds[1..])
  }

  lemma CleanParts(z: Sanitizer, c: Codec, openAi: bool, e: Event)
    requires SanitizeEvent(z, c, openAi, e).Some?
    ensures var clean := SanitizeEvent(z, c, openAi, e).value.0;
            && clean.event == CleanText(z, e.event) && clean.id == CleanText(z, e.id)
            && clean.data == CleanData(z, c, openAi, e.data) && (clean.data == [] <==> e.data == [])
  {
  }

  lemma {:induction false} DispatchOfClean(z: Sanitizer, c: Codec, openAi: bool, es: seq<Event>, last: Option<string>)
    requires SanitizeAll(z, c, openAi, es).Some?
    ensures Dispatch(SanitizeAll(z, c, openAi, es).value.0, CleanText(z, last)) == Cleaned(z, c, openAi, Dispatch(es, last))
    decreases |es|
  {
    if es != [] {
      var first, clean := SanitizeEvent(z, c, openAi, es[0]).value.0, SanitizeAll(z, c, openAi, es).value.0;
      CleanParts(z, c, openAi, es[0]);
      assert clean[0] == first && clean[1..] == SanitizeAll(z, c, openAi, es[1..]).value.0;
      DispatchOfClean(z, c, openAi, es[1..], IdAfter(es[0], last));
      var ds, rest := Dispatch(es, last), Dispatch(es[1..], IdAfter(es[0], last));
      assert CleanText(z, IdAfter(es[0], last)) == IdAfter(first, CleanText(z, last));
      if es[0].data == [] {
        assert ds == rest;
      } else {
        assert ds[1..] == rest;
      }
    }
  }

  /** What is dispatched instead has its parts sanitized, told of the fields alone. */
  ghost predicate DispatchSent(z: Sanitizer, c: Codec, openAi: bool, before: Dispatched, after: Dispatched) {
    && TextSent(z, before.event, after.event) && TextSent(z, before.lastId, after.lastId)
    && DataSent(z, c, openAi, before.data, after.data)
  }

  ghost predicate AllDispatchSent(z: Sanitizer, c: Codec, openAi: bool, before: seq<Dispatched>, after: seq<Dispatched>) {
    |after| == |before| && forall i :: 0 <= i < |before| ==> DispatchSent(z, c, openAi, before[i], after[i])
  }

  lemma OneMoreSent(z: Sanitizer, c: Codec, openAi: bool, a: Dispatched, b: Dispatched, before: seq<Dispatched>, after: seq<Dispatched>)
    requires DispatchSent(z, c, openAi, a, b) && AllDispatchSent(z, c, openAi, before, after)
    ensures AllDispatchSent(z, c, openAi, [a] + before, [b] + after)
  {
  }

  lemma {:induction false} CleanedIsSent(z: Sanitizer, c: Codec, openAi: bool, es: seq<Event>, last: Option<string>)
    requires SanitizeAll(z, c, openAi, es).Some?
    ensures AllDispatchSent(z, c, openAi, Dispatch(es, last), Cleaned(z, c, openAi, Dispatch(es, last)))
    decreases |es|
  {
    if es != [] {
      var id := IdAfter(es[0], last);
      var rest := Dispatch(es[1..], id);
      DataIsSent(z, c, openAi, es[0].data);
      CleanedIsSent(z, c, openAi, es[1..], id);
      if es[0].data != [] {
        var d := Dispatched(es[0].event, es[0].data, id);
        var sent := Dispatched(CleanText(z, d.event), CleanData(z, c, openAi, d.data), CleanText(z, d.lastId));
        assert ([d] + rest)[1..] == rest;
        OneMoreSent(z, c, openAi, d, sent, rest, Cleaned(z, c, openAi, rest));
      } else {
        assert Dispatch(es, last) == rest;
      }
    }
  }

  /**
   * A client that follows the standard dispatches from the sanitized stream what it would from the
   * original, each part sanitized, exactly when the original does not break off in an event with data;
   * otherwise it dispatches that one in addition.
   */
  lemma DispatchIsKeptExactly(z: Sanitizer, c: Codec, openAi: bool, text: string)
    requires c.OneLine() && SanitizeAll(z, c, openAi, Parse(text)).Some?
    ensures var written := WriteAll(SanitizeAll(z, c, openAi, Parse(text)).value.0);
            var before, after := Dispatch(StandardEvents(text), None), Dispatch(StandardEvents(written), None);
            && after == Cleaned(z, c, openAi, Dispatch(Parse(text), None))
            && AllDispatchSent(z, c, openAi, Dispatch(Parse(text), None), after)
            && (after == Cleaned(z, c, openAi, before) <==> LeftOver(text).data == [])
            && |after| == |before| + if LeftOver(text).data == [] then 0 else 1
  {
    var clean := SanitizeAll(z, c, openAi, Parse(text)).value.0;
    CleanIsPrintable(z, c, openAi, text);
    StandardReadsWritten(clean);
    DispatchOfClean(z, c, openAi, Parse(text), None);
    CleanedIsSent(z, c, openAi, Parse(text), None);
    ProxyReadsOneMore(text);
    DispatchOneMore(StandardEvents(text), Emit(LeftOver(text)), None);
    assert LeftOver(text) == EMPTY ==> LeftOver(text).data == [];
  }

  const BROKEN_OFF := "data" + ": " + "[DONE]"

  /** A text of one line without an end. */
  lemma OneOpenLine(line: string)
    requires line != "" && '\r' !in line && '\n' !in line && line[0] != BYTE_ORDER_MARK
    ensures StandardEvents(line) == [] && LeftOver(line) == PushLine(EMPTY, line)
  {
    NothingToNormalize(line);
    SplitOnNone(line, '\n');
    assert Ended(line) == [] && Rest(line) == line;
  }

  lemma DataLine(value: string)
    ensures PushLine(EMPTY, "data" + ": " + value) == EMPTY.(data := [value])
  {
    PushField("data", value);
    assert EMPTY.data + [value] == [value];
  }

  /** A text of one data line without an end. */
  lemma OneOpenDataLine(text: string, value: string)
    requires text == "data" + ": " + value && '\r' !in value && '\n' !in value
    ensures StandardEvents(text) == [] && Parse(text) == [EMPTY.(data := [value])]
  {
    assert text[0] == 'd';
    DataLine(value);
    OneOpenLine(text);
    ProxyReadsOneMore(text);
  }

  /**
   * A stream that breaks off in the closing event of a chat: a client that follows the standard
   * dispatches nothing from it and, once it is re-framed, that event.
   */
  lemma BrokenOffIsDispatched(z: Sanitizer, c: Codec)
    requires c.OneLine()
    ensures var clean := SanitizeAll(z, c, true, Parse(BROKEN_OFF));
            && clean.Some? && Dispatch(StandardEvents(BROKEN_OFF), None) == []
            && Dispatch(StandardEvents(WriteAll(clean.value.0)), None) == [Dispatched(None, ["[DONE]"], None)]
  {
    var e := EMPTY.(data := ["[DONE]"]);
    OneOpenDataLine(BROKEN_OFF, "[DONE]");
    var es := [e];
    assert es[1..] == [] && Join(e.data) == "[DONE]";
    assert SanitizeAll(z, c, true, es).Some?;
    DispatchIsKeptExactly(z, c, true, BROKEN_OFF);
    assert Dispatch(es, None) == [Dispatched(None, ["[DONE]"], None)];
    var ds := Dispatch(es, None);
    assert ds[1..] == [];
  }

  // ---- The client's state -----------------------------------------------------------------

  /** The last event id string a client is left with: that of the last complete event that sets one. */
  function IdIn(es: seq<Event>, last: Option<string>): Option<string>
    decreases |es|
  {
    if es == [] then last else IdIn(es[1..], IdAfter(es[0], last))
  }

  function RetryAfter(e: Event, last: Option<string>): Option<string> { if e.retry.Some? then e.retry else last }

  function RetryIn(es: seq<Event>, last: Option<string>): Option<string>
    decreases |es|
  {
    if es == [] then last else RetryIn(es[1..], RetryAfter(es[0], last))
  }

  /** The event in which the ended lines of a text break off; a line without an end is not read. */
  function Open(text: string): Event { Unfinished(Ended(text), EMPTY) }

  datatype Client = Client(lastId: Option<string>, reconnection: Option<string>)

  /** A blank line makes an event's id the client's; a reconnection time takes effect with its line. */
  function ClientAfter(text: string): Client {
    Client(IdIn(StandardEvents(text), None), RetryAfter(Open(text), RetryIn(StandardEvents(text), None)))
  }

  lemma {:induction false} StateOneMore(es: seq<Event>, e: Event, id: Option<string>, retry: Option<string>)
    ensures IdIn(es + Emit(e), id) == IdAfter(e, IdIn(es, id))
    ensures RetryIn(es + Emit(e), retry) == RetryAfter(e, RetryIn(es, retry))
    decreases |es|
  {
    if es == [] {
      assert es + Emit(e) == Emit(e);
      if e != EMPTY { assert Emit(e)[1..] == []; }
    } else {
      assert (es + Emit(e))[0] == es[0] && (es + Emit(e))[1..] == es[1..] + Emit(e);
      StateOneMore(es[1..], e, IdAfter(es[0], id), RetryAfter(es[0], retry));
    }
  }

  lemma {:induction false} StateOfClean(z: Sanitizer, c: Codec, openAi: bool, es: seq<Event>, id: Option<string>, retry: Option<string>)
    requires SanitizeAll(z, c, openAi, es).Some?
    ensures var clean := SanitizeAll(z, c, openAi, es).value.0;
            IdIn(clean, CleanText(z, id)) == CleanText(z, IdIn(es, id)) && RetryIn(clean, retry) == RetryIn(es, retry)
    decreases |es|
  {
    if es != [] {
      var first, clean := SanitizeEvent(z, c, openAi, es[0]).value.0, SanitizeAll(z, c, openAi, es).value.0;
      CleanParts(z, c, openAi, es[0]);
      assert clean[0] == first && clean[1..] == SanitizeAll(z, c, openAi, es[1..]).value.0;
      StateOfClean(z, c, openAi, es[1..], IdAfter(es[0], id), RetryAfter(es[0], retry));
      assert CleanText(z, IdAfter(es[0], id)) == IdAfter(first, CleanText(z, id));
    }
  }

  function OpenIn(text: string): Event {
    var lines := SplitOn(text, '\n');
    Unfinished(lines[..|lines| - 1], EMPTY)
  }

  lemma OpenAfterFirst(lines: seq<string>, rest: seq<string>)
    requires rest != []
    ensures var all := lines + [""] + rest; Unfinished(all[..|all| - 1], EMPTY) == Unfinished(rest[..|rest| - 1], EMPTY)
  {
    var all := lines + [""] + rest;
    assert all[..|all| - 1] == lines + [""] + rest[..|rest| - 1];
    UnfinishedAfterBlank(lines, rest[..|rest| - 1], EMPTY);
  }

  lemma {:induction false} WrittenEndsBlank(es: seq<Event>)
    requires forall e <- es :: Printable(e)
    ensures OpenIn(WriteAll(es)) == EMPTY
  {
    if es != [] {
      FirstWritten(es[0], WriteAll(es[1..]));
      WrittenEndsBlank(es[1..]);
    } else {
      assert SplitOn("", '\n') == [""];
    }
  }

  lemma {:induction false} UnfinishedAfterBlank(lines: seq<string>, more: seq<string>, current: Event)
    ensures Unfinished(lines + [""] + more, current) == Unfinished(more, EMPTY)
    decreases |lines|
  {
    var all := lines + [""] + more;
    if lines == [] {
      assert all[1..] == more;
    } else {
      assert all[1..] == lines[1..] + [""] + more;
      UnfinishedAfterBlank(lines[1..], more, if lines[0] == "" then EMPTY else PushLine(current, lines[0]));
    }
  }

  /**
   * Re-framing leaves the client with the id and reconnection time it would have, sanitized, exactly
   * when the event the stream breaks off in sets no other id and its last, unended line no other time.
   */
  lemma ClientIsKeptExactly(z: Sanitizer, c: Codec, openAi: bool, text: string)
    requires c.OneLine() && SanitizeAll(z, c, openAi, Parse(text)).Some?
    ensures var before, after := ClientAfter(text), ClientAfter(WriteAll(SanitizeAll(z, c, openAi, Parse(text)).value.0));
            && (after.lastId == CleanText(z, before.lastId)
                <==> LeftOver(text).id.None? || CleanText(z, LeftOver(text).id) == CleanText(z, before.lastId))
            && (after.reconnection == before.reconnection
                <==> LeftOver(text).retry == Open(text).retry || LeftOver(text).retry == before.reconnection)
  {
    var es, clean := Parse(text), SanitizeAll(z, c, openAi, Parse(text)).value.0;
    CleanIsPrintable(z, c, openAi, text);
    StandardReadsWritten(clean);
    WrittenHasNoCr(clean);
    NothingToNormalize(WriteAll(clean));
    WrittenEndsBlank(clean);
    StateOfClean(z, c, openAi, es, None, None);
    ProxyReadsOneMore(text);
    StateOneMore(StandardEvents(text), LeftOver(text), None, None);
    LeftOverKeepsRetry(text);
  }

  lemma LeftOverKeepsRetry(text: string)
    ensures Open(text).retry.Some? ==> LeftOver(text).retry.Some?
  {
  }
}
