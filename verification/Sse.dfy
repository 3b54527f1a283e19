/**
 * Sanitizing a server-sent event stream: the body is cut into events by the proxy's own rules, each
 * event is sanitized, and the stream is written again. Bodies are decoded text; a body that is not
 * UTF-8 is refused before this point.
 */
module Sse {
  import opened Seqs
  import opened Json
  import opened JsonSanitizing

  /** Serialized JSON, of which only the one-line framing matters here. */
  datatype Codec = Codec(decode: string -> Option<Json>, encode: Json -> string) {
    ghost predicate OneLine() { forall v :: '\n' !in encode(v) && '\r' !in encode(v) }
  }

  datatype Event = Event(event: Option<string>, id: Option<string>, retry: Option<string>, data: seq<string>)

  const EMPTY := Event(None, None, None, [])
  const BYTE_ORDER_MARK: char := '\U{feff}'

  // ---- Reading ----------------------------------------------------------------------------

  function CollapseCrLf(s: string): string {
    if s == "" then ""
    else if |s| >= 2 && s[0] == '\r' && s[1] == '\n' then "\n" + CollapseCrLf(s[2..])
    else [s[0]] + CollapseCrLf(s[1..])
  }

  function CrToLf(s: string): string { ReplaceChar(s, '\r', "\n") }

  /** Every line end, whichever way it is written, as one line feed. */
  function Normalize(text: string): string {
    CrToLf(CollapseCrLf(if text != "" && text[0] == BYTE_ORDER_MARK then text[1..] else text))
  }

  function PushLine(e: Event, line: string): Event {
    if line != "" && line[0] == ':' then e
    else
      var parts := SplitOnce(line, ':');
      var (field, rest) := if parts.Some? then parts.value else (line, "");
      var value := if rest != "" && rest[0] == ' ' then rest[1..] else rest;
      if field == "event" then e.(event := Some(value))
      else if field == "data" then e.(data := e.data + [value])
      else if field == "id" && '\0' !in value then e.(id := Some(value))
      else if field == "retry" && value != "" && (forall c <- value :: '0' <= c <= '9') then e.(retry := Some(value))
      else e
  }

  function Emit(e: Event): seq<Event> { if e == EMPTY then [] else [e] }

  /** The non-empty events of a sequence of lines; the last one needs no blank line. */
  function Events(lines: seq<string>, current: Event): seq<Event> {
    if lines == [] then Emit(current)
    else if lines[0] == "" then Emit(current) + Events(lines[1..], EMPTY)
    else Events(lines[1..], PushLine(current, lines[0]))
  }

  function Parse(text: string): seq<Event> { Events(SplitOn(Normalize(text), '\n'), EMPTY) }

  // ---- Sanitizing and writing -------------------------------------------------------------

  function Join(parts: seq<string>): string {
    if parts == [] then "" else if |parts| == 1 then parts[0] else parts[0] + "\n" + Join(parts[1..])
  }

  predicate Unframable(s: string) { '\r' in s || '\n' in s || '\0' in s }

  function SanitizeField(z: Sanitizer, value: Option<string>, pointer: string): Option<(Option<string>, seq<Observation>)> {
    if value.None? then Some((None, []))
    else
      var (safe, categories) := z.traced(value.value);
      if Unframable(safe) then None else Some((Some(safe), Noted(categories, pointer)))
  }

  function SanitizeData(z: Sanitizer, c: Codec, openAi: bool, data: seq<string>): Option<(seq<string>, seq<Observation>)> {
    if data == [] then Some(([], []))
    else
      var payload := Join(data);
      if openAi && payload == "[DONE]" then Some((["[DONE]"], []))
      else
        var decoded := c.decode(payload);
        if decoded.None? then None
        else
          var clean := SanitizedJson(z, decoded.value);
          if clean.None? then None else Some(([c.encode(clean.value.0)], clean.value.1))
  }

  /** The event that is sent on instead of `e`, unless `e` is refused. */
  function SanitizeEvent(z: Sanitizer, c: Codec, openAi: bool, e: Event): Option<(Event, seq<Observation>)> {
    var event, id := SanitizeField(z, e.event, "/sse/event"), SanitizeField(z, e.id, "/sse/id");
    var data := SanitizeData(z, c, openAi, e.data);
    if event.None? || id.None? || (e.retry.Some? && z.plain(e.retry.value) != e.retry.value) || data.None? then None
    else Some((Event(event.value.0, id.value.0, e.retry, data.value.0), event.value.1 + id.value.1 + data.value.1))
  }

  function FieldLine(name: string, value: Option<string>): seq<string> {
    if value.None? then [] else [name + ": " + value.value]
  }

  /** The lines an event is written as, before its blank line. */
  function Lines(e: Event): seq<string> {
    FieldLine("event", e.event) + FieldLine("id", e.id) + FieldLine("retry", e.retry)
    + FieldLine("data", if e.data == [] then None else Some(e.data[0]))
  }

  function Write(e: Event): string { Unlines(Lines(e) + [""]) }

  function WriteAll(es: seq<Event>): string {
    if es == [] then "" else Write(es[0]) + WriteAll(es[1..])
  }

  /** All events sanitized in order, unless one is refused. */
  function SanitizeAll(z: Sanitizer, c: Codec, openAi: bool, es: seq<Event>): Option<(seq<Event>, seq<Observation>)> {
    if es == [] then Some(([], []))
    else
      var first := SanitizeEvent(z, c, openAi, es[0]);
      if first.None? then None
      else
        var rest := SanitizeAll(z, c, openAi, es[1..]);
        if rest.None? then None else Some(([first.value.0] + rest.value.0, first.value.1 + rest.value.1))
  }

  // ---- The written stream reads back ------------------------------------------------------

  /** An event as `SanitizeEvent` produces them: at most one data line, nothing that breaks a line. */
  ghost predicate Printable(e: Event) {
    && e != EMPTY && |e.data| <= 1
    && (e.event.Some? ==> !Unframable(e.event.value))
    && (e.id.Some? ==> !Unframable(e.id.value))
    && (e.retry.Some? ==> e.retry.value != "" && forall c <- e.retry.value :: '0' <= c <= '9')
    && (forall d <- e.data :: '\n' !in d && '\r' !in d)
  }

  lemma PushField(name: string, value: string)
    requires name != "" && ':' !in name
    ensures SplitOnce(name + ": " + value, ':') == Some((name, " " + value))
    ensures (name + ": " + value)[0] != ':' && name + ": " + value != ""
    ensures (" " + value)[1..] == value
  {
    assert name + ": " + value == name + [':'] + (" " + value);
    SplitOnceAt(name, ':', " " + value);
    assert (name + ": " + value)[0] == name[0];
  }

  function Fold(e: Event, lines: seq<string>): Event
    decreases |lines|
  {
    if lines == [] then e else Fold(PushLine(e, lines[0]), lines[1..])
  }

  lemma {:induction false} FoldConcat(e: Event, a: seq<string>, b: seq<string>)
    ensures Fold(e, a + b) == Fold(Fold(e, a), b)
    decreases |a|
  {
    if a == [] {
      assert a + b == b;
    } else {
      assert (a + b)[1..] == a[1..] + b;
      FoldConcat(PushLine(e, a[0]), a[1..], b);
    }
  }

  lemma FoldField(e: Event, name: string, value: Option<string>)
    requires name in ["event", "id", "retry", "data"]
    requires name == "id" && value.Some? ==> '\0' !in value.value
    requires name == "retry" && value.Some? ==> value.value != "" && forall c <- value.value :: '0' <= c <= '9'
    ensures var after := Fold(e, FieldLine(name, value));
            && (value.None? ==> after == e)
            && (value.Some? ==>
                && (name == "event" ==> after == e.(event := value))
                && (name == "id" ==> after == e.(id := value))
                && (name == "retry" ==> after == e.(retry := value))
                && (name == "data" ==> after == e.(data := e.data + [value.value])))
  {
    if value.Some? {
      PushField(name, value.value);
      assert FieldLine(name, value)[1..] == [];
    }
  }

  /** Reading the lines of a printable event rebuilds it. */
  lemma FoldLines(e: Event)
    requires Printable(e)
    ensures Fold(EMPTY, Lines(e)) == e
  {
    var a, b, c := FieldLine("event", e.event), FieldLine("id", e.id), FieldLine("retry", e.retry);
    var data := if e.data == [] then None else Some(e.data[0]);
    FoldConcat(EMPTY, a + b + c, FieldLine("data", data));
    FoldConcat(EMPTY, a + b, c);
    FoldConcat(EMPTY, a, b);
    FoldField(EMPTY, "event", e.event);
    var e1 := EMPTY.(event := e.event);
    FoldField(e1, "id", e.id);
    var e2 := e1.(id := e.id);
    FoldField(e2, "retry", e.retry);
    FoldField(e2.(retry := e.retry), "data", data);
    assert e.data == if data.None? then [] else [data.value];
  }

  lemma {:induction false} EventsOfLines(lines: seq<string>, more: seq<string>, current: Event)
    requires "" !in lines
    ensures Events(lines + [""] + more, current) == Emit(Fold(current, lines)) + Events(more, EMPTY)
    decreases |lines|
  {
    var all := lines + [""] + more;
    if lines == [] {
      assert all[1..] == more;
    } else {
      assert all[1..] == lines[1..] + [""] + more;
      EventsOfLines(lines[1..], more, PushLine(current, lines[0]));
    }
  }

  lemma {:induction false} SplitUnlines(lines: seq<string>, rest: string)
    requires forall l <- lines :: '\n' !in l
    ensures SplitOn(Unlines(lines) + rest, '\n') == lines + SplitOn(rest, '\n')
  {
    if lines == [] {
      assert Unlines(lines) + rest == rest;
    } else {
      var others := Unlines(lines[1..]);
      SplitUnlines(lines[1..], rest);
      SplitOnFirst(lines[0], '\n', others + rest);
      ConcatAssociates(lines[0] + "\n", others, rest);
      ConcatAssociates([lines[0]], lines[1..], SplitOn(rest, '\n'));
      assert [lines[0]] + lines[1..] == lines;
    }
  }

  lemma LinesAreClean(e: Event)
    requires Printable(e)
    ensures forall l <- Lines(e) :: l != "" && '\n' !in l && '\r' !in l
    ensures Lines(e) != [] && Lines(e)[0][0] != BYTE_ORDER_MARK
  {
    assert forall d <- e.data :: '\n' !in d && '\r' !in d;
    assert e.retry.Some? ==> forall c <- e.retry.value :: '0' <= c <= '9';
  }

  lemma {:induction false} ReadBackLines(es: seq<Event>)
    requires forall e <- es :: Printable(e)
    ensures Events(SplitOn(WriteAll(es), '\n'), EMPTY) == es
  {
    if es != [] {
      var lines, rest := Lines(es[0]), WriteAll(es[1..]);
      assert Printable(es[0]);
      LinesAreClean(es[0]);
      SplitUnlines(lines + [""], rest);
      EventsOfLines(lines, SplitOn(rest, '\n'), EMPTY);
      FoldLines(es[0]);
      ReadBackLines(es[1..]);
    } else {
      assert SplitOn("", '\n') == [""];
    }
  }

  lemma {:induction false} UnlinesHaveNoCr(lines: seq<string>)
    requires forall l <- lines :: '\r' !in l
    ensures '\r' !in Unlines(lines)
  {
    if lines != [] { UnlinesHaveNoCr(lines[1..]); }
  }

  lemma {:induction false} WrittenHasNoCr(es: seq<Event>)
    requires forall e <- es :: Printable(e)
    ensures '\r' !in WriteAll(es)
    ensures es != [] ==> WriteAll(es) != "" && WriteAll(es)[0] != BYTE_ORDER_MARK
  {
    if es != [] {
      assert Printable(es[0]);
      LinesAreClean(es[0]);
      UnlinesHaveNoCr(Lines(es[0]) + [""]);
      WrittenHasNoCr(es[1..]);
    }
  }

  lemma {:induction false} NothingToNormalize(s: string)
    requires '\r' !in s
    ensures CollapseCrLf(s) == s && CrToLf(s) == s
  {
    if s != "" {
      NothingToNormalize(s[1..]);
      assert s == [s[0]] + s[1..];
    }
  }

  /** A written stream parses, by the rules it was read with, to exactly the events written. */
  lemma ParseWritten(es: seq<Event>)
    requires forall e <- es :: Printable(e)
    ensures Parse(WriteAll(es)) == es
  {
    WrittenHasNoCr(es);
    NothingToNormalize(WriteAll(es));
    ReadBackLines(es);
  }

  // ---- Re-framing is faithful -------------------------------------------------------------

  ghost predicate ValidRetry(e: Event) {
    e.retry.Some? ==> e.retry.value != "" && forall c <- e.retry.value :: '0' <= c <= '9'
  }

  lemma {:induction false} ReadEvents(lines: seq<string>, current: Event)
    requires ValidRetry(current)
    ensures forall e <- Events(lines, current) :: e != EMPTY && ValidRetry(e)
    decreases |lines|
  {
    if lines != [] {
      ReadEvents(lines[1..], if lines[0] == "" then EMPTY else PushLine(current, lines[0]));
    }
  }

  lemma SanitizedIsPrintable(z: Sanitizer, c: Codec, openAi: bool, e: Event)
    requires c.OneLine() && e != EMPTY && ValidRetry(e) && SanitizeEvent(z, c, openAi, e).Some?
    ensures Printable(SanitizeEvent(z, c, openAi, e).value.0)
  {
  }

  /** What each event becomes, place by place. */
  lemma {:induction false} SanitizeAllAt(z: Sanitizer, c: Codec, openAi: bool, es: seq<Event>, i: nat)
    requires SanitizeAll(z, c, openAi, es).Some? && i < |es|
    ensures var clean := SanitizeAll(z, c, openAi, es).value.0;
            |clean| == |es| && SanitizeEvent(z, c, openAi, es[i]).Some? && clean[i] == SanitizeEvent(z, c, openAi, es[i]).value.0
  {
    if |es| > 1 { SanitizeAllAt(z, c, openAi, es[1..], if i > 0 then i - 1 else 0); }
  }

  lemma CleanIsPrintable(z: Sanitizer, c: Codec, openAi: bool, text: string)
    requires c.OneLine() && SanitizeAll(z, c, openAi, Parse(text)).Some?
    ensures forall e <- SanitizeAll(z, c, openAi, Parse(text)).value.0 :: Printable(e)
    ensures |SanitizeAll(z, c, openAi, Parse(text)).value.0| == |Parse(text)|
  {
    var es, clean := Parse(text), SanitizeAll(z, c, openAi, Parse(text)).value.0;
    ReadEvents(SplitOn(Normalize(text), '\n'), EMPTY);
    if es != [] { SanitizeAllAt(z, c, openAi, es, 0); }
    forall i | 0 <= i < |clean| ensures Printable(clean[i]) {
      SanitizeAllAt(z, c, openAi, es, i);
      assert es[i] in es;
      SanitizedIsPrintable(z, c, openAi, es[i]);
    }
  }

  // ---- What is sent for what is read, told of the fields alone ----------------------------

  /** The lines are those of the joined text. */
  lemma {:induction false} JoinSplits(parts: seq<string>)
    requires parts != [] && forall p <- parts :: '\n' !in p
    ensures SplitOn(Join(parts), '\n') == parts
  {
    if |parts| == 1 {
      SplitOnNone(parts[0], '\n');
    } else {
      JoinSplits(parts[1..]);
      SplitOnFirst(parts[0], '\n', Join(parts[1..]));
    }
  }

  predicate OneLineText(s: string) { forall c <- s :: c != '\r' && c != '\n' && c != '\0' }

  predicate TextAccepted(z: Sanitizer, text: Option<string>) { text.Some? ==> OneLineText(z.traced(text.value).0) }

  predicate TextSent(z: Sanitizer, before: Option<string>, after: Option<string>) {
    match before
    case None => after == None
    case Some(text) => after == Some(z.traced(text).0)
  }

  predicate DataAccepted(z: Sanitizer, c: Codec, openAi: bool, data: seq<string>) {
    || data == [] || (openAi && Join(data) == "[DONE]")
    || (c.decode(Join(data)).Some? && Unchanged(z, FixedTexts(c.decode(Join(data)).value)))
  }

  /** No data stays none, the end marker stays, and a document is written on one line with its strings sanitized. */
  ghost predicate DataSent(z: Sanitizer, c: Codec, openAi: bool, before: seq<string>, after: seq<string>) {
    if before == [] then after == []
    else if openAi && Join(before) == "[DONE]" then after == ["[DONE]"]
    else c.decode(Join(before)).Some? && exists w :: after == [c.encode(w)] && Sanitizes(z, c.decode(Join(before)).value, w)
  }

  /** Nothing of an event makes the proxy refuse it. */
  predicate Accepted(z: Sanitizer, c: Codec, openAi: bool, e: Event) {
    && TextAccepted(z, e.event) && TextAccepted(z, e.id) && DataAccepted(z, c, openAi, e.data)
    && (e.retry.Some? ==> z.plain(e.retry.value) == e.retry.value)
  }

  ghost predicate Sent(z: Sanitizer, c: Codec, openAi: bool, e: Event, w: Event) {
    TextSent(z, e.event, w.event) && TextSent(z, e.id, w.id) && w.retry == e.retry && DataSent(z, c, openAi, e.data, w.data)
  }

  function TextObserved(z: Sanitizer, text: Option<string>, pointer: string): seq<Observation> {
    if text.None? then [] else Noted(z.traced(text.value).1, pointer)
  }

  /** The observations of an event: those of its name and its id, then those of each leaf of its document. */
  function EventObserved(z: Sanitizer, c: Codec, openAi: bool, e: Event): seq<Observation> {
    var document := if e.data == [] || (openAi && Join(e.data) == "[DONE]") then None else c.decode(Join(e.data));
    TextObserved(z, e.event, "/sse/event") + TextObserved(z, e.id, "/sse/id")
    + if document.None? then [] else Observed(z, Leaves(document.value, []))
  }

  function AllObserved(z: Sanitizer, c: Codec, openAi: bool, es: seq<Event>): seq<Observation> {
    if es == [] then [] else EventObserved(z, c, openAi, es[0]) + AllObserved(z, c, openAi, es[1..])
  }

  lemma DataIsSent(z: Sanitizer, c: Codec, openAi: bool, data: seq<string>)
    ensures var clean := SanitizeData(z, c, openAi, data);
            && (clean.Some? <==> DataAccepted(z, c, openAi, data)) && (clean.Some? ==> DataSent(z, c, openAi, data, clean.value.0))
  {
    var decoded := c.decode(Join(data));
    if decoded.Some? && SanitizedJson(z, decoded.value).Some? { SanitizedIsSanitizing(z, decoded.value); }
  }

  /** An event is refused exactly when a field of it is; otherwise each field is sent as it should be. */
  lemma EventIsSent(z: Sanitizer, c: Codec, openAi: bool, e: Event)
    ensures var clean := SanitizeEvent(z, c, openAi, e);
            && (clean.Some? <==> Accepted(z, c, openAi, e))
            && (clean.Some? ==> Sent(z, c, openAi, e, clean.value.0) && clean.value.1 == EventObserved(z, c, openAi, e))
  {
    DataIsSent(z, c, openAi, e.data);
  }

  /** Place by place what is sent for a sequence of events. */
  ghost predicate AllSent(z: Sanitizer, c: Codec, openAi: bool, es: seq<Event>, sent: seq<Event>) {
    |sent| == |es| && forall i :: 0 <= i < |es| ==> Sent(z, c, openAi, es[i], sent[i])
  }

  lemma {:induction false} AllAreSent(z: Sanitizer, c: Codec, openAi: bool, es: seq<Event>)
    ensures var clean := SanitizeAll(z, c, openAi, es);
            && (clean.Some? <==> forall e <- es :: Accepted(z, c, openAi, e))
            && (clean.Some? ==> AllSent(z, c, openAi, es, clean.value.0) && clean.value.1 == AllObserved(z, c, openAi, es))
  {
    if es != [] {
      EventIsSent(z, c, openAi, es[0]);
      AllAreSent(z, c, openAi, es[1..]);
      assert es == [es[0]] + es[1..];
    }
  }

  /**
   * Parsing the sanitized stream with the same rules gives, in order, the input's events with
   * their fields sanitized: nothing is added, lost, merged or split by the re-framing.
   */
  lemma ReframingIsFaithful(z: Sanitizer, c: Codec, openAi: bool, text: string)
    requires c.OneLine() && forall e <- Parse(text) :: Accepted(z, c, openAi, e)
    ensures SanitizeAll(z, c, openAi, Parse(text)).Some?
    ensures AllSent(z, c, openAi, Parse(text), Parse(WriteAll(SanitizeAll(z, c, openAi, Parse(text)).value.0)))
  {
    AllAreSent(z, c, openAi, Parse(text));
    CleanIsPrintable(z, c, openAi, text);
    ParseWritten(SanitizeAll(z, c, openAi, Parse(text)).value.0);
  }

  // ---- The implementation -----------------------------------------------------------------

  class SseEvent {
    var event: Option<string>
    var id: Option<string>
    var retry: Option<string>
    var data: seq<string>

    function Value(): Event
      reads this
    {
      Event(event, id, retry, data)
    }

    constructor ()
      ensures Value() == EMPTY
    {
      event, id, retry, data := None, None, None, [];
    }

    method Push(line: string)
      modifies this
      ensures Value() == PushLine(old(Value()), line)
    {
      if line != "" && line[0] == ':' { return; }
      var parts := SplitOnce(line, ':');
      var field, value := if parts.Some? then parts.value.0 else line, if parts.Some? then parts.value.1 else "";
      if value != "" && value[0] == ' ' { value := value[1..]; }
      if field == "event" { event := Some(value); }
      else if field == "data" { data := data + [value]; }
      else if field == "id" && '\0' !in value { id := Some(value); }
      else if field == "retry" && value != "" && (forall c <- value :: '0' <= c <= '9') { retry := Some(value); }
    }

    /** Appends the sanitized event to the output and takes its fields; an empty event adds nothing. */
    method WriteSanitized(z: Sanitizer, c: Codec, openAi: bool, output: string, observations: seq<Observation>)
      returns (r: Option<(string, seq<Observation>)>)
      modifies this
      ensures r.Some? ==> Value() == EMPTY
      ensures old(Value()) == EMPTY ==> r == Some((output, observations))
      ensures old(Value()) != EMPTY ==> r == Appended(output, observations, SanitizeEvent(z, c, openAi, old(Value())))
      ensures old(Value()) != EMPTY ==> (r.Some? <==> Accepted(z, c, openAi, old(Value())))
      ensures old(Value()) != EMPTY && r.Some? ==> exists w ::
        Sent(z, c, openAi, old(Value()), w) && r.value == (output + Write(w), observations + EventObserved(z, c, openAi, old(Value())))
    {
      if event.None? && id.None? && retry.None? && data == [] { return Some((output, observations)); }
      ghost var e := Value();
      EventIsSent(z, c, openAi, e);
      var first := WriteTextField(z, output, "event", event, "/sse/event", observations);
      event := None;
      if first.None? { return None; }
      var second := WriteTextField(z, first.value.0, "id", id, "/sse/id", first.value.1);
      id := None;
      if second.None? { return None; }
      if retry.Some? && z.plain(retry.value) != retry.value { return None; }
      var text := second.value.0 + FieldText("retry", retry);
      retry := None;
      var payload := CleanData(z, c, openAi, data);
      data := [];
      if payload.None? { return None; }
      AppendedParts(z, c, openAi, output, observations, e);
      text := text + FieldText("data", Head(payload.value.0)) + "\n";
      r := Some((text, second.value.1 + payload.value.1));
    }

    /** The payload line of the data fields: the end marker as it is, anything else sanitized as JSON. */
    static method CleanData(z: Sanitizer, c: Codec, openAi: bool, data: seq<string>) returns (r: Option<(seq<string>, seq<Observation>)>)
      ensures r == SanitizeData(z, c, openAi, data)
    {
      if data == [] { return Some(([], [])); }
      var payload := Join(data);
      if openAi && payload == "[DONE]" { return Some((["[DONE]"], [])); }
      var decoded := c.decode(payload);
      if decoded.None? { return None; }
      var clean := SanitizeJson(z, decoded.value);
      if clean.None? { return None; }
      return Some(([c.encode(clean.value.0)], clean.value.1));
    }
  }

  function Appended(output: string, observations: seq<Observation>, clean: Option<(Event, seq<Observation>)>): Option<(string, seq<Observation>)> {
    if clean.None? then None else Some((output + Write(clean.value.0), observations + clean.value.1))
  }

  function FieldText(name: string, value: Option<string>): string {
    if value.None? then "" else name + ": " + value.value + "\n"
  }

  function Head(data: seq<string>): Option<string> { if data == [] then None else Some(data[0]) }

  /** `write_sse_text_field`, for a field that may be absent. */
  method WriteTextField(z: Sanitizer, output: string, name: string, value: Option<string>, pointer: string, observations: seq<Observation>)
    returns (r: Option<(string, seq<Observation>)>)
    ensures var clean := SanitizeField(z, value, pointer);
            r == if clean.None? then None else Some((output + FieldText(name, clean.value.0), observations + clean.value.1))
  {
    if value.None? {
      assert output + "" == output && observations + [] == observations;
      return Some((output, observations));
    }
    var (safe, categories) := z.traced(value.value);
    if Unframable(safe) { return None; }
    return Some((output + (name + ": " + safe + "\n"), observations + Noted(categories, pointer)));
  }

  lemma AppendAll<T>(s: seq<T>, a: seq<T>, b: seq<T>, c: seq<T>)
    ensures s + a + b + c == s + (a + b + c)
  {
  }

  lemma {:induction false} UnlinesConcat(a: seq<string>, b: seq<string>)
    ensures Unlines(a + b) == Unlines(a) + Unlines(b)
  {
    if a == [] {
      assert a + b == b;
    } else {
      assert (a + b)[1..] == a[1..] + b;
      UnlinesConcat(a[1..], b);
      ConcatAssociates(a[0] + "\n", Unlines(a[1..]), Unlines(b));
    }
  }

  lemma UnlinesField(name: string, value: Option<string>)
    ensures Unlines(FieldLine(name, value)) == FieldText(name, value)
  {
    if value.Some? {
      assert FieldLine(name, value)[1..] == [];
    }
  }

  /** Writing an event field by field, then the blank line. */
  lemma WrittenParts(output: string, e: Event)
    ensures output + Write(e)
            == output + FieldText("event", e.event) + FieldText("id", e.id) + FieldText("retry", e.retry)
               + FieldText("data", Head(e.data)) + "\n"
  {
    var a, b, c, d := FieldLine("event", e.event), FieldLine("id", e.id), FieldLine("retry", e.retry), FieldLine("data", Head(e.data));
    UnlinesConcat(a + b + c + d, [""]);
    UnlinesConcat(a + b + c, d);
    UnlinesConcat(a + b, c);
    UnlinesConcat(a, b);
    UnlinesField("event", e.event);
    UnlinesField("id", e.id);
    UnlinesField("retry", e.retry);
    UnlinesField("data", Head(e.data));
    assert Unlines([""]) == "\n" by { var one: seq<string> := [""]; assert one[1..] == []; }
    assert Lines(e) == a + b + c + d;
    AppendAll(output, Unlines(a), Unlines(b), Unlines(c));
    ConcatAssociates(output, Unlines(a) + Unlines(b) + Unlines(c), Unlines(d));
    ConcatAssociates(output, Unlines(a) + Unlines(b) + Unlines(c) + Unlines(d), "\n");
  }

  lemma AppendedParts(z: Sanitizer, c: Codec, openAi: bool, output: string, observations: seq<Observation>, e: Event)
    requires SanitizeEvent(z, c, openAi, e).Some?
    ensures var a, b := SanitizeField(z, e.event, "/sse/event").value, SanitizeField(z, e.id, "/sse/id").value;
            var d := SanitizeData(z, c, openAi, e.data).value;
            Appended(output, observations, SanitizeEvent(z, c, openAi, e))
            == Some((output + FieldText("event", a.0) + FieldText("id", b.0) + FieldText("retry", e.retry) + FieldText("data", Head(d.0)) + "\n",
                     observations + a.1 + b.1 + d.1))
  {
    WrittenParts(output, SanitizeEvent(z, c, openAi, e).value.0);
    AppendAll(observations, SanitizeField(z, e.event, "/sse/event").value.1, SanitizeField(z, e.id, "/sse/id").value.1,
              SanitizeData(z, c, openAi, e.data).value.1);
  }

  /** The rest of the stream continued from what is written so far. */
  ghost function Continued(output: string, observations: seq<Observation>, rest: Option<(seq<Event>, seq<Observation>)>): Option<(string, seq<Observation>)> {
    if rest.None? then None else Some((output + WriteAll(rest.value.0), observations + rest.value.1))
  }

  lemma ContinueWith(z: Sanitizer, c: Codec, openAi: bool, output: string, observations: seq<Observation>, e: Event, rest: seq<Event>)
    ensures var next := if e == EMPTY then Some((output, observations)) else Appended(output, observations, SanitizeEvent(z, c, openAi, e));
            Continued(output, observations, SanitizeAll(z, c, openAi, Emit(e) + rest))
            == if next.None? then None else Continued(next.value.0, next.value.1, SanitizeAll(z, c, openAi, rest))
  {
    if e == EMPTY {
      assert Emit(e) + rest == rest;
    } else {
      var all := Emit(e) + rest;
      assert all[0] == e && all[1..] == rest;
      var clean, tail := SanitizeEvent(z, c, openAi, e), SanitizeAll(z, c, openAi, rest);
      if clean.Some? && tail.Some? {
        var es := [clean.value.0] + tail.value.0;
        assert es[0] == clean.value.0 && es[1..] == tail.value.0;
        ConcatAssociates(output, Write(clean.value.0), WriteAll(tail.value.0));
        ConcatAssociates(observations, clean.value.1, tail.value.1);
      }
    }
  }

  /** A stream is refused exactly when one of its events is; otherwise every event is sent in its place. */
  ghost predicate StreamSent(z: Sanitizer, c: Codec, openAi: bool, es: seq<Event>, r: Option<(string, seq<Observation>)>) {
    && (r.Some? <==> forall e <- es :: Accepted(z, c, openAi, e))
    && (r.Some? ==> exists sent :: AllSent(z, c, openAi, es, sent) && r.value == (WriteAll(sent), AllObserved(z, c, openAi, es)))
  }

  lemma StreamIsSent(z: Sanitizer, c: Codec, openAi: bool, es: seq<Event>)
    ensures StreamSent(z, c, openAi, es, Continued("", [], SanitizeAll(z, c, openAi, es)))
  {
    AllAreSent(z, c, openAi, es);
    var clean := SanitizeAll(z, c, openAi, es);
    if clean.Some? { assert "" + WriteAll(clean.value.0) == WriteAll(clean.value.0) && [] + clean.value.1 == clean.value.1; }
  }

  /** The sanitized stream and its observations, or a refusal when any event is refused. */
  method SanitizeSse(z: Sanitizer, c: Codec, openAi: bool, text: string) returns (r: Option<(string, seq<Observation>)>)
    ensures r == Continued("", [], SanitizeAll(z, c, openAi, Parse(text)))
    ensures StreamSent(z, c, openAi, Parse(text), r)
  {
    StreamIsSent(z, c, openAi, Parse(text));
    var lines := SplitOn(Normalize(text), '\n');
    var output: string, observations: seq<Observation> := "", [];
    var event := new SseEvent();
    assert lines[0..] == lines;
    for i := 0 to |lines|
      invariant Continued("", [], SanitizeAll(z, c, openAi, Parse(text)))
                == Continued(output, observations, SanitizeAll(z, c, openAi, Events(lines[i..], event.Value())))
    {
      assert lines[i..][1..] == lines[i + 1..];
      if lines[i] == "" {
        ContinueWith(z, c, openAi, output, observations, event.Value(), Events(lines[i + 1..], EMPTY));
        var written := event.WriteSanitized(z, c, openAi, output, observations);
        if written.None? { return None; }
        output, observations := written.value.0, written.value.1;
      } else {
        event.Push(lines[i]);
      }
    }
    assert lines[|lines|..] == [];
    ContinueWith(z, c, openAi, output, observations, event.Value(), []);
    assert Emit(event.Value()) + [] == Emit(event.Value());
    r := event.WriteSanitized(z, c, openAi, output, observations);
    if r.Some? {
      assert r.value.0 + "" == r.value.0 && r.value.1 + [] == r.value.1;
    }
  }
}
