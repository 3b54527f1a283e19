/** `mask_findings`: findings become vault references, and references become the findings again. */
module Masking {
  import opened Seqs
  import opened SafeRefs
  import opened Vaults
  import opened Findings
  import opened Splicing
  import opened Tokens

  function MaskKind(kind: SecretKind): Kind {
    match kind
    case EmailAddress => PersonallyIdentifiableInformation
    case PhoneNumber => PersonallyIdentifiableInformation
    case PemPrivateKey => Kind.PrivateKey
    case _ => Kind.Secret
  }

  /** Contact data is personal, a PEM block is a private key, and whatever else is found is a secret. */
  predicate Stands(found: SecretKind, kind: Kind) {
    && (kind == PersonallyIdentifiableInformation <==> found == EmailAddress || found == PhoneNumber)
    && (kind == Kind.PrivateKey <==> found == PemPrivateKey)
    && kind in {PersonallyIdentifiableInformation, Kind.PrivateKey, Kind.Secret}
  }

  /** A stored pair and the reference it got. */
  datatype Entry = Entry(kind: Kind, raw: string, safeRef: SafeRef)

  /** The reference is well formed and resolves to the raw text at `horizon`. */
  ghost predicate Kept(records: Records, entry: Entry, scope: Scope, horizon: nat) {
    && entry.safeRef.kind == entry.kind
    && Parse(entry.safeRef.encoded) == Ok(entry.safeRef)
    && Resolved(records, entry.safeRef, scope, horizon) == Good(entry.raw)
  }

  /** Storing under an identifier unused by live records disturbs no live entry and reuses no reference. */
  lemma KeptAfterStore(records: Records, entry: Entry, scope: Scope, horizon: nat, now: nat, id: string, record: Record, kind: Kind)
    requires Kept(records, entry, scope, horizon) && now <= horizon
    requires ValidId(id) && id !in Live(records, now)
    ensures Kept(Live(records, now)[id := record], entry, scope, horizon)
    ensures entry.safeRef != SafeRef(kind, Print(kind, id))
  {
    ReferenceIdOfPrinted(kind, id);
    var used := ReferenceId(entry.safeRef.encoded).value;
    assert used in Live(records, now);
  }

  lemma StoredIsKept(records: Records, kind: Kind, id: string, scope: Scope, horizon: nat, now: nat, expiresAt: nat, raw: string)
    requires ValidId(id) && horizon < expiresAt
    ensures Kept(records[id := Record(KindCode(kind), scope, now, expiresAt, raw)],
                 Entry(kind, raw, SafeRef(kind, Print(kind, id))), scope, horizon)
  {
    ReferenceIdOfPrinted(kind, id);
    ParsePrint(kind, id);
  }

  /** One entry per distinct pair, each with a reference of its own. */
  ghost predicate OnePerPair(entries: seq<Entry>) {
    forall i, j :: 0 <= i < j < |entries| ==>
      (entries[i].kind, entries[i].raw) != (entries[j].kind, entries[j].raw) && entries[i].safeRef != entries[j].safeRef
  }

  ghost predicate AllKept(records: Records, entries: seq<Entry>, scope: Scope, horizon: nat) {
    forall e <- entries :: Kept(records, e, scope, horizon)
  }

  function Encodings(entries: seq<Entry>): (texts: seq<string>)
    ensures |texts| == |entries|
  {
    if entries == [] then [] else [entries[0].safeRef.encoded] + Encodings(entries[1..])
  }

  function RawTexts(entries: seq<Entry>): (texts: seq<string>)
    ensures |texts| == |entries|
  {
    if entries == [] then [] else [entries[0].raw] + RawTexts(entries[1..])
  }

  /** Entries all resolve at `horizon` and are pairwise distinct. */
  ghost predicate Consistent(records: Records, entries: seq<Entry>, scope: Scope, horizon: nat) {
    AllKept(records, entries, scope, horizon) && OnePerPair(entries)
  }

  lemma ConsistentAfterStore(records: Records, entries: seq<Entry>, scope: Scope, horizon: nat, now: nat, ttl: nat,
                             id: string, kind: Kind, raw: string)
    requires Consistent(records, entries, scope, horizon) && now <= horizon < now + ttl
    requires ValidId(id) && id !in Live(records, now)
    requires forall e <- entries :: !(e.kind == kind && e.raw == raw)
    ensures Consistent(Live(records, now)[id := Record(KindCode(kind), scope, now, now + ttl, raw)],
                       entries + [Entry(kind, raw, SafeRef(kind, Print(kind, id)))], scope, horizon)
  {
    var record, added := Record(KindCode(kind), scope, now, now + ttl, raw), Entry(kind, raw, SafeRef(kind, Print(kind, id)));
    var after := Live(records, now)[id := record];
    StoredIsKept(Live(records, now), kind, id, scope, horizon, now, now + ttl, raw);
    forall e <- entries ensures Kept(after, e, scope, horizon) && e.safeRef != added.safeRef {
      KeptAfterStore(records, e, scope, horizon, now, id, record, kind);
    }
  }

  /** The vault does not store: no text, no or too long a lifetime, or every drawn identifier is in use. */
  ghost predicate Refuses(records: Records, raw: string, ttl: nat, now: nat, draws: seq<Bytes>) {
    raw == "" || ttl == 0 || now + ttl > U64_MAX || AllUsed(draws, Live(records, now))
  }

  /** The reference of `kind` and `raw`: the one already stored, or a new one. */
  method Reference(vault: Vault, entries: seq<Entry>, kind: Kind, raw: string, scope: Scope, ttl: nat, now: nat,
                   draws: seq<Bytes>, ghost horizon: nat)
    returns (entry: Option<Entry>, all: seq<Entry>)
    requires forall draw <- draws :: |draw| == 16
    modifies vault
    ensures now <= horizon < now + ttl && Consistent(old(vault.records), entries, scope, horizon)
            ==> Consistent(vault.records, all, scope, horizon)
    ensures entry.Some? ==> entry.value in all && entry.value.kind == kind && entry.value.raw == raw
    ensures all == if entry.None? || entry.value in entries then entries else entries + [entry.value]
    ensures entry.None? <==> (forall e <- entries :: !(e.kind == kind && e.raw == raw)) && Refuses(old(vault.records), raw, ttl, now, draws)
    ensures entry.None? ==> vault.records == old(vault.records)
  {
    for i := 0 to |entries|
      invariant vault.records == old(vault.records)
      invariant forall j :: 0 <= j < i ==> !(entries[j].kind == kind && entries[j].raw == raw)
    {
      if entries[i].kind == kind && entries[i].raw == raw { return Some(entries[i]), entries; }
    }
    var stored; ghost var id;
    stored, id := vault.Store(kind, scope, raw, ttl, now, draws);
    if stored.Bad? { return None, entries; }
    var added := Entry(kind, raw, stored.value);
    if now <= horizon < now + ttl && Consistent(old(vault.records), entries, scope, horizon) {
      ConsistentAfterStore(old(vault.records), entries, scope, horizon, now, ttl, id, kind, raw);
    }
    entry, all := Some(added), entries + [added];
  }

  datatype Masked = Masked(output: string, stored: seq<SafeRef>) | Failed

  /** Every time at which some reference is stored comes before `horizon`, and none has expired by then. */
  ghost predicate Timely(times: seq<nat>, ttl: nat, horizon: nat) {
    forall t <- times :: t <= horizon < t + ttl
  }

  function Refs(entries: seq<Entry>): (refs: seq<SafeRef>)
    ensures |refs| == |entries| && forall i :: 0 <= i < |entries| ==> refs[i] == entries[i].safeRef
  {
    if entries == [] then [] else [entries[0].safeRef] + Refs(entries[1..])
  }

  /** The used entries name the findings' kinds and the text they cover. */
  ghost predicate Covers(input: string, cursor: nat, findings: seq<Shape>, used: seq<Entry>) {
    && |used| == |findings|
    && Spliceable(input, cursor, Spans(findings))
    && RawTexts(used) == Raws(input, cursor, Spans(findings))
    && forall i :: 0 <= i < |used| ==> used[i].kind == MaskKind(findings[i].kind)
  }

  /** `output` is the masked text up to `cursor`, whatever replaces the findings still to come. */
  ghost predicate Progress(input: string, findings: seq<Shape>, i: nat, cursor: nat, output: string, used: seq<Entry>)
    requires i <= |findings|
  {
    var spans, rest := Spans(findings), Spans(findings[i..]);
    && |used| == i
    && (forall k :: 0 <= k < i ==> used[k].kind == MaskKind(findings[k].kind))
    && Spliceable(input, 0, spans) == Spliceable(input, cursor, rest)
    && (Spliceable(input, 0, spans) ==>
        && Raws(input, 0, spans) == RawTexts(used) + Raws(input, cursor, rest)
        && FillsOn(Gaps(input, 0, spans), Encodings(used), output, Gaps(input, cursor, rest), |findings| - i))
  }

  /** Whatever the last `n` fills are: with the first ones in place, the text is `output` and the last gaps filled. */
  ghost predicate FillsOn(all: seq<string>, before: seq<string>, output: string, gaps: seq<string>, n: nat)
    requires |all| == |before| + n + 1 && |gaps| == n + 1
  {
    forall fills: seq<string> | |fills| == n :: Interleave(all, before + fills) == output + Interleave(gaps, fills)
  }

  lemma ProgressStart(input: string, findings: seq<Shape>)
    ensures Progress(input, findings, 0, 0, "", [])
  {
    var spans := Spans(findings);
    assert findings[0..] == findings;
    if Spliceable(input, 0, spans) {
      assert RawTexts([]) + Raws(input, 0, spans) == Raws(input, 0, spans);
      forall fills: seq<string> | |fills| == |findings|
        ensures Interleave(Gaps(input, 0, spans), Encodings([]) + fills) == "" + Interleave(Gaps(input, 0, spans), fills)
      {
        assert Encodings([]) + fills == fills;
      }
    }
  }

  lemma {:induction false} TextsAppend(entries: seq<Entry>, entry: Entry)
    ensures Encodings(entries + [entry]) == Encodings(entries) + [entry.safeRef.encoded]
    ensures RawTexts(entries + [entry]) == RawTexts(entries) + [entry.raw]
  {
    if entries != [] {
      assert (entries + [entry])[1..] == entries[1..] + [entry];
      TextsAppend(entries[1..], entry);
    }
  }

  lemma ProgressStep(input: string, findings: seq<Shape>, i: nat, cursor: nat, output: string, used: seq<Entry>, entry: Entry)
    requires i < |findings| && Progress(input, findings, i, cursor, output, used)
    requires var span := findings[i].span;
             cursor <= span.start && Boundary(input, cursor) && Boundary(input, span.start) && Boundary(input, span.end)
             && entry.raw == input[span.start..span.end] && entry.kind == MaskKind(findings[i].kind)
    ensures Progress(input, findings, i + 1, findings[i].span.end,
                     output + input[cursor..findings[i].span.start] + entry.safeRef.encoded, used + [entry])
  {
    var span, spans, rest := findings[i].span, Spans(findings), Spans(findings[i..]);
    assert findings[i..][1..] == findings[i + 1..];
    assert rest[0] == span && rest[1..] == Spans(findings[i + 1..]);
    TextsAppend(used, entry);
    if Spliceable(input, 0, spans) {
      var text, gap := entry.safeRef.encoded, input[cursor..span.start];
      var gaps := Gaps(input, span.end, rest[1..]);
      assert Gaps(input, cursor, rest) == [gap] + gaps;
      ConcatAssociates(RawTexts(used), [entry.raw], Raws(input, span.end, rest[1..]));
      FillsOnStep(Gaps(input, 0, spans), Encodings(used), output, gap, gaps, text, |findings| - i - 1);
    }
  }

  lemma FillsOnStep(all: seq<string>, before: seq<string>, output: string, gap: string, gaps: seq<string>, text: string, n: nat)
    requires |all| == |before| + n + 2 && |gaps| == n + 1 && FillsOn(all, before, output, [gap] + gaps, n + 1)
    ensures FillsOn(all, before + [text], output + gap + text, gaps, n)
  {
    forall fills: seq<string> | |fills| == n
      ensures Interleave(all, before + [text] + fills) == output + gap + text + Interleave(gaps, fills)
    {
      assert |[text] + fills| == n + 1;
      FillsStep(all, before, output, gap, gaps, text, fills);
    }
  }

  lemma FillsStep(all: seq<string>, before: seq<string>, output: string, gap: string, gaps: seq<string>, text: string, fills: seq<string>)
    requires |all| == |before| + |fills| + 2 && |gaps| == |fills| + 1
    requires Interleave(all, before + ([text] + fills)) == output + Interleave([gap] + gaps, [text] + fills)
    ensures Interleave(all, before + [text] + fills) == output + gap + text + Interleave(gaps, fills)
  {
    ConcatAssociates(before, [text], fills);
    InterleaveFirst(gap, gaps, text, fills, output);
  }

  lemma InterleaveFirst(gap: string, gaps: seq<string>, fill: string, fills: seq<string>, output: string)
    requires |gaps| == |fills| + 1
    ensures output + Interleave([gap] + gaps, [fill] + fills) == output + gap + fill + Interleave(gaps, fills)
  {
    assert ([gap] + gaps)[1..] == gaps && ([fill] + fills)[1..] == fills;
    ConcatAssociates(output, gap, fill);
    ConcatAssociates(output, gap + fill, Interleave(gaps, fills));
  }

  lemma ProgressEnd(input: string, findings: seq<Shape>, cursor: nat, output: string, used: seq<Entry>)
    requires Progress(input, findings, |findings|, cursor, output, used) && Boundary(input, cursor)
    ensures Covers(input, 0, findings, used)
    ensures output + input[cursor..] == Interleave(Gaps(input, 0, Spans(findings)), Encodings(used))
  {
    var spans, none: seq<string> := Spans(findings), [];
    assert findings[|findings|..] == [];
    assert RawTexts(used) + [] == RawTexts(used);
    assert Encodings(used) + none == Encodings(used);
    assert Interleave(Gaps(input, 0, spans), Encodings(used) + none) == output + Interleave(Gaps(input, cursor, []), none);
  }

  lemma SameEntries(entries: seq<Entry>, all: seq<Entry>, used: seq<Entry>, entry: Entry)
    requires SetOf(entries) == SetOf(used) && entry in all
    requires all == entries || all == entries + [entry]
    ensures SetOf(all) == SetOf(used + [entry])
  {
    SetOfAppend(used, entry);
    SetOfAppend(entries, entry);
    assert entry in SetOf(all);
  }

  /** The vault refuses to store the text of finding `i`. */
  ghost predicate RefusedAt(records: Records, input: string, findings: seq<Shape>, i: nat, ttl: nat, now: nat, draws: seq<Bytes>) {
    && i < |findings| && Get(input, findings[i].span.start, findings[i].span.end).Some?
    && Refuses(records, Get(input, findings[i].span.start, findings[i].span.end).value, ttl, now, draws)
  }

  ghost predicate RefusedSomewhere(records: Records, input: string, findings: seq<Shape>, ttl: nat, times: seq<nat>, draws: seq<seq<Bytes>>)
    requires |times| == |draws| == |findings|
  {
    exists i :: 0 <= i < |findings| && RefusedAt(records, input, findings, i, ttl, times[i], draws[i])
  }

  /** One turn of the masking loop: the entry that replaces finding `i`, if its span and the store allow it. */
  method MaskOne(input: string, findings: seq<Shape>, i: nat, cursor: nat, output: string, ghost used: seq<Entry>,
                 entries: seq<Entry>, vault: Vault, scope: Scope, ttl: nat, now: nat, draws: seq<Bytes>, ghost horizon: nat)
    returns (entry: Option<Entry>, all: seq<Entry>, longer: string)
    requires i < |findings| && Progress(input, findings, i, cursor, output, used)
    requires SetOf(entries) == SetOf(used)
    requires forall draw <- draws :: |draw| == 16
    modifies vault
    ensures entry.Some? ==> Progress(input, findings, i + 1, findings[i].span.end, longer, used + [entry.value])
    ensures entry.Some? ==> SetOf(all) == SetOf(used + [entry.value])
    ensures now <= horizon < now + ttl && Consistent(old(vault.records), entries, scope, horizon)
            ==> Consistent(vault.records, all, scope, horizon)
    ensures entry.None? && Spliceable(input, 0, Spans(findings)) ==> RefusedAt(vault.records, input, findings, i, ttl, now, draws)
  {
    var span := findings[i].span;
    assert findings[i..][0] == findings[i] && Spans(findings[i..])[0] == span;
    var prefix, raw := Get(input, cursor, span.start), Get(input, span.start, span.end);
    if prefix.None? || raw.None? { return None, entries, output; }
    entry, all := Reference(vault, entries, MaskKind(findings[i].kind), raw.value, scope, ttl, now, draws, horizon);
    longer := output;
    if entry.Some? {
      ProgressStep(input, findings, i, cursor, output, used, entry.value);
      SameEntries(entries, all, used, entry.value);
      longer := output + prefix.value + entry.value.safeRef.encoded;
    }
  }

  /** The masking loop. */
  method MaskEach(input: string, findings: seq<Shape>, vault: Vault, scope: Scope, ttl: nat, times: seq<nat>,
                  draws: seq<seq<Bytes>>, ghost horizon: nat)
    returns (ok: bool, output: string, cursor: nat, entries: seq<Entry>, ghost used: seq<Entry>)
    requires |times| == |draws| == |findings|
    requires forall k, d :: 0 <= k < |draws| && d in draws[k] ==> |d| == 16
    modifies vault
    ensures ok ==> Progress(input, findings, |findings|, cursor, output, used) && SetOf(entries) == SetOf(used)
    ensures Timely(times, ttl, horizon) ==> Consistent(vault.records, entries, scope, horizon)
    ensures !ok && Spliceable(input, 0, Spans(findings)) ==> RefusedSomewhere(vault.records, input, findings, ttl, times, draws)
  {
    ok, output, cursor, entries, used := true, "", 0, [], [];
    ProgressStart(input, findings);
    var i := 0;
    while ok && i < |findings|
      invariant i <= |findings|
      invariant ok ==> Progress(input, findings, i, cursor, output, used) && SetOf(entries) == SetOf(used)
      invariant Timely(times, ttl, horizon) ==> Consistent(vault.records, entries, scope, horizon)
      invariant !ok && Spliceable(input, 0, Spans(findings)) ==> RefusedSomewhere(vault.records, input, findings, ttl, times, draws)
      decreases |findings| - i, ok
    {
      assert times[i] in times;
      var entry;
      entry, entries, output := MaskOne(input, findings, i, cursor, output, used, entries, vault, scope, ttl, times[i], draws[i], horizon);
      if entry.None? {
        ok := false;
      } else {
        cursor := findings[i].span.end;
        used := used + [entry.value];
        i := i + 1;
      }
    }
  }

  /**
   * Replaces each finding by a reference: the same one for equal kind and text, and a different
   * one otherwise. Up to `horizon` every reference resolves to the text it replaced.
   */
  method MaskFindings(input: string, findings: seq<Shape>, vault: Vault, scope: Scope, ttl: nat, times: seq<nat>,
                      draws: seq<seq<Bytes>>, ghost horizon: nat)
    returns (masked: Masked, ghost used: seq<Entry>, ghost table: seq<Entry>)
    requires |times| == |draws| == |findings|
    requires forall k, d :: 0 <= k < |draws| && d in draws[k] ==> |d| == 16
    modifies vault
    ensures !Spliceable(input, 0, Spans(findings)) ==> masked == Failed
    ensures masked == Failed ==> !Spliceable(input, 0, Spans(findings)) || RefusedSomewhere(vault.records, input, findings, ttl, times, draws)
    ensures masked.Masked? ==>
        && Covers(input, 0, findings, used) && (forall i :: 0 <= i < |used| ==> Stands(findings[i].kind, used[i].kind))
        && masked.output == Interleave(Gaps(input, 0, Spans(findings)), Encodings(used))
        && masked.stored == Refs(table) && SetOf(table) == SetOf(used)
    ensures Timely(times, ttl, horizon) ==> Consistent(vault.records, table, scope, horizon)
    ensures masked.Masked? && Timely(times, ttl, horizon) && PlainGaps(input, findings)
            ==> Substitute(RecognizeRef, RestoreFrom(vault.records, scope, horizon), masked.output) == input
  {
    var ok, output, cursor, entries;
    ok, output, cursor, entries, used := MaskEach(input, findings, vault, scope, ttl, times, draws, horizon);
    table := entries;
    if !ok { return Failed, used, table; }
    var suffix := Get(input, cursor, |input|);
    if suffix.None? { return Failed, used, table; }
    ProgressEnd(input, findings, cursor, output, used);
    assert input[cursor..|input|] == input[cursor..];
    masked := Masked(output + suffix.value, Refs(entries));
    if Timely(times, ttl, horizon) && PlainGaps(input, findings) {
      MaskRoundTrip(input, findings, table, used, vault.records, scope, horizon, RestoreFrom(vault.records, scope, horizon));
    }
  }

  /** No text outside the findings contains the start of a reference. */
  ghost predicate PlainGaps(input: string, findings: seq<Shape>) {
    Spliceable(input, 0, Spans(findings)) && forall gap <- Gaps(input, 0, Spans(findings)) :: !Occurs(gap, PREFIX)
  }

  function RestoreFrom(records: Records, scope: Scope, now: nat): string -> string {
    (token: string) => Restored(records, scope, now, token)
  }

  // ---- Round trip -------------------------------------------------------------------------

  /** Two findings share a reference exactly when their kind and text agree. */
  lemma SharedExactlyWhenEqual(records: Records, table: seq<Entry>, used: seq<Entry>, scope: Scope, horizon: nat, i: nat, j: nat)
    requires Consistent(records, table, scope, horizon) && SetOf(table) == SetOf(used)
    requires i < |used| && j < |used|
    ensures used[i].safeRef == used[j].safeRef <==> used[i].kind == used[j].kind && used[i].raw == used[j].raw
  {
    assert used[i] in SetOf(table) && used[j] in SetOf(table);
    var m :| 0 <= m < |table| && table[m] == used[i];
    var n :| 0 <= n < |table| && table[n] == used[j];
    assert m != n ==> table[m].safeRef != table[n].safeRef;
  }

  /** A well-formed reference at the front of a text ends at the first closing brace pair. */
  function RecognizeRef(s: string): nat {
    var i := IndexOf(s, '}');
    if i + 2 <= |s| && Parse(s[..i + 2]).Ok? then i + 2 else 0
  }

  /** What a reference resolves to in the scope, or the text itself when it is refused. */
  function Restored(records: Records, scope: Scope, now: nat, token: string): string {
    var parsed := Parse(token);
    if parsed.Err? then token
    else
      var r := Resolved(records, parsed.value, scope, now);
      if r.Good? then r.value else token
  }

  lemma RefsAreFoundByPrefix()
    ensures FoundByPrefix(RecognizeRef, PREFIX)
  {
    forall s | RecognizeRef(s) > 0 ensures StartsAt(s, 0, PREFIX) {
      var t := s[..IndexOf(s, '}') + 2];
      assert PREFIX <= t;
      assert s[0..|PREFIX|] == t[..|PREFIX|];
    }
  }

  lemma PrefixIsUnbordered()
    ensures Unbordered(PREFIX)
  {
    forall k | 0 < k < |PREFIX| ensures PREFIX[k..] != PREFIX[..|PREFIX| - k] {
      assert PREFIX[k..][0] == PREFIX[k];
      if k == 1 {
        assert PREFIX[1..][1] == 'B' && PREFIX[..14][1] == '{';
      }
    }
  }

  lemma BodyHasNoBrace(kind: Kind, id: string)
    requires ValidId(id)
    ensures '}' !in PREFIX + Name(kind) + [':'] + id
  {
    NamesAreDistinctWords(kind);
    assert forall c <- id :: LowerHex(c);
  }

  lemma EndsAtBraces(body: string, rest: string)
    requires '}' !in body && Parse(body + "}}").Ok?
    ensures RecognizeRef(body + "}}" + rest) == |body| + 2
  {
    var token := body + "}}";
    FirstAt(body, '}', ['}'] + rest);
    assert token + rest == body + ['}'] + (['}'] + rest);
    assert (token + rest)[..|token|] == token;
  }

  lemma RefIsRecognized(token: string)
    requires Parse(token).Ok?
    ensures Recognized(RecognizeRef, token) && PREFIX <= token
  {
    var id := ParsedIsPrinted(token);
    var kind := Parse(token).value.kind;
    BodyHasNoBrace(kind, id);
    forall rest ensures RecognizeRef(token + rest) == |token| {
      EndsAtBraces(PREFIX + Name(kind) + [':'] + id, rest);
    }
  }

  lemma FirstAt(head: string, x: char, rest: string)
    requires x !in head
    ensures IndexOf(head + [x] + rest, x) == |head|
  {
    SplitOnceAt(head, x, rest);
    var s := head + [x] + rest;
    assert s[..IndexOf(s, x)] == head;
  }

  lemma {:induction false} ValuesAreRaws(records: Records, used: seq<Entry>, scope: Scope, now: nat, restore: string -> string)
    requires forall e <- used :: Kept(records, e, scope, now)
    requires forall t :: restore(t) == Restored(records, scope, now, t)
    ensures Values(restore, Encodings(used)) == RawTexts(used)
  {
    if used != [] {
      ValuesAreRaws(records, used[1..], scope, now, restore);
      assert Kept(records, used[0], scope, now);
      assert Encodings(used)[1..] == Encodings(used[1..]);
    }
  }

  lemma {:induction false} EncodingsAreRecognized(records: Records, used: seq<Entry>, scope: Scope, now: nat)
    requires forall e <- used :: Kept(records, e, scope, now)
    ensures forall token <- Encodings(used) :: Recognized(RecognizeRef, token) && PREFIX <= token
  {
    if used != [] {
      EncodingsAreRecognized(records, used[1..], scope, now);
      assert Kept(records, used[0], scope, now);
      RefIsRecognized(used[0].safeRef.encoded);
    }
  }

  /** Masked text with every reference replaced by what it resolves to is the original input. */
  lemma MaskRoundTrip(input: string, findings: seq<Shape>, table: seq<Entry>, used: seq<Entry>,
                      records: Records, scope: Scope, now: nat, restore: string -> string)
    requires forall t :: restore(t) == Restored(records, scope, now, t)
    requires Covers(input, 0, findings, used)
    requires Consistent(records, table, scope, now) && SetOf(table) == SetOf(used)
    requires forall gap <- Gaps(input, 0, Spans(findings)) :: !Occurs(gap, PREFIX)
    ensures Substitute(RecognizeRef, restore, Interleave(Gaps(input, 0, Spans(findings)), Encodings(used))) == input
  {
    var gaps := Gaps(input, 0, Spans(findings));
    forall e <- used ensures Kept(records, e, scope, now) { assert e in SetOf(table); }
    RefsAreFoundByPrefix();
    PrefixIsUnbordered();
    EncodingsAreRecognized(records, used, scope, now);
    SubstituteInterleaved(RecognizeRef, restore, PREFIX, gaps, Encodings(used));
    ValuesAreRaws(records, used, scope, now, restore);
    RefillIsIdentity(input, 0, Spans(findings));
    assert input[0..] == input;
  }
}
