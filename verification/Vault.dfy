/**
 * The record map of `blindfold-vault`: scoped, expiring values under random references.
 *
 * Encryption and the file are outside the model; every operation reads and replaces the whole
 * map under a lock. The clock and the random identifiers are parameters.
 */
module Vaults {
  import opened Seqs
  import opened SafeRefs


  datatype Scope = Scope(project: string, session: string)

  datatype Record = Record(kind: nat, scope: Scope, createdAt: nat, expiresAt: nat, value: string)

  type Records = map<string, Record>

  datatype VaultError = InvalidInput | RandomnessUnavailable | ReferenceRejected | CorruptOrWrongKey

  datatype VaultResult<+T> = Good(value: T) | Bad(error: VaultError)

  function KindCode(kind: Kind): nat {
    match kind
    case Secret => 1
    case Environment => 2
    case PersonallyIdentifiableInformation => 3
    case PrivateKey => 4
    case Certificate => 5
  }

  function DecodeKind(code: nat): Option<Kind> {
    if code == 1 then Some(Secret)
    else if code == 2 then Some(Environment)
    else if code == 3 then Some(PersonallyIdentifiableInformation)
    else if code == 4 then Some(PrivateKey)
    else if code == 5 then Some(Certificate)
    else None
  }

  function HexDigit(n: nat): char
    requires n < 16
  {
    if n < 10 then '0' + n as char else 'a' + (n - 10) as char
  }

  function EncodeHex(bytes: Bytes): (text: string)
    ensures |text| == 2 * |bytes|
    ensures forall c <- text :: LowerHex(c)
  {
    if bytes == [] then "" else [HexDigit(bytes[0] / 16), HexDigit(bytes[0] % 16)] + EncodeHex(bytes[1..])
  }

  /** Different draws give different identifiers. */
  lemma {:induction false} EncodeHexInjective(a: Bytes, b: Bytes)
    requires EncodeHex(a) == EncodeHex(b)
    ensures a == b
  {
    assert |EncodeHex(a)| == |EncodeHex(b)|;
    if a != [] {
      assert EncodeHex(a)[0] == HexDigit(a[0] / 16) && EncodeHex(a)[1] == HexDigit(a[0] % 16);
      assert EncodeHex(b)[0] == HexDigit(b[0] / 16) && EncodeHex(b)[1] == HexDigit(b[0] % 16);
      assert a[0] == b[0];
      assert EncodeHex(a)[2..] == EncodeHex(a[1..]) && EncodeHex(b)[2..] == EncodeHex(b[1..]);
      EncodeHexInjective(a[1..], b[1..]);
    }
  }

  /** The identifier between the last colon and the closing braces. */
  function ReferenceId(encoded: string): Option<string> {
    var body := StripSuffix(encoded, "}}");
    if body.None? then None else AfterLastColon(body.value)
  }

  function AfterLastColon(s: string): Option<string> {
    if s == "" then None
    else if s[|s| - 1] == ':' then Some("")
    else
      var rest := AfterLastColon(s[..|s| - 1]);
      if rest.None? then None else Some(rest.value + [s[|s| - 1]])
  }

  lemma {:induction false} AfterLastColonAt(head: string, id: string)
    requires ':' !in id
    ensures AfterLastColon(head + [':'] + id) == Some(id)
  {
    var s := head + [':'] + id;
    if id != "" {
      var n := |id| - 1;
      assert s[..|s| - 1] == head + [':'] + id[..n];
      AfterLastColonAt(head, id[..n]);
      assert id == id[..n] + [id[n]];
    }
  }

  lemma ReferenceIdOfPrinted(kind: Kind, id: string)
    requires ValidId(id)
    ensures ReferenceId(Print(kind, id)) == Some(id)
  {
    var body := PREFIX + Name(kind) + [':'] + id;
    assert Print(kind, id) == body + SUFFIX;
    assert (body + SUFFIX)[..|body|] == body && (body + SUFFIX)[|body|..] == "}}";
    assert ':' !in id by {
      assert forall c <- id :: LowerHex(c);
    }
    AfterLastColonAt(PREFIX + Name(kind), id);
  }

  // ---- Operations -------------------------------------------------------------------------

  function Live(records: Records, now: nat): Records {
    map id | id in records && records[id].expiresAt > now :: records[id]
  }

  function Outside(records: Records, scope: Scope): Records {
    map id | id in records && records[id].scope != scope :: records[id]
  }

  ghost predicate WellFormed(records: Records) {
    forall id <- records :: ValidId(id) && 1 <= records[id].kind <= 5
  }

  /** The reference a stored record answers to. */
  function RefOf(id: string, record: Record): Option<SafeRef> {
    var kind := DecodeKind(record.kind);
    if kind.None? then None
    else
      var made := FromId(kind.value, id);
      if made.Err? then None else Some(made.value)
  }

  /** Every drawn identifier is in use. */
  ghost predicate AllUsed(draws: seq<Bytes>, state: Records) { forall draw <- draws :: EncodeHex(draw) in state }

  ghost predicate Drawn(draws: seq<Bytes>, id: string) { exists draw <- draws :: EncodeHex(draw) == id }

  class Vault {
    var records: Records

    constructor ()
      ensures records == map[]
    {
      records := map[];
    }

    /** Stores under the first drawn identifier that no unexpired record uses. */
    method Store(kind: Kind, scope: Scope, value: string, ttlSeconds: nat, now: nat, draws: seq<Bytes>)
      returns (r: VaultResult<SafeRef>, ghost id: string)
      requires forall draw <- draws :: |draw| == 16
      modifies this
      ensures r.Good? ==>
          && ValidId(id) && r.value == SafeRef(kind, Print(kind, id)) && id !in Live(old(records), now)
          && Drawn(draws, id)
          && value != "" && now < now + ttlSeconds <= U64_MAX
          && records == Live(old(records), now)[id := Record(KindCode(kind), scope, now, now + ttlSeconds, value)]
      ensures r.Bad? ==> records == old(records)
      ensures r == Bad(InvalidInput) <==> value == "" || ttlSeconds == 0 || now + ttlSeconds > U64_MAX
      ensures r.Bad? && r.error != InvalidInput ==>
          r.error == RandomnessUnavailable && AllUsed(draws, Live(old(records), now))
    {
      id := "";
      if value == "" || now + ttlSeconds > U64_MAX { return Bad(InvalidInput), id; }
      var expiresAt := now + ttlSeconds;
      if expiresAt == now { return Bad(InvalidInput), id; }
      var state := Live(records, now);
      var drawn := DrawUnused(state, draws);
      if drawn.None? { return Bad(RandomnessUnavailable), id; }
      id := drawn.value;
      var safeRef := NewRef(kind, drawn.value);
      records := state[drawn.value := Record(KindCode(kind), scope, now, expiresAt, value)];
      r := Good(safeRef);
    }

    static method NewRef(kind: Kind, id: string) returns (safeRef: SafeRef)
      requires ValidId(id)
      ensures safeRef == SafeRef(kind, Print(kind, id))
    {
      ParsePrint(kind, id);
      safeRef := FromId(kind, id).value;
    }

    /** Draws until an unused identifier comes up; randomness may give out before that. */
    static method DrawUnused(state: Records, draws: seq<Bytes>) returns (id: Option<string>)
      requires forall draw <- draws :: |draw| == 16
      ensures id.Some? ==> ValidId(id.value) && id.value !in state && Drawn(draws, id.value)
      ensures id.None? ==> AllUsed(draws, state)
    {
      for i := 0 to |draws|
        invariant forall j :: 0 <= j < i ==> EncodeHex(draws[j]) in state
      {
        var candidate := EncodeHex(draws[i]);
        if candidate !in state { return Some(candidate); }
      }
      return None;
    }

    method Resolve(safeRef: SafeRef, scope: Scope, now: nat) returns (r: VaultResult<string>)
      ensures r == Resolved(records, safeRef, scope, now)
    {
      var id := ReferenceId(safeRef.encoded);
      if id.None? || id.value !in records { return Bad(ReferenceRejected); }
      var record := records[id.value];
      if record.expiresAt <= now || record.scope != scope || record.kind != KindCode(safeRef.kind) {
        return Bad(ReferenceRejected);
      }
      return Good(record.value);
    }

    /** Exactly the references of unexpired records in the scope; fails only on a corrupt record. */
    method List(scope: Scope, now: nat) returns (r: VaultResult<set<SafeRef>>)
      ensures r.Bad? <==> exists id <- records :: InScope(records[id], scope, now) && RefOf(id, records[id]).None?
      ensures r.Bad? ==> r.error == CorruptOrWrongKey
      ensures r.Good? ==> r.value == set id | id in records && InScope(records[id], scope, now) :: RefOf(id, records[id]).value
    {
      var left, found: set<SafeRef> := records.Keys, {};
      while left != {}
        invariant left <= records.Keys
        invariant forall id <- records.Keys - left :: InScope(records[id], scope, now) ==> RefOf(id, records[id]).Some?
        invariant found == set id | id in records.Keys - left && InScope(records[id], scope, now) :: RefOf(id, records[id]).value
        decreases left
      {
        var id :| id in left;
        if InScope(records[id], scope, now) {
          var made := RefOf(id, records[id]);
          if made.None? { return Bad(CorruptOrWrongKey); }
          found := found + {made.value};
        }
        left := left - {id};
      }
      return Good(found);
    }

    method Clear(scope: Scope) returns (removed: nat)
      modifies this
      ensures records == Outside(old(records), scope)
      ensures removed == |old(records)| - |records|
    {
      var state := Outside(records, scope);
      FewerKeys(records, state);
      removed := |records| - |state|;
      if removed != 0 { records := state; } else { SameKeys(records, state); }
    }

    method PurgeExpired(now: nat) returns (removed: nat)
      modifies this
      ensures records == Live(old(records), now)
      ensures removed == |old(records)| - |records|
    {
      var state := Live(records, now);
      FewerKeys(records, state);
      removed := |records| - |state|;
      if removed != 0 { records := state; } else { SameKeys(records, state); }
    }
  }

  predicate InScope(record: Record, scope: Scope, now: nat) { record.expiresAt > now && record.scope == scope }

  lemma FewerKeys(all: Records, some: Records)
    requires some.Keys <= all.Keys
    ensures |some| <= |all|
  {
    CountKeys(some.Keys, all.Keys);
  }

  lemma {:induction false} CountKeys(a: set<string>, b: set<string>)
    requires a <= b
    ensures |a| <= |b| && (|a| == |b| ==> a == b)
  {
    assert b == a + (b - a) && |b| == |a| + |b - a|;
  }

  lemma SameKeys(all: Records, some: Records)
    requires some.Keys <= all.Keys && |some| == |all| && forall id <- some :: some[id] == all[id]
    ensures some == all
  {
    CountKeys(some.Keys, all.Keys);
  }

  function Resolved(records: Records, safeRef: SafeRef, scope: Scope, now: nat): VaultResult<string> {
    var id := ReferenceId(safeRef.encoded);
    if id.Some? && id.value in records && InScope(records[id.value], scope, now)
       && records[id.value].kind == KindCode(safeRef.kind)
    then Good(records[id.value].value)
    else Bad(ReferenceRejected)
  }

  // ---- Every run --------------------------------------------------------------------------

  /** What a successful mutation did; reading operations change nothing. */
  datatype Event =
    | Stored(time: nat, kind: Kind, id: string, scope: Scope, expiresAt: nat, value: string)
    | Cleared(time: nat, scope: Scope)
    | Purged(time: nat)

  function RecordOf(e: Event): Record
    requires e.Stored?
  {
    Record(KindCode(e.kind), e.scope, e.time, e.expiresAt, e.value)
  }

  function Apply(records: Records, e: Event): Records {
    match e
    case Stored(time, _, id, _, _, _) => Live(records, time)[id := RecordOf(e)]
    case Cleared(_, scope) => Outside(records, scope)
    case Purged(time) => Live(records, time)
  }

  function After(events: seq<Event>): Records {
    if events == [] then map[] else Apply(After(events[..|events| - 1]), events[|events| - 1])
  }

  /** The clock never goes back, and each store used an identifier no unexpired record had. */
  ghost predicate PossibleRun(events: seq<Event>) {
    && (forall i, j :: 0 <= i < j < |events| ==> events[i].time <= events[j].time)
    && (forall i :: 0 <= i < |events| && events[i].Stored? ==>
          ValidId(events[i].id) && events[i].id !in Live(After(events[..i]), events[i].time))
  }

  /** Store `i` is unexpired and its scope has not been cleared since. */
  ghost predicate StillStands(events: seq<Event>, i: nat, now: nat)
    requires i < |events|
  {
    events[i].Stored? && events[i].expiresAt > now &&
    forall j :: i < j < |events| ==> !(events[j].Cleared? && events[j].scope == events[i].scope)
  }

  ghost predicate Names(events: seq<Event>, i: nat, id: string)
    requires i < |events|
  {
    events[i].Stored? && events[i].id == id
  }

  lemma PrefixRun(events: seq<Event>)
    requires PossibleRun(events) && events != []
    ensures PossibleRun(events[..|events| - 1])
  {
    var init := events[..|events| - 1];
    assert forall i :: 0 <= i < |init| ==> init[i] == events[i] && init[..i] == events[..i];
  }

  /** A standing store is in the map, under its identifier, unchanged. */
  lemma {:induction false} StandingIsHeld(events: seq<Event>, i: nat, now: nat)
    requires PossibleRun(events) && i < |events| && StillStands(events, i, now)
    requires forall e <- events :: e.time <= now
    ensures events[i].id in After(events) && After(events)[events[i].id] == RecordOf(events[i])
  {
    var n := |events| - 1;
    var init, last := events[..n], events[n];
    if i < n {
      PrefixRun(events);
      assert StillStands(init, i, now) by {
        assert forall j :: i < j < n ==> init[j] == events[j];
      }
      StandingIsHeld(init, i, now);
      assert events[i].id in Live(After(init), last.time);
      assert last.Stored? ==> last.id !in Live(After(init), last.time);
    }
  }

  /** Every unexpired record in the map is the work of a standing store. */
  lemma {:induction false} HeldIsStanding(events: seq<Event>, id: string, now: nat) returns (i: nat)
    requires PossibleRun(events) && id in After(events) && After(events)[id].expiresAt > now
    ensures i < |events| && Names(events, i, id) && StillStands(events, i, now)
    ensures After(events)[id] == RecordOf(events[i])
  {
    var n := |events| - 1;
    var init, last := events[..n], events[n];
    if Names(events, n, id) {
      i := n;
    } else {
      PrefixRun(events);
      assert id in After(init) && After(init)[id] == After(events)[id];
      i := HeldIsStanding(init, id, now);
      StandsLonger(events, i, now);
    }
  }

  lemma StandsLonger(events: seq<Event>, i: nat, now: nat)
    requires events != [] && i < |events| - 1 && StillStands(events[..|events| - 1], i, now)
    requires var last := events[|events| - 1]; last.Cleared? ==> last.scope != events[i].scope
    ensures StillStands(events, i, now)
  {
    var n := |events| - 1;
    assert forall j :: i <= j < n ==> events[..n][j] == events[j];
  }

  /** No later store reuses the identifier of one that still stands. */
  lemma StandingIsLatest(events: seq<Event>, i: nat, j: nat, now: nat)
    requires PossibleRun(events) && i < j < |events| && StillStands(events, i, now)
    requires forall e <- events :: e.time <= now
    ensures !Names(events, j, events[i].id)
  {
    var before := events[..j];
    assert forall k :: 0 <= k < j ==> before[k] == events[k] && before[..k] == events[..k];
    assert StillStands(before, i, events[j].time);
    StandingIsHeld(before, i, events[j].time);
    assert events[i].id in Live(After(before), events[j].time);
  }

  /** Store `i` returned this reference with this value, for this scope, and it is still good. */
  ghost predicate Answers(events: seq<Event>, i: nat, kind: Kind, id: string, scope: Scope, value: string, now: nat)
    requires i < |events|
  {
    Names(events, i, id) && events[i].kind == kind && events[i].scope == scope && events[i].value == value
    && StillStands(events, i, now) && forall j :: i < j < |events| ==> !Names(events, j, id)
  }

  /** `id` is held for the scope and kind, unexpired, with this value. */
  ghost predicate Held(records: Records, kind: Kind, id: string, scope: Scope, value: string, now: nat) {
    id in records && InScope(records[id], scope, now) && records[id].kind == KindCode(kind) && records[id].value == value
  }

  lemma ResolvedIsHeld(records: Records, kind: Kind, id: string, scope: Scope, value: string, now: nat)
    requires ValidId(id)
    ensures Resolved(records, SafeRef(kind, Print(kind, id)), scope, now) == Good(value)
            <==> Held(records, kind, id, scope, value, now)
  {
    ReferenceIdOfPrinted(kind, id);
  }

  lemma HeldFollowsHistory(events: seq<Event>, kind: Kind, id: string, scope: Scope, value: string, now: nat)
    requires PossibleRun(events) && forall e <- events :: e.time <= now
    requires Held(After(events), kind, id, scope, value, now)
    ensures exists i: nat :: i < |events| && Answers(events, i, kind, id, scope, value, now)
  {
    var i := HeldIsStanding(events, id, now);
    forall j | i < j < |events| ensures !Names(events, j, id) { StandingIsLatest(events, i, j, now); }
    assert Answers(events, i, kind, id, scope, value, now);
  }

  /**
   * In every run, resolving gives a value exactly when the latest store of that reference stored
   * it for the same scope, has not expired, and its scope has not been cleared since.
   */
  lemma ResolveFollowsHistory(events: seq<Event>, kind: Kind, id: string, scope: Scope, value: string, now: nat)
    requires PossibleRun(events) && ValidId(id) && forall e <- events :: e.time <= now
    ensures Resolved(After(events), SafeRef(kind, Print(kind, id)), scope, now) == Good(value)
            <==> exists i: nat :: i < |events| && Answers(events, i, kind, id, scope, value, now)
  {
    ResolvedIsHeld(After(events), kind, id, scope, value, now);
    if Held(After(events), kind, id, scope, value, now) {
      HeldFollowsHistory(events, kind, id, scope, value, now);
    } else if i: nat :| i < |events| && Answers(events, i, kind, id, scope, value, now) {
      StandingIsHeld(events, i, now);
      assert false;
    }
  }

  lemma {:induction false} RunIsWellFormed(events: seq<Event>)
    requires PossibleRun(events)
    ensures WellFormed(After(events))
  {
    if events != [] {
      PrefixRun(events);
      RunIsWellFormed(events[..|events| - 1]);
    }
  }

  /** In every run each record has a reference, so that listing cannot fail. */
  lemma RunListsWithoutError(events: seq<Event>, id: string)
    requires PossibleRun(events) && id in After(events)
    ensures exists kind :: RefOf(id, After(events)[id]) == Some(SafeRef(kind, Print(kind, id)))
  {
    RunIsWellFormed(events);
    ParsePrint(DecodeKind(After(events)[id].kind).value, id);
  }

  /** A reference is listed for a scope exactly when it would resolve there. */
  lemma ListedIsResolvable(records: Records, kind: Kind, id: string, scope: Scope, now: nat)
    requires WellFormed(records) && ValidId(id)
    ensures (id in records && InScope(records[id], scope, now) && RefOf(id, records[id]) == Some(SafeRef(kind, Print(kind, id))))
            <==> Resolved(records, SafeRef(kind, Print(kind, id)), scope, now).Good?
  {
    ReferenceIdOfPrinted(kind, id);
    if id in records {
      ParsePrint(DecodeKind(records[id].kind).value, id);
    }
  }
}
