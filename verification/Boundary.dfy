/**
 * The Python SDK's session boundary: registered values, and text in which they are masked by
 * session references that only an end user may have restored.
 */
module SdkBoundary {
  import opened Seqs
  import opened SafeRefs
  import opened Splicing
  import opened Tokens

  datatype TokenKind = Credential | Pii
  datatype Destination = Llm | EndUser | Log | Memory | Tool
  datatype ProtectionMode = Mask | Redact | Block

  datatype Mapping = Mapping(kind: TokenKind, value: string)

  datatype Failure =
    | BoundaryClosed | EmptyValue | RegistryConflict | SensitiveValue | InvalidSafeRef | Restoration
    /** The random source ended before it produced an acceptable reference. */
    | NoReference

  datatype Outcome<+T> = Done(value: T) | Raised(failure: Failure)

  const SAFE_REF_PREFIX := "{{BLINDFOLD"
  const HEAD := "{{BLINDFOLD:SDK:v1:"
  const HEX_LENGTH := ID_LENGTH

  function KindName(kind: TokenKind): string { if kind == Credential then "SECRET" else "PII" }

  function Opening(kind: TokenKind): string { HEAD + KindName(kind) + ":" }

  function Reference(kind: TokenKind, hex: string): string { Opening(kind) + hex + "}}" }

  /** Length of the reference of one kind at the front of a text. */
  function RecognizeKind(kind: TokenKind, s: string): nat {
    var n := |Opening(kind)|;
    if n + HEX_LENGTH + 2 <= |s| && s[..n] == Opening(kind) && ValidId(s[n..n + HEX_LENGTH])
       && s[n + HEX_LENGTH..n + HEX_LENGTH + 2] == "}}"
    then n + HEX_LENGTH + 2 else 0
  }

  /** The SDK's reference pattern, matched at the front of a text. */
  function RecognizeSdk(s: string): nat {
    var secret := RecognizeKind(Credential, s);
    if secret > 0 then secret else RecognizeKind(Pii, s)
  }

  lemma SdkIsFoundByPrefix()
    ensures FoundByPrefix(RecognizeSdk, SAFE_REF_PREFIX)
  {
    forall s | RecognizeSdk(s) > 0 ensures StartsAt(s, 0, SAFE_REF_PREFIX) {
      var kind := if RecognizeKind(Credential, s) > 0 then Credential else Pii;
      var opening := Opening(kind);
      assert s[..|opening|] == opening;
      assert s[0..11] == opening[..11] == SAFE_REF_PREFIX;
    }
  }

  lemma SdkPrefixIsUnbordered()
    ensures Unbordered(SAFE_REF_PREFIX)
  {
    forall k | 0 < k < |SAFE_REF_PREFIX| ensures SAFE_REF_PREFIX[k..] != SAFE_REF_PREFIX[..|SAFE_REF_PREFIX| - k] {
      assert SAFE_REF_PREFIX[k..][0] == SAFE_REF_PREFIX[k];
      if k == 1 {
        assert SAFE_REF_PREFIX[1..][1] == 'B' && SAFE_REF_PREFIX[..10][1] == '{';
      }
    }
  }

  lemma ReferenceIsRecognized(kind: TokenKind, hex: string)
    requires ValidId(hex)
    ensures Recognized(RecognizeSdk, Reference(kind, hex))
    ensures SAFE_REF_PREFIX <= Reference(kind, hex)
    ensures forall rest :: RecognizeKind(kind, Reference(kind, hex) + rest) == |Reference(kind, hex)|
  {
    var token := Reference(kind, hex);
    forall rest ensures RecognizeKind(kind, token + rest) == |token| && RecognizeSdk(token + rest) == |token| {
      var s, n := token + rest, |Opening(kind)|;
      assert s[..n] == Opening(kind);
      assert s[n..n + HEX_LENGTH] == hex;
      assert s[n + HEX_LENGTH..n + HEX_LENGTH + 2] == "}}";
      if kind == Pii {
        assert s[19] == 'P' && Opening(Credential)[19] == 'S';
        assert |Opening(Credential)| <= |s| ==> s[..|Opening(Credential)|][19] == 'P';
      }
    }
    assert token[..11] == SAFE_REF_PREFIX;
  }

  // ---- Protecting -------------------------------------------------------------------------

  /** A text cut into copied stretches and the registered values between them. */
  datatype Parts = Parts(gaps: seq<string>, found: seq<string>)

  /** Leftmost-longest occurrences of the values. */
  function Cut(values: set<string>, s: string): (parts: Parts)
    ensures |parts.gaps| == |parts.found| + 1
    ensures forall v <- parts.found :: v in values
    decreases |s|
  {
    if s == "" then Parts([""], [])
    else
      var k := Longest(values, s);
      if k > 0 then
        var rest := Cut(values, s[k..]);
        Parts([""] + rest.gaps, [s[..k]] + rest.found)
      else
        var rest := Cut(values, s[1..]);
        Parts([[s[0]] + rest.gaps[0]] + rest.gaps[1..], rest.found)
  }

  /** Replacing every occurrence weaves the copied stretches with the replacements. */
  lemma {:induction false} CutWeaves(values: set<string>, longest: Recognizer, replacement: string -> string, s: string)
    requires forall t :: longest(t) == Longest(values, t)
    ensures var parts := Cut(values, s);
            Substitute(longest, replacement, s) == Interleave(parts.gaps, Values(replacement, parts.found))
    decreases |s|
  {
    if s != "" {
      var k, parts := Longest(values, s), Cut(values, s);
      var next := if k > 0 then s[k..] else s[1..];
      var rest := Cut(values, next);
      CutWeaves(values, longest, replacement, next);
      if k > 0 {
        assert parts.gaps[1..] == rest.gaps && parts.found[1..] == rest.found;
        assert Values(replacement, parts.found)[1..] == Values(replacement, rest.found);
      } else {
        InterleaveHead(s[0], rest.gaps, Values(replacement, rest.found));
      }
    }
  }

  lemma InterleaveHead(c: char, gaps: seq<string>, fills: seq<string>)
    requires |gaps| == |fills| + 1
    ensures Interleave([[c] + gaps[0]] + gaps[1..], fills) == [c] + Interleave(gaps, fills)
  {
    var longer := [[c] + gaps[0]] + gaps[1..];
    assert longer[1..] == gaps[1..];
    if fills != [] {
      var rest := Interleave(gaps[1..], fills[1..]);
      ConcatAssociates([c], gaps[0], fills[0]);
      ConcatAssociates([c], gaps[0] + fills[0], rest);
    }
  }

  /** Putting the found values back gives the text. */
  lemma {:induction false} CutRejoins(values: set<string>, s: string)
    ensures var parts := Cut(values, s); Interleave(parts.gaps, parts.found) == s
    decreases |s|
  {
    if s != "" {
      var k, parts := Longest(values, s), Cut(values, s);
      if k > 0 {
        CutRejoins(values, s[k..]);
        assert parts.gaps[1..] == Cut(values, s[k..]).gaps && parts.found[1..] == Cut(values, s[k..]).found;
        assert s == "" + s[..k] + s[k..];
      } else {
        CutRejoins(values, s[1..]);
        InterleaveHead(s[0], Cut(values, s[1..]).gaps, Cut(values, s[1..]).found);
      }
    }
  }

  /**
   * The text is read off from the left: at no copied character does a value begin, and of the values that
   * begin where one is taken out it is the longest.
   */
  ghost predicate LeftmostLongest(values: set<string>, gaps: seq<string>, found: seq<string>)
    requires |gaps| == |found| + 1
    decreases |found|
  {
    var after := if found == [] then "" else found[0] + Interleave(gaps[1..], found[1..]);
    && (forall j, v :: 0 <= j < |gaps[0]| && v in values ==> !(v <= gaps[0][j..] + after))
    && (found != [] ==>
        && found[0] in values && (forall v <- values :: v <= after ==> |v| <= |found[0]|)
        && LeftmostLongest(values, gaps[1..], found[1..]))
  }

  lemma {:induction false} CutIsLeftmostLongest(values: set<string>, s: string)
    requires "" !in values
    ensures LeftmostLongest(values, Cut(values, s).gaps, Cut(values, s).found)
    decreases |s|
  {
    if s != "" {
      var k := Longest(values, s);
      LongestBounds(values, s);
      var next := if k > 0 then s[k..] else s[1..];
      var rest := Cut(values, next);
      CutIsLeftmostLongest(values, next);
      CutRejoins(values, next);
      if k > 0 {
        OneMoreFound(values, s, s[..k], rest.gaps, rest.found);
      } else {
        OneMoreCopied(values, s, rest.gaps, rest.found);
      }
    }
  }

  lemma LongestBounds(values: set<string>, s: string)
    requires "" !in values
    ensures forall v <- values :: v <= s ==> 0 < |v| <= Longest(values, s)
  {
    forall v <- values | v <= s ensures 0 < |v| <= Longest(values, s) { assert s[..|v|] == v; }
  }

  lemma OneMoreFound(values: set<string>, s: string, found: string, gaps: seq<string>, others: seq<string>)
    requires |gaps| == |others| + 1 && found <= s && Interleave(gaps, others) == s[|found|..]
    requires LeftmostLongest(values, gaps, others) && found in values && forall v <- values :: v <= s ==> |v| <= |found|
    ensures LeftmostLongest(values, [""] + gaps, [found] + others)
  {
    assert ([""] + gaps)[1..] == gaps && ([found] + others)[1..] == others;
    assert found + s[|found|..] == s;
  }

  lemma OneMoreCopied(values: set<string>, s: string, gaps: seq<string>, found: seq<string>)
    requires |gaps| == |found| + 1 && s != "" && Interleave(gaps, found) == s[1..]
    requires LeftmostLongest(values, gaps, found) && forall v <- values :: !(v <= s)
    ensures LeftmostLongest(values, [[s[0]] + gaps[0]] + gaps[1..], found)
  {
    var more := [[s[0]] + gaps[0]] + gaps[1..];
    assert more[1..] == gaps[1..];
    var after := if found == [] then "" else found[0] + Interleave(gaps[1..], found[1..]);
    assert gaps[0] + after == s[1..] by {
      if found != [] { ConcatAssociates(gaps[0], found[0], Interleave(gaps[1..], found[1..])); }
    }
    forall j, v | 0 <= j < |more[0]| && v in values ensures !(v <= more[0][j..] + after) {
      if j == 0 {
        assert more[0][0..] + after == s;
      } else {
        assert more[0][j..] == gaps[0][j - 1..];
      }
    }
  }

  // ---- Restoring --------------------------------------------------------------------------

  /** Position of the first `word`, or the length when there is none. */
  function Find(s: string, word: string): (i: nat)
    ensures i <= |s|
    ensures Plain(word, s, i)
    ensures i < |s| ==> StartsAt(s, i, word)
  {
    if s == "" || StartsAt(s, 0, word) then 0
    else
      var i := 1 + Find(s[1..], word);
      assert Plain(word, s, i) by { PlainCons(word, s, i); }
      assert i < |s| ==> s[1..][i - 1..i - 1 + |word|] == s[i..i + |word|];
      i
  }

  lemma PlainCons(word: string, s: string, n: nat)
    requires s != "" && 0 < n && !StartsAt(s, 0, word) && Plain(word, s[1..], n - 1)
    ensures Plain(word, s, n)
  {
    forall j: nat | j < n ensures !StartsAt(s, j, word) {
      if j > 0 {
        assert !StartsAt(s[1..], j - 1, word);
        assert j + |word| <= |s| ==> s[1..][j - 1..j - 1 + |word|] == s[j..j + |word|];
      }
    }
  }

  lemma FindAt(s: string, word: string, n: nat)
    requires n < |s| && Plain(word, s, n) && StartsAt(s, n, word)
    ensures Find(s, word) == n
  {
    var i := Find(s, word);
    assert !(i < n) && !(n < i);
  }

  lemma FindNone(s: string, word: string)
    requires Plain(word, s, |s|)
    ensures Find(s, word) == |s|
  {
  }

  /** The kind a reference names. */
  function NamedKind(token: string): TokenKind {
    if RecognizeKind(Credential, token) > 0 then Credential else Pii
  }

  /** Every marker prefix opens a registered reference of the registered kind. */
  predicate AllKnown(mappings: map<string, Mapping>, s: string)
    decreases |s|
  {
    var start := Find(s, SAFE_REF_PREFIX);
    start == |s| ||
    (var rest := s[start..];
     var k := RecognizeSdk(rest);
     0 < k <= |rest| && rest[..k] in mappings && NamedKind(rest[..k]) == mappings[rest[..k]].kind
     && AllKnown(mappings, rest[k..]))
  }

  /** The references a left-to-right substitution meets. */
  function Met(s: string): seq<string>
    decreases |s|
  {
    if s == "" then []
    else
      var k := RecognizeSdk(s);
      if 0 < k <= |s| then [s[..k]] + Met(s[k..]) else Met(s[1..])
  }

  function ValueOf(mappings: map<string, Mapping>, token: string): string {
    if token in mappings then mappings[token].value else token
  }

  function Restorer(mappings: map<string, Mapping>): string -> string { t => ValueOf(mappings, t) }

  /** What `restore` returns or raises. */
  function Restored(mappings: map<string, Mapping>, s: string, destination: Destination): Outcome<string> {
    if !AllKnown(mappings, s) then Raised(InvalidSafeRef)
    else if exists t <- Met(s) :: !(t in mappings && mappings[t].kind == Pii && destination == EndUser) then Raised(Restoration)
    else Done(Substitute(RecognizeSdk, Restorer(mappings), s))
  }

  lemma {:induction false} MetSkips(s: string, n: nat)
    requires n <= |s| && Plain(SAFE_REF_PREFIX, s, n)
    ensures Met(s) == Met(s[n..])
  {
    if n == 0 {
      assert s[0..] == s;
    } else {
      SdkIsFoundByPrefix();
      assert !StartsAt(s, 0, SAFE_REF_PREFIX);
      assert RecognizeSdk(s) == 0;
      PlainTail(SAFE_REF_PREFIX, s, n);
      MetSkips(s[1..], n - 1);
      assert s[1..][n - 1..] == s[n..];
    }
  }

  /** A registered reference is written with its own kind. */
  ghost predicate Registered(mappings: map<string, Mapping>, token: string) {
    token in mappings && exists hex :: ValidId(hex) && token == Reference(mappings[token].kind, hex)
  }

  lemma RegisteredIsRecognized(mappings: map<string, Mapping>, token: string)
    requires Registered(mappings, token)
    ensures Recognized(RecognizeSdk, token) && SAFE_REF_PREFIX <= token
    ensures NamedKind(token) == mappings[token].kind
  {
    var hex :| ValidId(hex) && token == Reference(mappings[token].kind, hex);
    ReferenceIsRecognized(mappings[token].kind, hex);
    assert token + "" == token;
    if mappings[token].kind == Pii {
      assert token[19] == 'P' && Opening(Credential)[19] == 'S';
    }
  }

  lemma FirstReference(mappings: map<string, Mapping>, gap: string, token: string, after: string)
    requires !Occurs(gap, SAFE_REF_PREFIX) && Registered(mappings, token)
    ensures var s := gap + (token + after);
            AllKnown(mappings, s) == AllKnown(mappings, after) && Met(s) == [token] + Met(after)
  {
    var rest := token + after;
    var s, n := gap + rest, |gap|;
    RegisteredIsRecognized(mappings, token);
    SdkPrefixIsUnbordered();
    NoPrefixInGap(SAFE_REF_PREFIX, gap, rest);
    assert s[n..] == rest;
    assert s[n..n + 11] == token[..11] == SAFE_REF_PREFIX;
    FindAt(s, SAFE_REF_PREFIX, n);
    assert RecognizeSdk(rest) == |token| && rest[..|token|] == token && rest[|token|..] == after;
    MetSkips(s, n);
  }

  lemma PlainHasNone(mappings: map<string, Mapping>, gap: string)
    requires !Occurs(gap, SAFE_REF_PREFIX)
    ensures AllKnown(mappings, gap) && Met(gap) == []
  {
    forall j: nat | j < |gap| ensures !StartsAt(gap, j, SAFE_REF_PREFIX) {
    }
    FindNone(gap, SAFE_REF_PREFIX);
    MetSkips(gap, |gap|);
    assert gap[|gap|..] == "";
  }

  lemma {:induction false} KnownInterleaved(mappings: map<string, Mapping>, gaps: seq<string>, tokens: seq<string>)
    requires |gaps| == |tokens| + 1
    requires forall gap <- gaps :: !Occurs(gap, SAFE_REF_PREFIX)
    requires forall token <- tokens :: Registered(mappings, token)
    ensures AllKnown(mappings, Interleave(gaps, tokens)) && Met(Interleave(gaps, tokens)) == tokens
  {
    if tokens == [] {
      PlainHasNone(mappings, gaps[0]);
    } else {
      var after := Interleave(gaps[1..], tokens[1..]);
      KnownInterleaved(mappings, gaps[1..], tokens[1..]);
      FirstReference(mappings, gaps[0], tokens[0], after);
      ConcatAssociates(gaps[0], tokens[0], after);
    }
  }

  /** Every reference met in accepted text is registered, so that restoring never misses one. */
  lemma {:induction false} MetAreKnown(mappings: map<string, Mapping>, s: string)
    requires AllKnown(mappings, s)
    ensures forall t <- Met(s) :: t in mappings
    decreases |s|
  {
    var n := Find(s, SAFE_REF_PREFIX);
    MetSkips(s, n);
    if n < |s| {
      var rest := s[n..];
      MetAreKnown(mappings, rest[RecognizeSdk(rest)..]);
    } else {
      assert s[n..] == "";
    }
  }

  // ---- The session ------------------------------------------------------------------------

  type ValueIndex = map<string, (TokenKind, string)>

  /** Registered values and references determine each other. */
  ghost predicate Inverse(mappings: map<string, Mapping>, index: ValueIndex) {
    && (forall v <- index :: index[v].1 in mappings && mappings[index[v].1] == Mapping(index[v].0, v))
    && (forall t <- mappings :: mappings[t].value in index && index[mappings[t].value] == (mappings[t].kind, t))
  }

  ghost predicate WellRegistered(mappings: map<string, Mapping>, index: ValueIndex) {
    && Inverse(mappings, index)
    && (forall t <- mappings :: Registered(mappings, t) && mappings[t].value != "")
  }

  function Redaction(kind: TokenKind): string {
    if kind == Credential then "[BLINDFOLD_REDACTED_SECRET]" else "[BLINDFOLD_REDACTED_PII]"
  }

  function Replacement(index: ValueIndex, mode: ProtectionMode, v: string): string {
    if v !in index then v else if mode.Redact? then Redaction(index[v].0) else index[v].1
  }

  function Replacer(index: ValueIndex, mode: ProtectionMode): string -> string { v => Replacement(index, mode, v) }

  /** What `protect` returns or raises, and how many replacements it reports. */
  function Protected(index: ValueIndex, text: string, mode: ProtectionMode): Outcome<(string, nat)> {
    if mode.Block? then
      if exists v <- index :: Occurs(text, v) then Raised(SensitiveValue) else Done((text, 0))
    else
      var parts := Cut(index.Keys, text);
      Done((Interleave(parts.gaps, Values(Replacer(index, mode), parts.found)), |parts.found|))
  }

  /** What a found value gives way to: its own reference, or when redacting the label of its kind. */
  predicate GivesWay(index: ValueIndex, mode: ProtectionMode, v: string, fill: string) {
    && v in index
    && fill == if !mode.Redact? then index[v].1
               else match index[v].0
                    case Credential => "[BLINDFOLD_REDACTED_SECRET]"
                    case Pii => "[BLINDFOLD_REDACTED_PII]"
  }

  /** The registered values are taken out of the text, leftmost and longest first, and each gives way to its fill. */
  ghost predicate Replaces(index: ValueIndex, mode: ProtectionMode, text: string, output: string, replacements: nat) {
    exists gaps, found, fills :: ReplacesBy(index, mode, text, output, gaps, found, fills) && |found| == replacements
  }

  ghost predicate ReplacesBy(
    index: ValueIndex, mode: ProtectionMode, text: string, output: string, gaps: seq<string>, found: seq<string>, fills: seq<string>) {
    && |gaps| == |found| + 1 && |fills| == |found|
    && Interleave(gaps, found) == text && Interleave(gaps, fills) == output && LeftmostLongest(index.Keys, gaps, found)
    && forall i :: 0 <= i < |found| ==> GivesWay(index, mode, found[i], fills[i])
  }

  lemma {:induction false} ValuesAt(value: string -> string, tokens: seq<string>, i: nat)
    requires i < |tokens|
    ensures Values(value, tokens)[i] == value(tokens[i])
  {
    if i > 0 { ValuesAt(value, tokens[1..], i - 1); }
  }

  lemma SubstituteReplaces(index: ValueIndex, mode: ProtectionMode, text: string)
    requires "" !in index
    ensures var found := Cut(index.Keys, text).found;
            Replaces(index, mode, text, Substitute(Finder(index.Keys), Replacer(index, mode), text), |found|)
  {
    var parts, replace := Cut(index.Keys, text), Replacer(index, mode);
    var fills := Values(replace, parts.found);
    CutRejoins(index.Keys, text);
    CutIsLeftmostLongest(index.Keys, text);
    CutWeaves(index.Keys, Finder(index.Keys), replace, text);
    forall i | 0 <= i < |parts.found| ensures GivesWay(index, mode, parts.found[i], fills[i]) {
      ValuesAt(replace, parts.found, i);
    }
    assert ReplacesBy(index, mode, text, Interleave(parts.gaps, fills), parts.gaps, parts.found, fills);
  }

  /** A reference that is taken, or that a text the boundary handles already contains. */
  ghost predicate Collides(mappings: map<string, Mapping>, source: string, token: string) {
    Occurs(source, token) || token in mappings || exists t <- mappings :: Occurs(mappings[t].value, token)
  }

  class Boundary {
    var mappings: map<string, Mapping>
    var valueIndex: ValueIndex
    var closed: bool
    const mode: ProtectionMode

    ghost predicate Valid()
      reads this
    {
      WellRegistered(mappings, valueIndex) && (closed ==> mappings == map[])
    }

    constructor (mode: ProtectionMode)
      ensures Valid() && !closed && mappings == map[] && this.mode == mode
    {
      mappings, valueIndex, closed, this.mode := map[], map[], false, mode;
    }

    /** Draws identifiers until one gives a reference that occurs in no registered value. */
    method CreateSafeRef(kind: TokenKind, source: string, draws: seq<string>) returns (token: Option<string>)
      requires forall hex <- draws :: ValidId(hex)
      ensures token.Some? ==> exists hex :: ValidId(hex) && token.value == Reference(kind, hex)
      ensures token.Some? ==> token.value !in mappings && !Occurs(source, token.value)
                              && forall t <- mappings :: !Occurs(mappings[t].value, token.value)
      ensures token.None? <==> forall hex <- draws :: Collides(mappings, source, Reference(kind, hex))
    {
      for i := 0 to |draws|
        invariant forall j :: 0 <= j < i ==> Collides(mappings, source, Reference(kind, draws[j]))
      {
        var candidate := Reference(kind, draws[i]);
        if !(Occurs(source, candidate) || candidate in mappings)
           && !(exists t <- mappings :: Occurs(mappings[t].value, candidate)) {
          assert !Collides(mappings, source, candidate) && draws[i] in draws;
          return Some(candidate);
        }
      }
      return None;
    }

    /** Registers a value, or returns the reference it already has. */
    method Register(value: string, kind: TokenKind, draws: seq<string>) returns (r: Outcome<string>)
      requires Valid()
      requires forall hex <- draws :: ValidId(hex)
      modifies this
      ensures Valid() && closed == old(closed)
      ensures r == Raised(EmptyValue) <==> value == ""
      ensures r == Raised(BoundaryClosed) <==> value != "" && closed
      ensures r == Raised(RegistryConflict) <==>
          value != "" && !closed && value in old(valueIndex) && old(valueIndex)[value].0 != kind
      ensures r == Raised(NoReference) <==>
          && value != "" && !closed && value !in old(valueIndex)
          && forall hex <- draws :: Collides(old(mappings), value, Reference(kind, hex))
      ensures r.Raised? ==> r.failure in {EmptyValue, BoundaryClosed, RegistryConflict, NoReference}
      ensures r.Raised? || value in old(valueIndex) ==> mappings == old(mappings) && valueIndex == old(valueIndex)
      ensures r.Done? ==> valueIndex == old(valueIndex)[value := (kind, r.value)] && mappings == old(mappings)[r.value := Mapping(kind, value)]
    {
      if value == "" { return Raised(EmptyValue); }
      if closed { return Raised(BoundaryClosed); }
      if value in valueIndex {
        var (existingKind, token) := valueIndex[value];
        if existingKind != kind { return Raised(RegistryConflict); }
        return Done(token);
      }
      var token := CreateSafeRef(kind, value, draws);
      if token.None? { return Raised(NoReference); }
      mappings := mappings[token.value := Mapping(kind, value)];
      valueIndex := valueIndex[value := (kind, token.value)];
      r := Done(token.value);
    }

    method Protect(text: string, mode: ProtectionMode) returns (r: Outcome<(string, nat)>)
      requires Valid()
      ensures r == if closed then Raised(BoundaryClosed) else Protected(valueIndex, text, mode)
      ensures !closed && mode.Block? ==>
        r == if exists v <- valueIndex :: Occurs(text, v) then Raised(SensitiveValue) else Done((text, 0))
      ensures !closed && !mode.Block? ==> r.Done? && Replaces(valueIndex, mode, text, r.value.0, r.value.1)
    {
      if closed { return Raised(BoundaryClosed); }
      var matches := SortedValues();
      if mode.Block? {
        if exists v <- valueIndex :: Occurs(text, v) { return Raised(SensitiveValue); }
        return Done((text, 0));
      }
      var chunks, replacements := ReplaceMatches(text, matches, mode);
      ghost var longest, replace := Finder(valueIndex.Keys), Replacer(valueIndex, mode);
      CutWeaves(valueIndex.Keys, longest, replace, text);
      r := Done((chunks, replacements));
    }

    /** The registered values, longer ones first. */
    method SortedValues() returns (matches: seq<string>)
      requires Valid()
      ensures SetOf(matches) == valueIndex.Keys && LongestFirst(matches) && "" !in matches
    {
      var items: seq<string>, left := [], valueIndex.Keys;
      while left != {}
        invariant left <= valueIndex.Keys && SetOf(items) == valueIndex.Keys - left
        decreases left
      {
        var v :| v in left;
        SetOfAppend(items, v);
        items, left := items + [v], left - {v};
      }
      matches := SortUnstableBy(items, NotShorter<char>);
      assert forall v <- matches :: v in SetOf(matches);
    }

    /** The offset loop: the first listed value that stands at the offset is replaced. */
    method ReplaceMatches(text: string, matches: seq<string>, mode: ProtectionMode) returns (chunks: string, replacements: nat)
      requires SetOf(matches) == valueIndex.Keys && LongestFirst(matches) && "" !in matches
      ensures chunks == Substitute(Finder(valueIndex.Keys), Replacer(valueIndex, mode), text)
      ensures replacements == |Cut(valueIndex.Keys, text).found|
      ensures Replaces(valueIndex, mode, text, chunks, replacements)
    {
      ghost var values, longest, replace := valueIndex.Keys, Finder(valueIndex.Keys), Replacer(valueIndex, mode);
      assert "" !in valueIndex by { assert "" !in SetOf(matches); }
      var offset := 0;
      chunks, replacements := "", 0;
      assert text[0..] == text;
      while offset < |text|
        invariant offset <= |text|
        invariant chunks + Substitute(longest, replace, text[offset..]) == Substitute(longest, replace, text)
        invariant replacements + |Cut(values, text[offset..]).found| == |Cut(values, text).found|
      {
        ghost var rest := text[offset..];
        var hit := FirstMatch(text, offset, matches);
        if hit.None? {
          ConcatAssociates(chunks, [text[offset]], Substitute(longest, replace, rest[1..]));
          chunks := chunks + [text[offset]];
          offset := offset + 1;
          assert rest[1..] == text[offset..];
        } else {
          var value := hit.value;
          ConcatAssociates(chunks, Replacement(valueIndex, mode, value), Substitute(longest, replace, rest[|value|..]));
          chunks := chunks + Replacement(valueIndex, mode, value);
          replacements := replacements + 1;
          offset := offset + |value|;
          assert rest[|value|..] == text[offset..];
        }
      }
      assert text[offset..] == "";
      SubstituteReplaces(valueIndex, mode, text);
    }

    method FirstMatch(text: string, offset: nat, matches: seq<string>) returns (hit: Option<string>)
      requires offset <= |text|
      requires SetOf(matches) == valueIndex.Keys && LongestFirst(matches) && "" !in matches
      ensures var k := Longest(valueIndex.Keys, text[offset..]);
              hit == if k == 0 then None else Some(text[offset..][..k])
    {
      for i := 0 to |matches|
        invariant forall j :: 0 <= j < i ==> !(matches[j] <= text[offset..])
      {
        StartsAtIsPrefix(text, offset, matches[i]);
        if StartsAt(text, offset, matches[i]) {
          FirstIsLongest(matches, text[offset..], i);
          assert text[offset..][..|matches[i]|] == matches[i];
          return Some(matches[i]);
        }
      }
      NoneMatches(matches, text[offset..]);
      return None;
    }

    /** Refuses malformed and unknown references wherever the marker prefix occurs. */
    method ValidateSafeRefs(text: string) returns (valid: bool)
      ensures valid == AllKnown(mappings, text)
    {
      var rest := text;
      while true
        invariant AllKnown(mappings, text) == AllKnown(mappings, rest)
        decreases |rest|
      {
        var start := Find(rest, SAFE_REF_PREFIX);
        if start == |rest| { return true; }
        rest := rest[start..];
        var k := RecognizeSdk(rest);
        if !(0 < k <= |rest|) { return false; }
        var token := rest[..k];
        if token !in mappings { return false; }
        if NamedKind(token) != mappings[token].kind { return false; }
        rest := rest[k..];
      }
    }

    method Restore(text: string, destination: Destination) returns (r: Outcome<string>)
      requires Valid()
      ensures r == if closed then Raised(BoundaryClosed) else Restored(mappings, text, destination)
    {
      if closed { return Raised(BoundaryClosed); }
      var valid := ValidateSafeRefs(text);
      if !valid { return Raised(InvalidSafeRef); }
      if exists t <- Met(text) :: !(t in mappings && mappings[t].kind == Pii && destination == EndUser) {
        return Raised(Restoration);
      }
      return Done(Substitute(RecognizeSdk, Restorer(mappings), text));
    }

    method Close()
      requires Valid()
      modifies this
      ensures Valid() && closed && mappings == map[] && valueIndex == map[]
    {
      mappings, valueIndex, closed := map[], map[], true;
    }
  }

  function Finder(values: set<string>): Recognizer { s => Longest(values, s) }

  // ---- Round trip -------------------------------------------------------------------------

  /** In Python terms: `restore(protect(text).text, destination="end_user") == text`. */
  ghost predicate RoundTrips(mappings: map<string, Mapping>, index: ValueIndex, text: string) {
    var masked := Protected(index, text, Mask);
    masked.Done? && Restored(mappings, masked.value.0, EndUser) == Done(text)
  }

  lemma {:induction false} ReferencesOf(mappings: map<string, Mapping>, index: ValueIndex, found: seq<string>)
    requires WellRegistered(mappings, index) && forall v <- found :: v in index && index[v].0 == Pii
    ensures var tokens := Values(Replacer(index, Mask), found);
            && (forall t <- tokens :: Registered(mappings, t) && mappings[t].kind == Pii)
            && Values(Restorer(mappings), tokens) == found
  {
    if found != [] {
      var tokens := Values(Replacer(index, Mask), found);
      ReferencesOf(mappings, index, found[1..]);
      assert found[0] in index;
      assert tokens[1..] == Values(Replacer(index, Mask), found[1..]);
    }
  }

  /** Masked text restores to itself when the copied stretches hold no marker prefix and all matches are PII. */
  lemma ProtectThenRestore(mappings: map<string, Mapping>, index: ValueIndex, text: string)
    requires WellRegistered(mappings, index)
    requires forall v <- Cut(index.Keys, text).found :: index[v].0 == Pii
    requires forall gap <- Cut(index.Keys, text).gaps :: !Occurs(gap, SAFE_REF_PREFIX)
    ensures RoundTrips(mappings, index, text)
  {
    var parts := Cut(index.Keys, text);
    var tokens := Values(Replacer(index, Mask), parts.found);
    ReferencesOf(mappings, index, parts.found);
    KnownInterleaved(mappings, parts.gaps, tokens);
    forall t <- tokens ensures Recognized(RecognizeSdk, t) && SAFE_REF_PREFIX <= t { RegisteredIsRecognized(mappings, t); }
    SdkIsFoundByPrefix();
    SdkPrefixIsUnbordered();
    SubstituteInterleaved(RecognizeSdk, Restorer(mappings), SAFE_REF_PREFIX, parts.gaps, tokens);
    CutRejoins(index.Keys, text);
  }

  /** In particular for every text without the prefix. */
  lemma PlainTextRoundTrips(mappings: map<string, Mapping>, index: ValueIndex, text: string)
    requires WellRegistered(mappings, index) && !Occurs(text, SAFE_REF_PREFIX)
    requires forall v <- Cut(index.Keys, text).found :: index[v].0 == Pii
    ensures RoundTrips(mappings, index, text)
  {
    var parts := Cut(index.Keys, text);
    CutRejoins(index.Keys, text);
    forall gap <- parts.gaps ensures !Occurs(gap, SAFE_REF_PREFIX) {
      if Occurs(gap, SAFE_REF_PREFIX) {
        GapOccurs(parts.gaps, parts.found, gap, SAFE_REF_PREFIX);
        assert false;
      }
    }
    ProtectThenRestore(mappings, index, text);
  }

  /** Whatever is restored, it was PII for an end user; other destinations get text back only unchanged. */
  lemma OnlyPiiIsRestored(mappings: map<string, Mapping>, text: string, destination: Destination)
    requires Restored(mappings, text, destination).Done?
    ensures forall t <- Met(text) :: t in mappings && mappings[t].kind == Pii
    ensures destination != EndUser ==> Restored(mappings, text, destination).value == text
  {
    if destination != EndUser {
      assert SetOf(Met(text)) == {};
      SetOfEmpty(Met(text));
      SubstituteNothing(mappings, text);
    }
  }

  lemma {:induction false} SubstituteNothing(mappings: map<string, Mapping>, s: string)
    requires Met(s) == []
    ensures Substitute(RecognizeSdk, Restorer(mappings), s) == s
  {
    if s != "" {
      SubstituteNothing(mappings, s[1..]);
      assert [s[0]] + s[1..] == s;
    }
  }
}
