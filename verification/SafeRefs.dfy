/** Opaque references to protected values, as in `blindfold-core`. */
module SafeRefs {
  import opened Seqs

  const PREFIX := "{{BLINDFOLD:v1:"
  const SUFFIX := "}}"
  const ID_LENGTH := 32

  datatype Kind = Secret | Environment | PersonallyIdentifiableInformation | PrivateKey | Certificate

  datatype SafeRef = SafeRef(kind: Kind, encoded: string)

  datatype Error = InvalidLength | InvalidFormat | InvalidKind | InvalidIdentifier

  datatype Result<+T> = Ok(value: T) | Err(error: Error)

  function Name(kind: Kind): string {
    match kind
    case Secret => "SECRET"
    case Environment => "ENV"
    case PersonallyIdentifiableInformation => "PII"
    case PrivateKey => "PRIVATE_KEY"
    case Certificate => "CERT"
  }

  function ParseKind(name: string): Result<Kind> {
    if name == "SECRET" then Ok(Secret)
    else if name == "ENV" then Ok(Environment)
    else if name == "PII" then Ok(PersonallyIdentifiableInformation)
    else if name == "PRIVATE_KEY" then Ok(PrivateKey)
    else if name == "CERT" then Ok(Certificate)
    else Err(InvalidKind)
  }

  predicate LowerHex(c: char) { '0' <= c <= '9' || 'a' <= c <= 'f' }

  predicate ValidId(id: string) { |id| == ID_LENGTH && forall c <- id :: LowerHex(c) }

  function ValidateId(id: string): Option<Error> {
    if |id| != ID_LENGTH then Some(InvalidLength)
    else if exists c <- id :: !LowerHex(c) then Some(InvalidIdentifier)
    else None
  }

  function Print(kind: Kind, id: string): string { PREFIX + Name(kind) + [':'] + id + SUFFIX }

  function FromId(kind: Kind, id: string): Result<SafeRef> {
    var problem := ValidateId(id);
    if problem.Some? then Err(problem.value) else Ok(SafeRef(kind, Print(kind, id)))
  }

  function Parse(value: string): Result<SafeRef> {
    var rest := StripPrefix(value, PREFIX);
    var body := if rest.None? then None else StripSuffix(rest.value, SUFFIX);
    if body.None? then Err(InvalidFormat)
    else
      var parts := SplitOnce(body.value, ':');
      if parts.None? then Err(InvalidFormat)
      else
        var (name, id) := parts.value;
        var kind := ParseKind(name);
        if kind.Err? then Err(kind.error)
        else
          var problem := ValidateId(id);
          if problem.Some? then Err(problem.value)
          else if |value| != |PREFIX| + |Name(kind.value)| + 1 + ID_LENGTH + |SUFFIX| then Err(InvalidLength)
          else Ok(SafeRef(kind.value, value))
  }

  lemma NamesAreDistinctWords(kind: Kind)
    ensures ParseKind(Name(kind)) == Ok(kind) && ':' !in Name(kind) && '{' !in Name(kind) && '}' !in Name(kind)
  {
  }

  /** Printing and parsing are inverse: every printed reference parses to itself. */
  lemma ParsePrint(kind: Kind, id: string)
    requires ValidId(id)
    ensures FromId(kind, id) == Ok(SafeRef(kind, Print(kind, id)))
    ensures Parse(Print(kind, id)) == FromId(kind, id)
  {
    var value, body := Print(kind, id), Name(kind) + [':'] + id;
    PrintParts(kind, id);
    assert value[|PREFIX|..] == body + SUFFIX;
    assert (body + SUFFIX)[|body|..] == SUFFIX && (body + SUFFIX)[..|body|] == body;
    NamesAreDistinctWords(kind);
    SplitOnceAt(Name(kind), ':', id);
  }

  /** Whatever parses is a printed reference with a valid identifier, and only one. */
  lemma ParsedIsPrinted(value: string) returns (id: string)
    requires Parse(value).Ok?
    ensures ValidId(id) && value == Print(Parse(value).value.kind, id)
    ensures Parse(value).value.encoded == value
  {
    var rest := value[|PREFIX|..];
    var body := rest[..|rest| - |SUFFIX|];
    var (name, tail) := SplitOnce(body, ':').value;
    id := tail;
    var kind := Parse(value).value.kind;
    assert name == Name(kind);
    SplitOnceRejoins(body, ':');
    assert rest == body + SUFFIX;
    assert value == PREFIX + rest;
    PrintParts(kind, id);
  }

  lemma PrintParts(kind: Kind, id: string)
    ensures Print(kind, id) == PREFIX + (Name(kind) + [':'] + id + SUFFIX)
  {
    ConcatAssociates(PREFIX + Name(kind), [':'], id);
    ConcatAssociates(PREFIX, Name(kind), [':'] + id);
    ConcatAssociates(Name(kind), [':'], id);
    ConcatAssociates(PREFIX, Name(kind) + [':'] + id, SUFFIX);
  }

  /** The closing length comparison of `parse` never fires: kind and identifier fix the length. */
  lemma LengthCheckNeverFires(value: string, name: string, id: string)
    requires PREFIX <= value && StripSuffix(value[|PREFIX|..], SUFFIX).Some?
    requires SplitOnce(StripSuffix(value[|PREFIX|..], SUFFIX).value, ':') == Some((name, id))
    requires ParseKind(name).Ok? && ValidateId(id).None?
    ensures Parse(value) == Ok(SafeRef(ParseKind(name).value, value))
  {
    var rest := value[|PREFIX|..];
    var body := rest[..|rest| - |SUFFIX|];
    assert |body| == |name| + 1 + |id|;
    assert name == Name(ParseKind(name).value);
  }
}
