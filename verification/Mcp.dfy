/** The MCP transformer: references are restored only in approved arguments of a tool call. */
module Mcp {
  import opened Seqs
  import opened SafeRefs
  import opened Json

  datatype Audit = Audit(restored: nat, sanitized: nat, rejected: nat)

  datatype Failure = InvalidJson | ReferenceRejected | SensitiveValueRejected | MessageTooLarge

  /** Where a walk starts, and the resolver, sanitizer and credential names as they apply to one tool call. */
  datatype Target = Target(
    base: string, allows: string -> bool, resolve: SafeRef -> Option<string>, sanitize: string -> (string, nat), sensitive: string -> bool)

  const ARGUMENTS := "/params/arguments"

  predicate Alphanumeric(c: char) { '0' <= c <= '9' || 'a' <= c <= 'z' || 'A' <= c <= 'Z' }

  function Lower(c: char): char { if 'A' <= c <= 'Z' then c + 32 as char else c }

  function Normalized(name: string): string {
    if name == "" then ""
    else (if Alphanumeric(name[0]) then [Lower(name[0])] else "") + Normalized(name[1..])
  }

  predicate IsSensitiveField(name: string) {
    Normalized(name) in ["apikey", "accesstoken", "authtoken", "bearertoken", "clientsecret", "password", "passwd",
                         "privatekey", "secret", "token"]
  }

  /** Case and everything but letters and digits do not matter to a name, and nothing else is dropped. */
  lemma NamesAreNormalized(a: string, c: char, b: string)
    ensures 'A' <= c <= 'Z' ==> Normalized(a + [c] + b) == Normalized(a + [(c - 'A') + 'a'] + b)
    ensures 'a' <= c <= 'z' || '0' <= c <= '9' ==> Normalized(a + [c] + b) == Normalized(a) + [c] + Normalized(b)
    ensures !('a' <= c <= 'z' || '0' <= c <= '9' || 'A' <= c <= 'Z') ==> Normalized(a + [c] + b) == Normalized(a + b)
  {
    NormalizedAround(a, c, b);
    NormalizedAround(a, Lower(c), b);
    NormalizedConcat(a, b);
  }

  lemma NormalizedAround(a: string, c: char, b: string)
    ensures Normalized(a + [c] + b) == Normalized(a) + (if Alphanumeric(c) then [Lower(c)] else "") + Normalized(b)
  {
    NormalizedConcat(a, [c]);
    NormalizedConcat(a + [c], b);
    assert [c][1..] == "";
  }

  lemma {:induction false} NormalizedConcat(a: string, b: string)
    ensures Normalized(a + b) == Normalized(a) + Normalized(b)
  {
    if a == "" {
      assert a + b == b;
    } else {
      var first := if Alphanumeric(a[0]) then [Lower(a[0])] else "";
      assert (a + b)[0] == a[0] && (a + b)[1..] == a[1..] + b;
      NormalizedConcat(a[1..], b);
      ConcatAssociates(first, Normalized(a[1..]), Normalized(b));
    }
  }

  /** Below a credential-named key, at whatever depth. */
  predicate Sensitive(names: string -> bool, path: Path) { exists step <- path :: step.Key? && names(step.name) }

  // ---- The fate of one string -------------------------------------------------------------

  datatype Fate = Restored(text: string) | Sanitized(text: string, count: nat) | Rejected(failure: Failure)

  function FateOf(t: Target, leaf: Leaf): Fate {
    var parsed := Parse(leaf.text);
    if parsed.Err? then
      if Sensitive(t.sensitive, leaf.path) && leaf.text != "" then Rejected(SensitiveValueRejected)
      else Sanitized(t.sanitize(leaf.text).0, t.sanitize(leaf.text).1)
    else if !t.allows(t.base + Pointer(leaf.path)) then Rejected(ReferenceRejected)
    else
      var secret := t.resolve(parsed.value);
      if secret.None? then Rejected(ReferenceRejected) else Restored(secret.value)
  }

  function TextAfter(t: Target): Leaf -> string {
    (l: Leaf) => if FateOf(t, l).Rejected? then l.text else FateOf(t, l).text
  }

  /** How one string changes the audit, and whether it stops the message. */
  type Judge = (Leaf, Audit) -> (Option<Failure>, Audit)

  function Judged(fate: Fate, audit: Audit): (Option<Failure>, Audit) {
    match fate
    case Rejected(failure) => (Some(failure), audit.(rejected := audit.rejected + 1))
    case Restored(_) => (None, audit.(restored := audit.restored + 1))
    case Sanitized(_, count) => (None, audit.(sanitized := audit.sanitized + count))
  }

  function Judging(t: Target): Judge { (l: Leaf, audit: Audit) => Judged(FateOf(t, l), audit) }

  /** Going through the strings in order until one is rejected. */
  function Scan(judge: Judge, leaves: seq<Leaf>, audit: Audit): (Option<Failure>, Audit)
    decreases |leaves|
  {
    if leaves == [] then (None, audit)
    else
      var (failure, after) := judge(leaves[0], audit);
      if failure.Some? then (failure, after) else Scan(judge, leaves[1..], after)
  }

  lemma {:induction false} ScanConcat(judge: Judge, a: seq<Leaf>, b: seq<Leaf>, audit: Audit)
    ensures var first := Scan(judge, a, audit);
            Scan(judge, a + b, audit) == if first.0.Some? then first else Scan(judge, b, first.1)
    decreases |a|
  {
    if a == [] {
      assert a + b == b;
    } else {
      assert (a + b)[0] == a[0] && (a + b)[1..] == a[1..] + b;
      ScanConcat(judge, a[1..], b, judge(a[0], audit).1);
    }
  }

  // ---- Restoring --------------------------------------------------------------------------

  /** The first `i` children of a container have been restored. */
  ghost predicate SoFar(judge: Judge, f: Leaf -> string, v: Json, path: Path, i: nat, values: seq<Json>, start: Audit, audit: Audit) {
    && i == |values| <= |Children(v)|
    && (forall k :: 0 <= k < i ==> values[k] == MapAt(f, Children(v)[k].value, path + [Children(v)[k].step]))
    && Scan(judge, LeavesOf(v, Children(v)[..i], path), start) == (None, audit)
  }

  /** The next child continues the scan where the earlier ones left it. */
  lemma ScanNext(judge: Judge, v: Json, path: Path, i: nat, start: Audit, audit: Audit)
    requires i < |Children(v)| && Scan(judge, LeavesOf(v, Children(v)[..i], path), start) == (None, audit)
    ensures var c := Children(v)[i];
            Scan(judge, LeavesOf(v, Children(v)[..i + 1], path), start) == Scan(judge, Leaves(c.value, path + [c.step]), audit)
  {
    var cs, c := Children(v), Children(v)[i];
    assert cs[..i + 1] == cs[..i] + [c];
    LeavesOfAppend(v, cs[..i], c, path);
    ScanConcat(judge, LeavesOf(v, cs[..i], path), Leaves(c.value, path + [c.step]), start);
  }

  lemma StopsEarly(judge: Judge, v: Json, path: Path, i: nat, start: Audit)
    requires i <= |Children(v)| && !v.String? && Scan(judge, LeavesOf(v, Children(v)[..i], path), start).0.Some?
    ensures Scan(judge, Leaves(v, path), start) == Scan(judge, LeavesOf(v, Children(v)[..i], path), start)
  {
    LeavesOfSplit(v, Children(v), i, path);
    ScanConcat(judge, LeavesOf(v, Children(v)[..i], path), LeavesOf(v, Children(v)[i..], path), start);
  }

  lemma SoFarStep(judge: Judge, f: Leaf -> string, v: Json, path: Path, i: nat, values: seq<Json>, start: Audit, audit: Audit)
    requires i < |Children(v)| && !v.String? && SoFar(judge, f, v, path, i, values, start, audit)
    ensures var c := Children(v)[i];
            var (failure, after) := Scan(judge, Leaves(c.value, path + [c.step]), audit);
            if failure.Some? then Scan(judge, Leaves(v, path), start) == (failure, after)
            else SoFar(judge, f, v, path, i + 1, values + [MapAt(f, c.value, path + [c.step])], start, after)
  {
    ScanNext(judge, v, path, i, start, audit);
    if Scan(judge, LeavesOf(v, Children(v)[..i + 1], path), start).0.Some? {
      StopsEarly(judge, v, path, i + 1, start);
    }
  }

  lemma AllDone(judge: Judge, f: Leaf -> string, v: Json, path: Path, values: seq<Json>, start: Audit, audit: Audit)
    requires !v.String? && SoFar(judge, f, v, path, |Children(v)|, values, start, audit)
    ensures Scan(judge, Leaves(v, path), start) == (None, audit) && WithValues(v, values) == MapAt(f, v, path)
  {
    var cs := Children(v);
    assert cs[..|cs|] == cs;
    assert values == seq(|cs|, i requires 0 <= i < |cs| => MapAt(f, cs[i].value, path + [cs[i].step]));
  }

  lemma {:induction false} LeavesOfSplit(v: Json, cs: seq<Child>, i: nat, path: Path)
    requires i <= |cs| && forall c <- cs :: c.value < v
    ensures LeavesOf(v, cs, path) == LeavesOf(v, cs[..i], path) + LeavesOf(v, cs[i..], path)
    decreases |cs|
  {
    if i == 0 {
      assert cs[..0] == [] && cs[0..] == cs;
    } else {
      var rest := cs[1..];
      LeavesOfSplit(v, rest, i - 1, path);
      assert cs[..i][0] == cs[0] && cs[..i][1..] == rest[..i - 1] && cs[i..] == rest[i - 1..];
      var first := Leaves(cs[0].value, path + [cs[0].step]);
      assert LeavesOf(v, cs[..i], path) == first + LeavesOf(v, rest[..i - 1], path);
      ConcatAssociates(first, LeavesOf(v, rest[..i - 1], path), LeavesOf(v, cs[i..], path));
    }
  }

  method RestoreString(t: Target, text: string, pointer: string, ghost path: Path, audit: Audit, sensitive: bool)
    returns (failure: Option<Failure>, restored: string, after: Audit)
    requires pointer == t.base + Pointer(path) && sensitive == Sensitive(t.sensitive, path)
    ensures (failure, after) == Judged(FateOf(t, Leaf(path, text)), audit)
    ensures failure.None? ==> restored == FateOf(t, Leaf(path, text)).text
  {
    var parsed := Parse(text);
    if parsed.Err? {
      if sensitive && text != "" {
        return Some(SensitiveValueRejected), text, audit.(rejected := audit.rejected + 1);
      }
      var (replacement, count) := t.sanitize(text);
      return None, replacement, audit.(sanitized := audit.sanitized + count);
    }
    if !t.allows(pointer) { return Some(ReferenceRejected), text, audit.(rejected := audit.rejected + 1); }
    var secret := t.resolve(parsed.value);
    if secret.None? { return Some(ReferenceRejected), text, audit.(rejected := audit.rejected + 1); }
    return None, secret.value, audit.(restored := audit.restored + 1);
  }

  /** Rewrites the strings of `v` one after the other and counts what it does, up to the first rejection. */
  method RestoreValue(t: Target, v: Json, pointer: string, ghost path: Path, audit: Audit, sensitive: bool)
    returns (failure: Option<Failure>, restored: Json, after: Audit)
    requires pointer == t.base + Pointer(path) && sensitive == Sensitive(t.sensitive, path)
    ensures (failure, after) == Scan(Judging(t), Leaves(v, path), audit)
    ensures failure.None? ==> restored == MapAt(TextAfter(t), v, path)
    decreases v, 1
  {
    if v.String? {
      ScanOne(Judging(t), Leaf(path, v.text), audit);
      var text;
      failure, text, after := RestoreString(t, v.text, pointer, path, audit, sensitive);
      return failure, String(text), after;
    }
    failure, restored, after := RestoreChildren(t, v, pointer, path, audit, sensitive);
  }

  method RestoreChildren(t: Target, v: Json, pointer: string, ghost path: Path, audit: Audit, sensitive: bool)
    returns (failure: Option<Failure>, restored: Json, after: Audit)
    requires pointer == t.base + Pointer(path) && sensitive == Sensitive(t.sensitive, path) && !v.String?
    ensures (failure, after) == Scan(Judging(t), Leaves(v, path), audit)
    ensures failure.None? ==> restored == MapAt(TextAfter(t), v, path)
    decreases v, 0
  {
    var cs := Children(v);
    var values: seq<Json> := [];
    ghost var judge, f := Judging(t), TextAfter(t);
    after := audit;
    assert cs[..0] == [];
    for i := 0 to |cs|
      invariant SoFar(judge, f, v, path, i, values, audit, after)
    {
      var c := cs[i];
      BasePointerSnoc(t.base, path, c.step);
      SensitiveSnoc(t.sensitive, path, c.step);
      SoFarStep(judge, f, v, path, i, values, audit, after);
      var below := sensitive || (c.step.Key? && t.sensitive(c.step.name));
      var stop, value;
      stop, value, after := RestoreValue(t, c.value, pointer + "/" + Token(c.step), path + [c.step], after, below);
      if stop.Some? { return stop, v, after; }
      values := values + [value];
    }
    AllDone(judge, f, v, path, values, audit, after);
    return None, WithValues(v, values), after;
  }

  lemma BasePointerSnoc(base: string, path: Path, step: Step)
    ensures base + Pointer(path + [step]) == base + Pointer(path) + "/" + Token(step)
  {
    PointerSnoc(path, step);
    ConcatAssociates(base, Pointer(path) + "/", Token(step));
    ConcatAssociates(base, Pointer(path), "/");
  }

  lemma SensitiveSnoc(names: string -> bool, path: Path, step: Step)
    ensures Sensitive(names, path + [step]) == (Sensitive(names, path) || (step.Key? && names(step.name)))
  {
    if Sensitive(names, path) {
      var s :| s in path && s.Key? && names(s.name);
      assert s in path + [step];
    }
    assert step in path + [step];
  }

  lemma ScanOne(judge: Judge, leaf: Leaf, audit: Audit)
    ensures Scan(judge, [leaf], audit) == judge(leaf, audit)
  {
    assert [leaf][1..] == [];
  }

  // ---- What an accepted tool call contains ------------------------------------------------

  function References(leaves: seq<Leaf>): nat {
    if leaves == [] then 0 else (if Parse(leaves[0].text).Ok? then 1 else 0) + References(leaves[1..])
  }

  function Replacements(sanitize: string -> (string, nat), leaves: seq<Leaf>): nat {
    if leaves == [] then 0
    else (if Parse(leaves[0].text).Ok? then 0 else sanitize(leaves[0].text).1) + Replacements(sanitize, leaves[1..])
  }

  lemma FateParts(t: Target, leaf: Leaf)
    ensures FateOf(t, leaf).Restored? ==> Parse(leaf.text).Ok?
    ensures FateOf(t, leaf).Sanitized? ==> Parse(leaf.text).Err? && FateOf(t, leaf).count == t.sanitize(leaf.text).1
  {
  }

  /** Acceptance means no string is rejected, and then the counts are exact. */
  lemma {:induction false} ScanAccepts(t: Target, leaves: seq<Leaf>, start: Audit)
    ensures Scan(Judging(t), leaves, start).0.None? <==> forall l <- leaves :: !FateOf(t, l).Rejected?
    ensures Scan(Judging(t), leaves, start).0.None? ==>
        Scan(Judging(t), leaves, start).1
        == Audit(start.restored + References(leaves), start.sanitized + Replacements(t.sanitize, leaves), start.rejected)
    decreases |leaves|
  {
    if leaves != [] {
      var judge := Judging(t);
      assert judge(leaves[0], start) == Judged(FateOf(t, leaves[0]), start);
      assert leaves == [leaves[0]] + leaves[1..];
      FateParts(t, leaves[0]);
      ScanAccepts(t, leaves[1..], judge(leaves[0], start).1);
    }
  }

  lemma CountedFirst(t: Target, leaves: seq<Leaf>, i: nat, start: Audit)
    requires i < |leaves| && !FateOf(t, leaves[0]).Rejected?
    ensures var next := Judged(FateOf(t, leaves[0]), start).1;
            && start.restored + References(leaves[..i + 1]) == next.restored + References(leaves[1..][..i])
            && start.sanitized + Replacements(t.sanitize, leaves[..i + 1]) == next.sanitized + Replacements(t.sanitize, leaves[1..][..i])
            && next.rejected == start.rejected
  {
    FateParts(t, leaves[0]);
    assert leaves[..i + 1][0] == leaves[0] && leaves[..i + 1][1..] == leaves[1..][..i];
  }

  /** A rejection is that of the first string to be rejected; what came before it is counted. */
  lemma {:induction false} ScanRejects(t: Target, leaves: seq<Leaf>, start: Audit) returns (i: nat)
    requires Scan(Judging(t), leaves, start).0.Some?
    ensures i < |leaves| && FateOf(t, leaves[i]).Rejected? && forall j :: 0 <= j < i ==> !FateOf(t, leaves[j]).Rejected?
    ensures Scan(Judging(t), leaves, start)
         == (Some(FateOf(t, leaves[i]).failure),
             Audit(start.restored + References(leaves[..i]), start.sanitized + Replacements(t.sanitize, leaves[..i]), start.rejected + 1))
    decreases |leaves|
  {
    var judge := Judging(t);
    assert judge(leaves[0], start) == Judged(FateOf(t, leaves[0]), start);
    if FateOf(t, leaves[0]).Rejected? {
      i := 0;
    } else {
      var next := Judged(FateOf(t, leaves[0]), start).1;
      assert Scan(judge, leaves, start) == Scan(judge, leaves[1..], next);
      i := ScanRejects(t, leaves[1..], next);
      CountedFirst(t, leaves, i, start);
      i := i + 1;
    }
  }

  /**
   * In an accepted call plaintext stands exactly where an approved, resolvable reference stood; no
   * other string below a credential-named key was non-empty; every other string is sanitized.
   */
  lemma AcceptedArguments(t: Target, arguments: Json, i: nat)
    requires Scan(Judging(t), Leaves(arguments, []), Audit(0, 0, 0)).0.None? && i < |Leaves(arguments, [])|
    ensures var before, after := Leaves(arguments, []), Leaves(MapAt(TextAfter(t), arguments, []), []);
            && |after| == |before| && after[i].path == before[i].path
            && (Parse(before[i].text).Ok? ==>
                t.allows(t.base + Pointer(before[i].path)) && t.resolve(Parse(before[i].text).value) == Some(after[i].text))
            && (Parse(before[i].text).Err? ==>
                after[i].text == t.sanitize(before[i].text).0 && (Sensitive(t.sensitive, before[i].path) ==> before[i].text == ""))
  {
    var before := Leaves(arguments, []);
    ScanAccepts(t, before, Audit(0, 0, 0));
    MappedLeaves(TextAfter(t), arguments, []);
    assert !FateOf(t, before[i]).Rejected?;
  }

  // ---- Messages ---------------------------------------------------------------------------

  /** Position of the first member with the name, or the number of members. */
  function Find(members: seq<(string, Json)>, name: string): (i: nat)
    ensures i <= |members| && (i < |members| ==> members[i].0 == name) && forall j :: 0 <= j < i ==> members[j].0 != name
  {
    if members == [] || members[0].0 == name then 0 else 1 + Find(members[1..], name)
  }

  function Lookup(v: Json, name: string): Option<Json> {
    if v.Object? && Find(v.members, name) < |v.members| then Some(v.members[Find(v.members, name)].1) else None
  }

  function Put(v: Json, name: string, value: Json): Json
    requires Lookup(v, name).Some?
  {
    var i := Find(v.members, name);
    Object(v.members[i := (name, value)])
  }

  function Arguments(v: Json): Option<Json> {
    var params := Lookup(v, "params");
    if params.None? then None else Lookup(params.value, "arguments")
  }

  function WithArguments(v: Json, value: Json): Json
    requires Arguments(v).Some?
  {
    Put(v, "params", Put(Lookup(v, "params").value, "arguments", value))
  }

  function Text(v: Option<Json>): Option<string> { if v.Some? && v.value.String? then Some(v.value.text) else None }

  function ToolName(v: Json): Option<string> {
    var params := Lookup(v, "params");
    if params.None? then None else Text(Lookup(params.value, "name"))
  }

  lemma {:induction false} FindAfterPut(members: seq<(string, Json)>, name: string, value: Json)
    requires Find(members, name) < |members|
    ensures Find(members[Find(members, name) := (name, value)], name) == Find(members, name)
  {
    var i := Find(members, name);
    if i > 0 {
      FindAfterPut(members[1..], name, value);
      assert members[i := (name, value)][1..] == members[1..][i - 1 := (name, value)];
    }
  }

  lemma PutThenPut(v: Json, name: string, a: Json, b: Json)
    requires Lookup(v, name).Some?
    ensures Lookup(Put(v, name, a), name) == Some(a)
    ensures Put(Put(v, name, a), name, b) == Put(v, name, b)
  {
    FindAfterPut(v.members, name, a);
  }

  /** Replacing the arguments changes nothing else: put the old ones back and the message is as before. */
  lemma OnlyArgumentsChange(v: Json, value: Json)
    requires Arguments(v).Some?
    ensures Arguments(WithArguments(v, value)) == Some(value)
    ensures WithArguments(WithArguments(v, value), Arguments(v).value) == v
  {
    var params := Lookup(v, "params").value;
    PutThenPut(params, "arguments", value, Arguments(v).value);
    PutThenPut(v, "params", Put(params, "arguments", value), params);
    assert Put(params, "arguments", Arguments(v).value) == params;
    assert Put(v, "params", params) == v;
  }

  /** Whether any string of the message is a reference. */
  method HasReference(v: Json, ghost path: Path) returns (found: bool)
    ensures found <==> exists l <- Leaves(v, path) :: Parse(l.text).Ok?
  {
    if v.String? {
      assert Leaves(v, path) == [Leaf(path, v.text)];
      return Parse(v.text).Ok?;
    }
    var cs := Children(v);
    assert cs[..0] == [];
    for i := 0 to |cs|
      invariant forall l <- LeavesOf(v, cs[..i], path) :: Parse(l.text).Err?
    {
      assert cs[..i + 1] == cs[..i] + [cs[i]];
      LeavesOfAppend(v, cs[..i], cs[i], path);
      var below := HasReference(cs[i].value, path + [cs[i].step]);
      if below {
        LeavesOfSplit(v, cs, i + 1, path);
        return true;
      }
    }
    assert cs[..|cs|] == cs;
    return false;
  }

  datatype Environment = Environment(
    allows: (string, string, string) -> bool, resolve: SafeRef -> Option<string>, sanitize: string -> (string, nat))

  function CallTarget(env: Environment, server: string, tool: string): Target {
    Target(ARGUMENTS, p => env.allows(server, tool, p), env.resolve, env.sanitize, IsSensitiveField)
  }

  predicate CredentialName(name: string) {
    var n := Normalized(name);
    || n == "apikey" || n == "accesstoken" || n == "authtoken" || n == "bearertoken" || n == "clientsecret"
    || n == "password" || n == "passwd" || n == "privatekey" || n == "secret" || n == "token"
  }

  /** The environment lets this argument string through. */
  predicate Passes(env: Environment, server: string, tool: string, leaf: Leaf) {
    if Parse(leaf.text).Ok? then
      env.allows(server, tool, "/params/arguments" + Pointer(leaf.path)) && env.resolve(Parse(leaf.text).value).Some?
    else
      leaf.text == "" || forall step <- leaf.path :: step.Key? ==> !CredentialName(step.name)
  }

  /** What an argument string that is let through becomes: a reference its value, any other text its sanitized form. */
  predicate Becomes(env: Environment, before: Leaf, after: Leaf) {
    && after.path == before.path
    && (Parse(before.text).Ok? ==> env.resolve(Parse(before.text).value) == Some(after.text))
    && (Parse(before.text).Err? ==> after.text == env.sanitize(before.text).0)
  }

  /** `w` has the shape of `v`, and every string of `v` has become the string of `w` at its place. */
  ghost predicate Restores(env: Environment, v: Json, w: Json) {
    var before, after := Leaves(v, []), Leaves(w, []);
    Erased(w) == Erased(v) && |after| == |before| && forall i :: 0 <= i < |before| ==> Becomes(env, before[i], after[i])
  }

  ghost predicate RejectedAt(
    env: Environment, server: string, tool: string, leaves: seq<Leaf>, i: nat, failure: Option<Failure>, audit: Audit) {
    && i < |leaves| && !Passes(env, server, tool, leaves[i])
    && (forall j :: 0 <= j < i ==> Passes(env, server, tool, leaves[j]))
    && failure == Some(if Parse(leaves[i].text).Ok? then ReferenceRejected else SensitiveValueRejected)
    && audit == Audit(References(leaves[..i]), Replacements(env.sanitize, leaves[..i]), 1)
  }

  lemma FateInEnvironment(env: Environment, server: string, tool: string, leaf: Leaf)
    ensures var fate := FateOf(CallTarget(env, server, tool), leaf);
            && (fate.Rejected? <==> !Passes(env, server, tool, leaf))
            && (fate.Rejected? ==> fate.failure == if Parse(leaf.text).Ok? then ReferenceRejected else SensitiveValueRejected)
  {
    if leaf.text != "" && Parse(leaf.text).Err? && !Passes(env, server, tool, leaf) {
      var step :| step in leaf.path && step.Key? && CredentialName(step.name);
      assert IsSensitiveField(step.name);
    }
  }

  lemma RejectedInEnvironment(env: Environment, server: string, tool: string, leaves: seq<Leaf>)
    requires Scan(Judging(CallTarget(env, server, tool)), leaves, Audit(0, 0, 0)).0.Some?
    ensures var scan := Scan(Judging(CallTarget(env, server, tool)), leaves, Audit(0, 0, 0));
            exists i :: RejectedAt(env, server, tool, leaves, i, scan.0, scan.1)
  {
    var t := CallTarget(env, server, tool);
    var i := ScanRejects(t, leaves, Audit(0, 0, 0));
    forall j | 0 <= j <= i ensures FateOf(t, leaves[j]).Rejected? <==> !Passes(env, server, tool, leaves[j]) {
      FateInEnvironment(env, server, tool, leaves[j]);
    }
    FateInEnvironment(env, server, tool, leaves[i]);
    var scan := Scan(Judging(t), leaves, Audit(0, 0, 0));
    assert RejectedAt(env, server, tool, leaves, i, scan.0, scan.1);
  }

  lemma RestoredInEnvironment(env: Environment, server: string, tool: string, arguments: Json)
    requires Scan(Judging(CallTarget(env, server, tool)), Leaves(arguments, []), Audit(0, 0, 0)).0.None?
    ensures Restores(env, arguments, MapAt(TextAfter(CallTarget(env, server, tool)), arguments, []))
  {
    var t, before := CallTarget(env, server, tool), Leaves(arguments, []);
    MappedShape(TextAfter(t), arguments, []);
    MappedLeaves(TextAfter(t), arguments, []);
    var after := Leaves(MapAt(TextAfter(t), arguments, []), []);
    forall i | 0 <= i < |before| ensures Becomes(env, before[i], after[i]) { AcceptedArguments(t, arguments, i); }
  }

  /** The walk for a tool call, told of the environment. */
  lemma CallInEnvironment(env: Environment, server: string, tool: string, arguments: Json)
    ensures var t, leaves := CallTarget(env, server, tool), Leaves(arguments, []);
            var scan := Scan(Judging(t), leaves, Audit(0, 0, 0));
            && (scan.0.None? <==> forall l <- leaves :: Passes(env, server, tool, l))
            && (scan.0.None? ==> scan.1 == Audit(References(leaves), Replacements(env.sanitize, leaves), 0))
            && (scan.0.None? ==> Restores(env, arguments, MapAt(TextAfter(t), arguments, [])))
            && (scan.0.Some? ==> exists i :: RejectedAt(env, server, tool, leaves, i, scan.0, scan.1))
  {
    var t, leaves := CallTarget(env, server, tool), Leaves(arguments, []);
    ScanAccepts(t, leaves, Audit(0, 0, 0));
    forall l <- leaves ensures FateOf(t, l).Rejected? <==> !Passes(env, server, tool, l) { FateInEnvironment(env, server, tool, l); }
    if Scan(Judging(t), leaves, Audit(0, 0, 0)).0.Some? {
      RejectedInEnvironment(env, server, tool, leaves);
    } else {
      RestoredInEnvironment(env, server, tool, arguments);
    }
  }

  /** A message to the server: only a tool call may carry references, and only in its arguments. */
  method RestoreServerMessage(env: Environment, server: string, v: Json)
    returns (failure: Option<Failure>, message: Json, audit: Audit)
    ensures Text(Lookup(v, "method")) != Some("tools/call") ==>
        && message == v && failure == (if exists l <- Leaves(v, []) :: Parse(l.text).Ok? then Some(ReferenceRejected) else None)
        && audit == Audit(0, 0, if failure.None? then 0 else 1)
    ensures Text(Lookup(v, "method")) == Some("tools/call") && (ToolName(v).None? || Arguments(v).None?) ==>
        failure == Some(InvalidJson) && audit == Audit(0, 0, 0)
    ensures Text(Lookup(v, "method")) == Some("tools/call") && ToolName(v).Some? && Arguments(v).Some? ==>
        var tool, arguments, leaves := ToolName(v).value, Arguments(v).value, Leaves(Arguments(v).value, []);
        && (failure.None? <==> forall l <- leaves :: Passes(env, server, tool, l))
        && (failure.None? ==>
            && audit == Audit(References(leaves), Replacements(env.sanitize, leaves), 0)
            && exists value :: message == WithArguments(v, value) && Restores(env, arguments, value))
        && (failure.Some? ==> exists i :: RejectedAt(env, server, tool, leaves, i, failure, audit))
  {
    audit := Audit(0, 0, 0);
    if Text(Lookup(v, "method")) != Some("tools/call") {
      var found := HasReference(v, []);
      if found { return Some(ReferenceRejected), v, audit.(rejected := 1); }
      return None, v, audit;
    }
    var tool, arguments := ToolName(v), Arguments(v);
    if tool.None? || arguments.None? { return Some(InvalidJson), v, audit; }
    var t := CallTarget(env, server, tool.value);
    assert ARGUMENTS + Pointer([]) == ARGUMENTS;
    var restored;
    failure, restored, audit := RestoreValue(t, arguments.value, ARGUMENTS, [], audit, false);
    CallInEnvironment(env, server, tool.value, arguments.value);
    message := if failure.None? then WithArguments(v, restored) else v;
  }
}
