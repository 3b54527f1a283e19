/** Policy evaluation: hard invariants, validity, deny rules, active allow rules, then the preset. */
module Policies {
  import opened Seqs

  datatype Operation = Disclose | Restoring

  datatype Destination =
    | ModelProvider | AgentBoundary | Tool | ChildProcess | FileOutput | Log | Audit | User | TrustedLocal | FutureDestination

  datatype Sensitivity = Public | Internal | Confidential | Secret | Restricted | FutureSensitivity

  datatype Kind =
    | ApiKey | Token | Password | PrivateKey | Certificate | CredentialUrl | PersonalInformation | OtherKind | FutureKind

  datatype SourceContext = Environment | FromFile | StandardInput | ProcessOutput | Inbound | Response | FromTool | Unknown | Unsupported

  datatype Request = Request(
    operation: Operation, kind: Kind, sensitivity: Sensitivity, source: SourceContext, destination: Destination)

  datatype Action = Allow | Redact | Warn | Block | Restore

  datatype AllowReason = RequiredOperation | Compatibility | TestFixture | IncidentResponse

  datatype Scope = Scope(
    operation: Operation, destination: Destination, kind: Option<Kind>, sensitivity: Option<Sensitivity>,
    source: Option<SourceContext>)

  datatype DenyRule = DenyRule(id: nat, scope: Scope)

  datatype AllowRule = AllowRule(id: nat, scope: Scope, reason: AllowReason, expiresAt: Option<nat>)

  datatype Basis = Invariant | InvalidPolicy | ExplicitDeny | ExplicitAllow | Preset

  datatype Decision = Decision(action: Action, basis: Basis, ruleId: Option<nat>, reason: Option<AllowReason>)

  datatype PolicyError =
    | DuplicateRuleId | UntrustedRestoreDestination | OverbroadAllowRule | UnsupportedDestination | UnsupportedSource

  /** A policy; `preset` is its table of defaults for disclosures. */
  datatype Policy = Policy(preset: Request -> Action, deny: seq<DenyRule>, allow: seq<AllowRule>, error: Option<PolicyError>)

  // ---- Scopes and rules -------------------------------------------------------------------

  predicate Matches(scope: Scope, request: Request) {
    && scope.operation == request.operation && scope.destination == request.destination
    && (scope.kind.None? || scope.kind.value == request.kind)
    && (scope.sensitivity.None? || scope.sensitivity.value == request.sensitivity)
    && (scope.source.None? || scope.source.value == request.source)
  }

  predicate IsActive(rule: AllowRule, now: nat) { rule.expiresAt.None? || now < rule.expiresAt.value }

  predicate Trusted(destination: Destination) { destination.ChildProcess? || destination.TrustedLocal? }

  predicate ViolatesInvariant(r: Request) {
    || r.destination.FutureDestination? || r.source.Unsupported? || r.sensitivity.FutureSensitivity? || r.kind.FutureKind?
    || (match r.operation
        case Restoring => !Trusted(r.destination)
        case Disclose =>
          (r.sensitivity.Secret? || r.sensitivity.Restricted?)
          && r.destination in {ModelProvider, AgentBoundary, Tool, Log, Audit})
  }

  // ---- Validation -------------------------------------------------------------------------

  predicate KnownScope(scope: Scope) { !scope.destination.FutureDestination? && scope.source != Some(Unsupported) }

  predicate Bounded(scope: Scope) { scope.kind.Some? || scope.sensitivity.Some? || scope.source.Some? }

  predicate SafeRestore(scope: Scope) { scope.operation.Restoring? ==> Trusted(scope.destination) }

  function DenyIds(rules: seq<DenyRule>): seq<nat> { seq(|rules|, i requires 0 <= i < |rules| => rules[i].id) }

  function AllowIds(rules: seq<AllowRule>): seq<nat> { seq(|rules|, i requires 0 <= i < |rules| => rules[i].id) }

  function DenyScopes(rules: seq<DenyRule>): seq<Scope> { seq(|rules|, i requires 0 <= i < |rules| => rules[i].scope) }

  function AllowScopes(rules: seq<AllowRule>): seq<Scope> { seq(|rules|, i requires 0 <= i < |rules| => rules[i].scope) }

  /** No identifier twice in both lists together, every scope known, every allow rule narrow and safe. */
  ghost predicate ValidRules(deny: seq<DenyRule>, allow: seq<AllowRule>) {
    && Distinct(DenyIds(deny) + AllowIds(allow))
    && (forall r <- deny :: KnownScope(r.scope))
    && (forall r <- allow :: KnownScope(r.scope) && Bounded(r.scope) && SafeRestore(r.scope))
  }

  /** What an error says about the rules. */
  ghost predicate Justifies(deny: seq<DenyRule>, allow: seq<AllowRule>, error: PolicyError) {
    match error
    case DuplicateRuleId => !Distinct(DenyIds(deny) + AllowIds(allow))
    case UnsupportedDestination =>
      (exists r <- deny :: r.scope.destination.FutureDestination?) || (exists r <- allow :: r.scope.destination.FutureDestination?)
    case UnsupportedSource => (exists r <- deny :: r.scope.source == Some(Unsupported)) || (exists r <- allow :: r.scope.source == Some(Unsupported))
    case OverbroadAllowRule => exists r <- allow :: !Bounded(r.scope)
    case UntrustedRestoreDestination => exists r <- allow :: !SafeRestore(r.scope)
  }

  /** The first loop: identifiers and scopes of both lists, one after the other. */
  method ValidateScopes(ids: seq<nat>, scopes: seq<Scope>) returns (r: Option<PolicyError>)
    requires |ids| == |scopes|
    ensures r.None? <==> Distinct(ids) && forall s <- scopes :: KnownScope(s)
    ensures r == Some(DuplicateRuleId) ==> !Distinct(ids)
    ensures r == Some(UnsupportedDestination) ==> exists s <- scopes :: s.destination.FutureDestination?
    ensures r == Some(UnsupportedSource) ==> exists s <- scopes :: s.source == Some(Unsupported)
    ensures r.Some? ==> r.value in {DuplicateRuleId, UnsupportedDestination, UnsupportedSource}
  {
    var seen: set<nat> := {};
    for i := 0 to |ids|
      invariant Distinct(ids[..i]) && forall x :: x in seen <==> x in ids[..i]
      invariant forall s <- scopes[..i] :: KnownScope(s)
    {
      if ids[i] in seen {
        var j :| 0 <= j < i && ids[j] == ids[i];
        return Some(DuplicateRuleId);
      }
      seen := seen + {ids[i]};
      assert ids[..i + 1] == ids[..i] + [ids[i]];
      assert scopes[i] in scopes;
      if scopes[i].destination.FutureDestination? { return Some(UnsupportedDestination); }
      if scopes[i].source == Some(Unsupported) { return Some(UnsupportedSource); }
      assert scopes[..i + 1] == scopes[..i] + [scopes[i]];
    }
    assert ids[..|ids|] == ids && scopes[..|scopes|] == scopes;
    return None;
  }

  method ValidateRules(deny: seq<DenyRule>, allow: seq<AllowRule>) returns (r: Option<PolicyError>)
    ensures r.None? <==> ValidRules(deny, allow)
    ensures r.Some? ==> Justifies(deny, allow, r.value)
  {
    r := ValidateScopes(DenyIds(deny) + AllowIds(allow), DenyScopes(deny) + AllowScopes(allow));
    ScopesOfRules(deny, allow);
    if r.Some? { return; }
    for i := 0 to |allow|
      invariant forall x <- allow[..i] :: Bounded(x.scope) && SafeRestore(x.scope)
    {
      assert allow[i] in allow && allow[..i + 1] == allow[..i] + [allow[i]];
      if !Bounded(allow[i].scope) { return Some(OverbroadAllowRule); }
      if !SafeRestore(allow[i].scope) { return Some(UntrustedRestoreDestination); }
    }
    assert allow[..|allow|] == allow;
  }

  lemma ScopesOfRules(deny: seq<DenyRule>, allow: seq<AllowRule>)
    ensures var scopes := DenyScopes(deny) + AllowScopes(allow);
            && (forall x <- deny :: x.scope in scopes) && (forall x <- allow :: x.scope in scopes)
            && (forall s <- scopes :: (exists x <- deny :: x.scope == s) || (exists x <- allow :: x.scope == s))
  {
    var scopes := DenyScopes(deny) + AllowScopes(allow);
    forall x <- deny ensures x.scope in scopes {
      var i :| 0 <= i < |deny| && deny[i] == x;
      assert scopes[i] == x.scope;
    }
    forall x <- allow ensures x.scope in scopes {
      var i :| 0 <= i < |allow| && allow[i] == x;
      assert scopes[|deny| + i] == x.scope;
    }
    forall s <- scopes ensures (exists x <- deny :: x.scope == s) || (exists x <- allow :: x.scope == s) {
      var i :| 0 <= i < |scopes| && scopes[i] == s;
      if i < |deny| { assert deny[i] in deny; } else { assert allow[i - |deny|] in allow; }
    }
  }

  method New(preset: Request -> Action, deny: seq<DenyRule>, allow: seq<AllowRule>) returns (p: Policy)
    ensures p.preset == preset && p.deny == deny && p.allow == allow
    ensures WellFormed(p) && (p.error.Some? ==> Justifies(deny, allow, p.error.value))
  {
    var error := ValidateRules(deny, allow);
    return Policy(preset, deny, allow, error);
  }

  ghost predicate WellFormed(p: Policy) { p.error.None? <==> ValidRules(p.deny, p.allow) }

  // ---- Evaluation -------------------------------------------------------------------------

  /** The kept rule with the least identifier, the first of them in a tie. */
  function LeastBy<R>(rules: seq<R>, id: R -> nat, keep: R -> bool): Option<R> {
    if rules == [] then None
    else
      var rest := LeastBy(rules[1..], id, keep);
      if keep(rules[0]) && (rest.None? || id(rules[0]) <= id(rest.value)) then Some(rules[0]) else rest
  }

  function DenyFor(request: Request): DenyRule -> bool { (r: DenyRule) => Matches(r.scope, request) }

  function AllowFor(request: Request, now: nat): AllowRule -> bool {
    (r: AllowRule) => Matches(r.scope, request) && IsActive(r, now)
  }

  function DenyId(): DenyRule -> nat { (r: DenyRule) => r.id }

  function AllowId(): AllowRule -> nat { (r: AllowRule) => r.id }

  function PresetAction(p: Policy, request: Request): Action {
    if request.operation.Restoring? then Block else p.preset(request)
  }

  function EvaluateAt(p: Policy, request: Request, now: nat): Decision {
    if ViolatesInvariant(request) then Decision(Block, Invariant, None, None)
    else if p.error.Some? then Decision(Block, InvalidPolicy, None, None)
    else
      var deny := LeastBy(p.deny, DenyId(), DenyFor(request));
      if deny.Some? then Decision(Block, ExplicitDeny, Some(deny.value.id), None)
      else
        var allow := LeastBy(p.allow, AllowId(), AllowFor(request, now));
        if allow.Some? then
          Decision(if request.operation.Disclose? then Allow else Restore, ExplicitAllow, Some(allow.value.id), Some(allow.value.reason))
        else Decision(PresetAction(p, request), Preset, None, None)
  }

  ghost predicate Kept<R>(rules: seq<R>, keep: R -> bool) { exists r <- rules :: keep(r) }

  lemma {:induction false} LeastByIsLeast<R>(rules: seq<R>, id: R -> nat, keep: R -> bool)
    ensures var least := LeastBy(rules, id, keep);
            && (least.Some? <==> Kept(rules, keep))
            && (least.Some? ==> least.value in rules && keep(least.value) && forall r <- rules :: keep(r) ==> id(least.value) <= id(r))
  {
    if rules != [] {
      LeastByIsLeast(rules[1..], id, keep);
      assert rules == [rules[0]] + rules[1..];
      assert keep(rules[0]) ==> rules[0] in rules;
    }
  }

  ghost predicate Identified<R>(rules: seq<R>, id: R -> nat) { forall a <- rules, b <- rules :: id(a) == id(b) ==> a == b }

  /** Among rules told apart by their identifiers the order does not matter. */
  lemma LeastByPermuted<R>(a: seq<R>, b: seq<R>, id: R -> nat, keep: R -> bool)
    requires multiset(a) == multiset(b) && Identified(a, id)
    ensures LeastBy(a, id, keep) == LeastBy(b, id, keep)
  {
    SameMembers(a, b);
    LeastByIsLeast(a, id, keep);
    LeastByIsLeast(b, id, keep);
    var x, y := LeastBy(a, id, keep), LeastBy(b, id, keep);
    if x.Some? { assert x.value in b && keep(x.value); }
    if y.Some? { assert y.value in a && keep(y.value); }
  }

  lemma SameMembers<R>(a: seq<R>, b: seq<R>)
    requires multiset(a) == multiset(b)
    ensures forall x :: x in a <==> x in b
  {
    assert forall x :: x in a <==> x in multiset(a);
    assert forall x :: x in b <==> x in multiset(b);
  }

  // ---- Validity does not depend on the order ----------------------------------------------

  ghost predicate Separate(deny: seq<DenyRule>, allow: seq<AllowRule>) { forall d <- deny, a <- allow :: d.id != a.id }

  lemma DistinctByKey<R>(rules: seq<R>, id: R -> nat, ids: seq<nat>)
    requires |ids| == |rules| && forall i :: 0 <= i < |ids| ==> ids[i] == id(rules[i])
    ensures Distinct(ids) <==> Distinct(rules) && Identified(rules, id)
  {
    if Distinct(ids) {
      forall a <- rules, b <- rules | id(a) == id(b) ensures a == b {
        var i :| 0 <= i < |rules| && rules[i] == a;
        var j :| 0 <= j < |rules| && rules[j] == b;
        assert ids[i] == ids[j];
      }
    }
    if Distinct(rules) && Identified(rules, id) {
      forall i, j | 0 <= i < j < |ids| ensures ids[i] != ids[j] { assert rules[i] in rules && rules[j] in rules; }
    }
  }

  lemma DistinctIds(deny: seq<DenyRule>, allow: seq<AllowRule>)
    ensures Distinct(DenyIds(deny) + AllowIds(allow))
            <==> Distinct(deny) && Distinct(allow) && Identified(deny, DenyId()) && Identified(allow, AllowId()) && Separate(deny, allow)
  {
    var a, b := DenyIds(deny), AllowIds(allow);
    DistinctByKey(deny, DenyId(), a);
    DistinctByKey(allow, AllowId(), b);
    if Distinct(a + b) {
      forall i, j | 0 <= i < j < |a| ensures a[i] != a[j] { assert (a + b)[i] == a[i] && (a + b)[j] == a[j]; }
      forall i, j | 0 <= i < j < |b| ensures b[i] != b[j] { assert (a + b)[|a| + i] == b[i] && (a + b)[|a| + j] == b[j]; }
      forall d <- deny, r <- allow ensures d.id != r.id {
        var i :| 0 <= i < |deny| && deny[i] == d;
        var j :| 0 <= j < |allow| && allow[j] == r;
        assert (a + b)[i] == d.id && (a + b)[|a| + j] == r.id;
      }
    }
    if Distinct(a) && Distinct(b) && Separate(deny, allow) {
      forall x <- a ensures x !in b {
        var i :| 0 <= i < |a| && a[i] == x;
        forall j | 0 <= j < |b| ensures b[j] != x { assert deny[i] in deny && allow[j] in allow; }
      }
      DistinctBoth(a, b);
    }
  }

  lemma PermutedDistinct<R>(a: seq<R>, b: seq<R>)
    requires multiset(a) == multiset(b)
    ensures Distinct(a) <==> Distinct(b)
  {
    DistinctCounts(a);
    DistinctCounts(b);
  }

  lemma ValidityPermuted(deny: seq<DenyRule>, deny': seq<DenyRule>, allow: seq<AllowRule>, allow': seq<AllowRule>)
    requires multiset(deny) == multiset(deny') && multiset(allow) == multiset(allow')
    ensures ValidRules(deny, allow) <==> ValidRules(deny', allow')
  {
    SameMembers(deny, deny');
    SameMembers(allow, allow');
    PermutedDistinct(deny, deny');
    PermutedDistinct(allow, allow');
    DistinctIds(deny, allow);
    DistinctIds(deny', allow');
  }

  /** The whole decision, explanation included, is the same for rules in any order, valid or not. */
  lemma OrderDoesNotMatter(p: Policy, q: Policy, request: Request, now: nat)
    requires WellFormed(p) && WellFormed(q) && p.preset == q.preset
    requires multiset(p.deny) == multiset(q.deny) && multiset(p.allow) == multiset(q.allow)
    ensures EvaluateAt(p, request, now) == EvaluateAt(q, request, now)
  {
    ValidityPermuted(p.deny, q.deny, p.allow, q.allow);
    if p.error.None? {
      DistinctIds(p.deny, p.allow);
      LeastByPermuted(p.deny, q.deny, DenyId(), DenyFor(request));
      LeastByPermuted(p.allow, q.allow, AllowId(), AllowFor(request, now));
    }
  }

  // ---- What rules can and cannot do -------------------------------------------------------

  lemma {:induction false} DistinctInsert<R>(a: seq<R>, x: R, b: seq<R>)
    requires Distinct(a + [x] + b)
    ensures Distinct(a + b)
  {
    var all := a + [x] + b;
    forall i, j | 0 <= i < j < |a + b| ensures (a + b)[i] != (a + b)[j] {
      var i', j' := if i < |a| then i else i + 1, if j < |a| then j else j + 1;
      assert all[i'] == (a + b)[i] && all[j'] == (a + b)[j];
    }
  }

  lemma FewerRulesStayValid(a: seq<DenyRule>, rule: DenyRule, b: seq<DenyRule>, allow: seq<AllowRule>)
    requires ValidRules(a + [rule] + b, allow)
    ensures ValidRules(a + b, allow)
  {
    var ids := DenyIds(a + [rule] + b) + AllowIds(allow);
    var tail := DenyIds(b) + AllowIds(allow);
    assert ids == DenyIds(a) + [rule.id] + tail;
    DistinctInsert(DenyIds(a), rule.id, tail);
    assert DenyIds(a + b) + AllowIds(allow) == DenyIds(a) + tail;
    assert forall r <- a + b :: r in a + [rule] + b;
  }

  /** A deny rule added anywhere yields the same action or a block. */
  lemma DenyOnlyTightens(p: Policy, q: Policy, a: seq<DenyRule>, rule: DenyRule, b: seq<DenyRule>, request: Request, now: nat)
    requires WellFormed(p) && WellFormed(q) && p.preset == q.preset && p.allow == q.allow
    requires p.deny == a + b && q.deny == a + [rule] + b
    ensures EvaluateAt(q, request, now).action in {EvaluateAt(p, request, now).action, Block}
  {
    if q.error.None? {
      FewerRulesStayValid(a, rule, b, p.allow);
      LeastByIsLeast(p.deny, DenyId(), DenyFor(request));
      LeastByIsLeast(q.deny, DenyId(), DenyFor(request));
      assert forall r <- p.deny :: r in q.deny;
    }
  }

  /** Secrets are disclosed to local processes, files and users only, and nothing of an unknown kind is let through anywhere. */
  predicate Permissible(r: Request) {
    && r.destination != FutureDestination && r.source != Unsupported && r.sensitivity != FutureSensitivity && r.kind != FutureKind
    && (r.operation == Restoring ==> r.destination in {ChildProcess, TrustedLocal})
    && (r.operation == Disclose ==>
          r.sensitivity in {Public, Internal, Confidential} || r.destination in {ChildProcess, FileOutput, User, TrustedLocal})
  }

  /** The order of precedence, and that an explicit decision names the least matching rule. */
  lemma Precedence(p: Policy, request: Request, now: nat)
    requires WellFormed(p)
    ensures var d := EvaluateAt(p, request, now);
            var valid := !ViolatesInvariant(request) && ValidRules(p.deny, p.allow);
            var denied, allowed := Kept(p.deny, DenyFor(request)), Kept(p.allow, AllowFor(request, now));
            && (d.basis.Invariant? <==> !Permissible(request)) && (ViolatesInvariant(request) <==> !Permissible(request))
            && (d.basis.InvalidPolicy? <==> !ViolatesInvariant(request) && !ValidRules(p.deny, p.allow))
            && (d.basis.ExplicitDeny? <==> valid && denied)
            && (d.basis.ExplicitAllow? <==> valid && !denied && allowed)
            && (d.basis.Preset? <==> valid && !denied && !allowed)
            && (d.basis.Invariant? || d.basis.InvalidPolicy? || d.basis.ExplicitDeny? ==> d.action == Block)
            && (d.basis.ExplicitDeny? ==> d.ruleId.Some? && forall r <- p.deny :: Matches(r.scope, request) ==> d.ruleId.value <= r.id)
            && (d.basis.Preset? ==> d.action == if request.operation == Disclose then p.preset(request) else Block)
            && (d.basis.ExplicitAllow? ==> d.action == if request.operation == Disclose then Allow else Restore)
            && (d.basis.ExplicitAllow? ==>
                exists r <- p.allow :: Matches(r.scope, request) && IsActive(r, now) && d.ruleId == Some(r.id) && d.reason == Some(r.reason))
  {
    LeastByIsLeast(p.deny, DenyId(), DenyFor(request));
    LeastByIsLeast(p.allow, AllowId(), AllowFor(request, now));
    var deny, allow := LeastBy(p.deny, DenyId(), DenyFor(request)), LeastBy(p.allow, AllowId(), AllowFor(request, now));
    if deny.Some? {
      forall r <- p.deny | Matches(r.scope, request) ensures deny.value.id <= r.id { assert DenyFor(request)(r); }
    }
    if allow.Some? { assert AllowFor(request, now)(allow.value); }
  }

  /** A preset never restores. */
  ghost predicate Tame(preset: Request -> Action) { forall r :: preset(r) != Restore }

  /** Restoring takes a valid policy, an active matching allow rule, no matching deny rule and a trusted destination. */
  lemma RestoreExactly(p: Policy, request: Request, now: nat)
    requires WellFormed(p) && Tame(p.preset)
    ensures EvaluateAt(p, request, now).action == Restore
            <==> && request.operation.Restoring? && !ViolatesInvariant(request) && ValidRules(p.deny, p.allow)
                 && !Kept(p.deny, DenyFor(request)) && Kept(p.allow, AllowFor(request, now))
    ensures EvaluateAt(p, request, now).action == Restore ==> Trusted(request.destination)
  {
    LeastByIsLeast(p.deny, DenyId(), DenyFor(request));
    LeastByIsLeast(p.allow, AllowId(), AllowFor(request, now));
  }

  function Permissiveness(a: Action): nat {
    match a case Block => 0 case Redact => 1 case Warn => 2 case Allow => 3 case Restore => 4
  }

  /** As time passes an action only becomes stricter. */
  lemma TimeOnlyTightens(p: Policy, request: Request, now: nat, later: nat)
    requires Tame(p.preset) && now <= later
    ensures Permissiveness(EvaluateAt(p, request, later).action) <= Permissiveness(EvaluateAt(p, request, now).action)
  {
    LeastByIsLeast(p.allow, AllowId(), AllowFor(request, now));
    LeastByIsLeast(p.allow, AllowId(), AllowFor(request, later));
    forall r <- p.allow | AllowFor(request, later)(r) ensures AllowFor(request, now)(r) { }
  }
}
