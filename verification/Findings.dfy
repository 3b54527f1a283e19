/** Detector findings and the resolution of overlapping ones, as in `blindfold-detectors`. */
module Findings {
  import opened Seqs

  datatype Confidence = Contextual | High | Certain

  datatype SecretKind =
    | OpenAiApiKey | AnthropicApiKey | GitHubToken | StripeKey | SlackToken
    | AwsAccessKeyId | AwsSecretAccessKey | BearerToken | JsonWebToken | OAuthToken
    | PemPrivateKey | CredentialUrl | EmailAddress | PhoneNumber | Password | ApiKey | Token

  datatype RawSpan = Span(start: nat, end: nat)

  /** Half-open and never empty: `Span::new` refuses anything else. */
  type Span = s: RawSpan | s.start < s.end witness Span(0, 1)

  predicate Overlaps(a: Span, b: Span) { a.start < b.end && b.start < a.end }

  /** All that ranks a finding and places it. */
  datatype Shape = Shape(kind: SecretKind, span: Span, confidence: Confidence)

  datatype Finding = Finding(shape: Shape, detector: string)

  function ConfidenceRank(c: Confidence): nat {
    match c case Contextual => 0 case High => 1 case Certain => 2
  }

  /** Position in the declaration, which is the derived order of kinds. */
  function KindRank(k: SecretKind): nat {
    match k
    case OpenAiApiKey => 0 case AnthropicApiKey => 1 case GitHubToken => 2 case StripeKey => 3
    case SlackToken => 4 case AwsAccessKeyId => 5 case AwsSecretAccessKey => 6 case BearerToken => 7
    case JsonWebToken => 8 case OAuthToken => 9 case PemPrivateKey => 10 case CredentialUrl => 11
    case EmailAddress => 12 case PhoneNumber => 13 case Password => 14 case ApiKey => 15 case Token => 16
  }

  function Length(f: Shape): nat { f.span.end - f.span.start }

  /** Higher confidence first, then longer, then earlier, then by kind. */
  predicate Precedes(a: Shape, b: Shape) {
    var (ca, cb) := (ConfidenceRank(a.confidence), ConfidenceRank(b.confidence));
    ca > cb || (ca == cb &&
    (Length(a) > Length(b) || (Length(a) == Length(b) &&
    (a.span.start < b.span.start || (a.span.start == b.span.start &&
    KindRank(a.kind) <= KindRank(b.kind))))))
  }

  predicate Ranked(a: Finding, b: Finding) { Precedes(a.shape, b.shape) }

  predicate Positioned(a: Finding, b: Finding) {
    var (s, t) := (a.shape.span, b.shape.span);
    s.start < t.start || (s.start == t.start && s.end <= t.end)
  }

  function Shapes(findings: seq<Finding>): seq<Shape> { seq(|findings|, i requires 0 <= i < |findings| => findings[i].shape) }

  /** Sorted by position, no two sharing a byte. */
  ghost predicate Disjoint(kept: seq<Shape>) {
    forall i, j :: 0 <= i < j < |kept| ==> kept[i].span.end <= kept[j].span.start
  }

  ghost predicate Represented(f: Shape, kept: seq<Shape>) {
    exists g <- kept :: Overlaps(g.span, f.span) && Precedes(g, f)
  }

  /** A disjoint selection in which every finding overlaps a kept one that outranks or equals it. */
  ghost predicate Resolution(findings: set<Shape>, kept: seq<Shape>) {
    && SetOf(kept) <= findings
    && Disjoint(kept)
    && (forall f <- findings :: Represented(f, kept))
  }

  method ResolveOverlaps(findings: seq<Finding>) returns (resolved: seq<Finding>)
    ensures SetOf(resolved) <= SetOf(findings)
    ensures Resolution(SetOf(Shapes(findings)), Shapes(resolved))
  {
    var ranked := SortUnstableBy(findings, Ranked);
    var selected := SelectGreedily(ranked);
    resolved := SortUnstableBy(selected, Positioned);
    SortedIsDisjoint(selected, resolved);
    ShapesOfPermutation(ranked, findings);
    ShapesOfPermutation(selected, resolved);
    RepresentedBySame(SetOf(Shapes(findings)), Shapes(selected), Shapes(resolved));
  }

  /** What is known after the first `i` findings: those selected, and how the others are represented. */
  ghost predicate Selected(ranked: seq<Finding>, i: nat, selected: seq<Finding>)
    requires i <= |ranked|
  {
    var shapes := Shapes(ranked);
    && SetOf(selected) <= SetOf(ranked[..i]) && Unshared(Shapes(selected))
    && SetOf(Shapes(selected)) <= SetOf(shapes[..i])
    && forall f <- SetOf(shapes[..i]) :: Represented(f, Shapes(selected))
  }

  lemma SelectedTakes(ranked: seq<Finding>, i: nat, selected: seq<Finding>)
    requires i < |ranked| && Selected(ranked, i, selected)
    requires forall g <- selected :: !Overlaps(g.shape.span, ranked[i].shape.span)
    ensures Selected(ranked, i + 1, selected + [ranked[i]])
  {
    var finding, shapes := ranked[i], Shapes(ranked);
    SetOfMore(ranked, i);
    SetOfMore(shapes, i);
    RepresentedStill(SetOf(shapes[..i]), Shapes(selected), finding.shape);
    SetOfAppend(selected, finding);
    assert Shapes(selected + [finding]) == Shapes(selected) + [finding.shape];
  }

  lemma SelectedSkips(ranked: seq<Finding>, i: nat, selected: seq<Finding>)
    requires SortedBy(ranked, Ranked) && i < |ranked| && Selected(ranked, i, selected)
    requires exists g <- selected :: Overlaps(g.shape.span, ranked[i].shape.span)
    ensures Selected(ranked, i + 1, selected)
  {
    SetOfMore(ranked, i);
    SetOfMore(Shapes(ranked), i);
    RepresentedByEarlier(ranked, i, selected);
  }

  /** Takes each finding, best first, that shares no byte with one already taken. */
  method SelectGreedily(ranked: seq<Finding>) returns (selected: seq<Finding>)
    requires SortedBy(ranked, Ranked)
    ensures SetOf(selected) <= SetOf(ranked)
    ensures Unshared(Shapes(selected))
    ensures SetOf(Shapes(selected)) <= SetOf(Shapes(ranked))
    ensures forall f <- SetOf(Shapes(ranked)) :: Represented(f, Shapes(selected))
  {
    selected := [];
    for i := 0 to |ranked|
      invariant Selected(ranked, i, selected)
    {
      if forall g <- selected :: !Overlaps(g.shape.span, ranked[i].shape.span) {
        SelectedTakes(ranked, i, selected);
        selected := selected + [ranked[i]];
      } else {
        SelectedSkips(ranked, i, selected);
      }
    }
    assert ranked[..|ranked|] == ranked && Shapes(ranked)[..|ranked|] == Shapes(ranked);
  }

  /** No two entries share a byte, in whatever order they stand. */
  ghost predicate Unshared(kept: seq<Shape>) {
    forall i, j :: 0 <= i < j < |kept| ==> !Overlaps(kept[i].span, kept[j].span)
  }

  lemma ShapesOfPermutation(a: seq<Finding>, b: seq<Finding>)
    requires SetOf(a) == SetOf(b)
    ensures SetOf(Shapes(a)) == SetOf(Shapes(b))
  {
    ShapesOfSubset(a, b);
    ShapesOfSubset(b, a);
  }

  lemma ShapesOfSubset(a: seq<Finding>, b: seq<Finding>)
    requires SetOf(a) <= SetOf(b)
    ensures SetOf(Shapes(a)) <= SetOf(Shapes(b))
  {
    forall f <- SetOf(Shapes(a)) ensures f in SetOf(Shapes(b)) {
      var i :| 0 <= i < |a| && Shapes(a)[i] == f;
      assert a[i] in SetOf(b);
      var j :| 0 <= j < |b| && b[j] == a[i];
      assert Shapes(b)[j] == f;
    }
  }

  lemma RepresentedStill(seen: set<Shape>, kept: seq<Shape>, more: Shape)
    requires forall f <- seen :: Represented(f, kept)
    ensures forall f <- seen + {more} :: Represented(f, kept + [more])
    ensures SetOf(kept + [more]) == SetOf(kept) + {more}
  {
    SetOfAppend(kept, more);
    forall f <- seen + {more} ensures Represented(f, kept + [more]) {
      if f in seen {
        var g :| g in kept && Overlaps(g.span, f.span) && Precedes(g, f);
        assert g in kept + [more];
      } else {
        assert more in kept + [more];
      }
    }
  }

  lemma RepresentedByEarlier(ranked: seq<Finding>, i: nat, kept: seq<Finding>)
    requires SortedBy(ranked, Ranked) && i < |ranked| && SetOf(kept) <= SetOf(ranked[..i])
    requires exists g <- kept :: Overlaps(g.shape.span, ranked[i].shape.span)
    ensures Represented(ranked[i].shape, Shapes(kept))
  {
    var g :| g in kept && Overlaps(g.shape.span, ranked[i].shape.span);
    assert g in SetOf(ranked[..i]);
    var k :| 0 <= k < i && ranked[..i][k] == g;
    assert Ranked(ranked[k], ranked[i]);
    var m :| 0 <= m < |kept| && kept[m] == g;
    assert Shapes(kept)[m] == g.shape;
  }

  lemma RepresentedBySame(findings: set<Shape>, a: seq<Shape>, b: seq<Shape>)
    requires SetOf(a) == SetOf(b) && SetOf(a) <= findings && Disjoint(b)
    requires forall f <- findings :: Represented(f, a)
    ensures Resolution(findings, b)
  {
    forall f <- findings ensures Represented(f, b) {
      var g :| g in a && Overlaps(g.span, f.span) && Precedes(g, f);
      assert g in SetOf(a);
    }
  }

  lemma SortedIsDisjoint(selected: seq<Finding>, resolved: seq<Finding>)
    requires Unshared(Shapes(selected)) && multiset(resolved) == multiset(selected)
    requires SortedBy(resolved, Positioned)
    ensures Disjoint(Shapes(resolved))
  {
    forall i, j | 0 <= i < j < |resolved|
      ensures resolved[i].shape.span.end <= resolved[j].shape.span.start
    {
      UnsharedPermuted(selected, resolved, i, j);
      assert Positioned(resolved[i], resolved[j]);
    }
  }

  /** Two places of a permutation hold elements from two places of the original. */
  lemma UnsharedPermuted(selected: seq<Finding>, resolved: seq<Finding>, i: nat, j: nat)
    requires Unshared(Shapes(selected)) && multiset(resolved) == multiset(selected)
    requires i < j < |resolved|
    ensures !Overlaps(resolved[i].shape.span, resolved[j].shape.span)
  {
    var a, b := resolved[i], resolved[j];
    assert a in multiset(resolved) && b in multiset(resolved);
    var m :| 0 <= m < |selected| && selected[m] == a;
    var n :| 0 <= n < |selected| && selected[n] == b;
    var shapes := Shapes(selected);
    assert shapes[m] == a.shape && shapes[n] == b.shape;
    if a == b {
      assert resolved == resolved[..i] + [a] + resolved[i + 1..];
      assert resolved[i + 1..][j - i - 1] == b;
      assert multiset(resolved)[a] >= 2;
      UnsharedIsUnique(selected, a);
    }
  }

  lemma {:induction false} UnsharedIsUnique(selected: seq<Finding>, f: Finding)
    requires Unshared(Shapes(selected))
    ensures multiset(selected)[f] <= 1
  {
    if selected != [] {
      var rest := selected[1..];
      assert selected == [selected[0]] + rest;
      assert forall i :: 0 <= i < |rest| ==> Shapes(rest)[i] == Shapes(selected)[i + 1];
      UnsharedIsUnique(rest, f);
      forall k | 0 <= k < |rest| ensures rest[k] != selected[0] {
        assert !Overlaps(Shapes(selected)[0].span, Shapes(selected)[k + 1].span);
      }
    }
  }

  // ---- The result is determined by the findings themselves --------------------------------

  lemma OneOfOverlapping(kept: seq<Shape>, f: Shape, g: Shape)
    requires Disjoint(kept) && f in kept && g in kept && Overlaps(f.span, g.span)
    ensures f == g
  {
    var i :| 0 <= i < |kept| && kept[i] == f;
    var j :| 0 <= j < |kept| && kept[j] == g;
    assert !(i < j) && !(j < i);
  }

  /** A different finding that outranks or equals `f` comes strictly before it in the order of ranks. */
  lemma OutranksStrictly(f: Shape, g: Shape)
    requires Precedes(g, f) && f != g
    ensures || ConfidenceRank(g.confidence) > ConfidenceRank(f.confidence)
            || (ConfidenceRank(g.confidence) == ConfidenceRank(f.confidence)
                && (|| Length(g) > Length(f)
                    || (Length(g) == Length(f)
                        && (g.span.start < f.span.start || (g.span.start == f.span.start && KindRank(g.kind) < KindRank(f.kind))))))
  {
  }

  lemma Representative(findings: set<Shape>, a: seq<Shape>, b: seq<Shape>, f: Shape) returns (g: Shape)
    requires Resolution(findings, a) && Resolution(findings, b) && f in a
    ensures f in findings && g in b && g in findings && Overlaps(g.span, f.span) && Precedes(g, f)
  {
    assert f in SetOf(a) && Represented(f, b);
    g :| g in b && Overlaps(g.span, f.span) && Precedes(g, f);
    assert g in SetOf(b);
  }

  /** What one resolution keeps, every resolution keeps: by induction on rank. */
  lemma {:induction false} KeptByBoth(findings: set<Shape>, a: seq<Shape>, b: seq<Shape>, f: Shape, longest: nat)
    requires Resolution(findings, a) && Resolution(findings, b) && f in a
    requires forall g <- findings :: Length(g) <= longest
    ensures f in b
    decreases 2 - ConfidenceRank(f.confidence), longest - Length(f), f.span.start, KindRank(f.kind)
  {
    var g := Representative(findings, a, b, f);
    if f != g {
      OutranksStrictly(f, g);
      KeptByBoth(findings, b, a, g, longest);
      OneOfOverlapping(a, f, g);
    }
  }

  lemma {:induction false} SameSequence(a: seq<Shape>, b: seq<Shape>)
    requires Disjoint(a) && Disjoint(b) && SetOf(a) == SetOf(b)
    ensures a == b
  {
    SetOfEmpty(a);
    SetOfEmpty(b);
    if a != [] && b != [] {
      SameFirst(a, b);
      TailSubset(a, b);
      TailSubset(b, a);
      SameSequence(a[1..], b[1..]);
      assert a == [a[0]] + a[1..] && b == [b[0]] + b[1..];
    }
  }

  lemma SameFirst(a: seq<Shape>, b: seq<Shape>)
    requires a != [] && b != [] && Disjoint(a) && Disjoint(b) && SetOf(a) == SetOf(b)
    ensures a[0] == b[0]
  {
    assert a[0] in SetOf(b) && b[0] in SetOf(a);
    var i :| 0 <= i < |a| && a[i] == b[0];
    var j :| 0 <= j < |b| && b[j] == a[0];
  }

  lemma TailSubset(a: seq<Shape>, b: seq<Shape>)
    requires a != [] && b != [] && Disjoint(a) && Disjoint(b) && SetOf(a) == SetOf(b) && a[0] == b[0]
    ensures SetOf(a[1..]) <= SetOf(b[1..])
  {
    forall f <- SetOf(a[1..]) ensures f in SetOf(b[1..]) {
      var i :| 0 <= i < |a| - 1 && a[1..][i] == f;
      assert f == a[i + 1] && f in SetOf(a);
      var j :| 0 <= j < |b| && b[j] == f;
      assert b[1..][j - 1] == f;
    }
  }

  /** A set of findings has one resolution: order, repetitions and detector names do not matter. */
  lemma ResolutionIsUnique(findings: set<Shape>, a: seq<Shape>, b: seq<Shape>)
    requires Resolution(findings, a) && Resolution(findings, b)
    ensures a == b
  {
    var longest := LongestOf(findings);
    forall f ensures f in SetOf(a) <==> f in SetOf(b) {
      if f in a { KeptByBoth(findings, a, b, f, longest); }
      if f in b { KeptByBoth(findings, b, a, f, longest); }
    }
    SameSequence(a, b);
  }

  ghost function LongestOf(findings: set<Shape>): (longest: nat)
    ensures forall f <- findings :: Length(f) <= longest
  {
    if findings == {} then 0
    else
      var f :| f in findings;
      var rest := LongestOf(findings - {f});
      if Length(f) > rest then Length(f) else rest
  }
}
