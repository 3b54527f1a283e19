/**
 * Finding references again in text they were spliced into.
 *
 * A reference language has a marker prefix that every reference starts with. If no copied
 * stretch of text contains the prefix, and the prefix cannot overlap a copy of itself, then a
 * left-to-right scan finds exactly the references that were put in.
 */
module Tokens {
  import opened Seqs
  import opened Splicing

  /** Length of the reference at the front of a text, or 0 when there is none. */
  type Recognizer = string -> nat

  ghost predicate FoundByPrefix(recognize: Recognizer, prefix: string) {
    prefix != "" && forall s :: recognize(s) > 0 ==> StartsAt(s, 0, prefix)
  }

  ghost predicate Recognized(recognize: Recognizer, token: string) {
    token != "" && forall rest :: recognize(token + rest) == |token|
  }

  /** No proper suffix of the word is also a prefix of it. */
  predicate Unbordered(word: string) {
    forall k | 0 < k < |word| :: word[k..] != word[..|word| - k]
  }

  /** Replaces each reference by its value and copies everything else. */
  function Substitute(recognize: Recognizer, value: string -> string, s: string): string
    decreases |s|
  {
    if s == "" then ""
    else
      var k := recognize(s);
      if 0 < k <= |s| then value(s[..k]) + Substitute(recognize, value, s[k..])
      else [s[0]] + Substitute(recognize, value, s[1..])
  }

  function Values(value: string -> string, tokens: seq<string>): (values: seq<string>)
    ensures |values| == |tokens|
  {
    if tokens == [] then [] else [value(tokens[0])] + Values(value, tokens[1..])
  }

  /** No prefix starts among the first `n` positions. */
  ghost predicate Plain(prefix: string, s: string, n: nat) {
    forall j: nat :: j < n ==> !StartsAt(s, j, prefix)
  }

  /** The prefix starts nowhere in a stretch without it, even when a token follows directly. */
  lemma NoPrefixInGap(prefix: string, gap: string, rest: string)
    requires prefix != "" && Unbordered(prefix) && !Occurs(gap, prefix)
    requires rest == "" || prefix <= rest
    ensures Plain(prefix, gap + rest, |gap|)
  {
    var s := gap + rest;
    forall j: nat | j < |gap| ensures !StartsAt(s, j, prefix) {
      var k := |gap| - j;
      if |prefix| <= k {
        assert !StartsAt(gap, j, prefix);
        assert s[j..j + |prefix|] == gap[j..j + |prefix|];
      } else if j + |prefix| <= |s| {
        var window := s[j..j + |prefix|];
        assert window[k..] == rest[..|prefix| - k] == prefix[..|prefix| - k];
        assert prefix[k..] != window[k..];
      }
    }
  }

  lemma PlainTail(prefix: string, s: string, n: nat)
    requires 0 < n <= |s| && Plain(prefix, s, n)
    ensures Plain(prefix, s[1..], n - 1)
  {
    var t := s[1..];
    forall j: nat | j < n - 1 ensures !StartsAt(t, j, prefix) {
      assert !StartsAt(s, j + 1, prefix);
      assert j + |prefix| <= |t| ==> t[j..j + |prefix|] == s[j + 1..j + 1 + |prefix|];
    }
  }

  lemma {:induction false} SubstituteCopies(recognize: Recognizer, value: string -> string, prefix: string, s: string, n: nat)
    requires FoundByPrefix(recognize, prefix) && n <= |s| && Plain(prefix, s, n)
    ensures Substitute(recognize, value, s) == s[..n] + Substitute(recognize, value, s[n..])
  {
    if n == 0 {
      assert s[0..] == s && s[..0] == "";
    } else {
      var t := s[1..];
      PlainTail(prefix, s, n);
      SubstituteCopies(recognize, value, prefix, t, n - 1);
      SubstituteLiteral(recognize, value, prefix, s);
      assert t[n - 1..] == s[n..];
      assert s[..n] == [s[0]] + t[..n - 1];
      ConcatAssociates([s[0]], t[..n - 1], Substitute(recognize, value, s[n..]));
    }
  }

  lemma SubstituteLiteral(recognize: Recognizer, value: string -> string, prefix: string, s: string)
    requires FoundByPrefix(recognize, prefix) && s != "" && !StartsAt(s, 0, prefix)
    ensures Substitute(recognize, value, s) == [s[0]] + Substitute(recognize, value, s[1..])
  {
    assert recognize(s) == 0;
  }

  /** Substituting in a text woven from gaps and references yields the gaps woven with the values. */
  lemma {:induction false} SubstituteInterleaved(recognize: Recognizer, value: string -> string, prefix: string,
                                                 gaps: seq<string>, tokens: seq<string>)
    requires |gaps| == |tokens| + 1
    requires FoundByPrefix(recognize, prefix) && Unbordered(prefix)
    requires forall gap <- gaps :: !Occurs(gap, prefix)
    requires forall token <- tokens :: Recognized(recognize, token) && prefix <= token
    ensures Substitute(recognize, value, Interleave(gaps, tokens)) == Interleave(gaps, Values(value, tokens))
  {
    var gap := gaps[0];
    if tokens == [] {
      assert gap + "" == gap;
      NoPrefixInGap(prefix, gap, "");
      SubstituteCopies(recognize, value, prefix, gap, |gap|);
      assert gap[..|gap|] == gap && gap[|gap|..] == "";
    } else {
      var token, after := tokens[0], Interleave(gaps[1..], tokens[1..]);
      var rest := token + after;
      SubstituteFirst(recognize, value, prefix, gap, token, after);
      SubstituteInterleaved(recognize, value, prefix, gaps[1..], tokens[1..]);
      ConcatAssociates(gap, token, after);
      assert Values(value, tokens)[1..] == Values(value, tokens[1..]);
    }
  }

  lemma SubstituteFirst(recognize: Recognizer, value: string -> string, prefix: string, gap: string, token: string, after: string)
    requires FoundByPrefix(recognize, prefix) && Unbordered(prefix) && !Occurs(gap, prefix)
    requires Recognized(recognize, token) && prefix <= token
    ensures Substitute(recognize, value, gap + (token + after)) == gap + value(token) + Substitute(recognize, value, after)
  {
    var rest := token + after;
    var s := gap + rest;
    assert prefix <= rest;
    NoPrefixInGap(prefix, gap, rest);
    SubstituteCopies(recognize, value, prefix, s, |gap|);
    assert s[..|gap|] == gap && s[|gap|..] == rest;
    assert recognize(rest) == |token| && rest[..|token|] == token && rest[|token|..] == after;
    ConcatAssociates(gap, value(token), Substitute(recognize, value, after));
  }
}
