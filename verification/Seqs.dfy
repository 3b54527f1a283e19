/** Sequence vocabulary shared by the models: occurrences, flattening and splitting. */
module Seqs {

  type Byte = x: int | 0 <= x < 256
  type Bytes = seq<Byte>

  datatype Option<+T> = None | Some(value: T)

  /** Whether `p` stands in `s` at offset `i`. */
  predicate StartsAt<T(==)>(s: seq<T>, i: nat, p: seq<T>) {
    i + |p| <= |s| && s[i..i + |p|] == p
  }

  /** Whether `p` stands anywhere in `s`. */
  predicate Occurs<T(==)>(s: seq<T>, p: seq<T>) {
    exists i: nat | i <= |s| :: StartsAt(s, i, p)
  }

  /** One differing element rules an occurrence out. */
  lemma DiffersAt<T>(s: seq<T>, j: nat, p: seq<T>, k: nat)
    requires k < |p| && (j + k < |s| ==> s[j + k] != p[k])
    ensures !StartsAt(s, j, p)
  {
    assert j + |p| <= |s| ==> s[j..j + |p|][k] == s[j + k];
  }

  lemma OccursWithin<T>(before: seq<T>, s: seq<T>, after: seq<T>, p: seq<T>)
    requires Occurs(s, p)
    ensures Occurs(before + s + after, p)
  {
    var i: nat :| i <= |s| && StartsAt(s, i, p);
    var whole, k := before + s + after, |before| + i;
    assert whole[k..k + |p|] == s[i..i + |p|];
    assert StartsAt(whole, k, p);
  }

  /** Lines, each with its end. */
  function Unlines(lines: seq<string>): string {
    if lines == [] then "" else lines[0] + "\n" + Unlines(lines[1..])
  }

  lemma ConcatAssociates<T>(a: seq<T>, b: seq<T>, c: seq<T>)
    ensures a + b + c == a + (b + c)
  {
  }

  // ---- The longest pattern at the front ------------------------------------------------

  /** The largest `k <= limit` such that the first `k` elements of `s` are a pattern, else 0. */
  function LongestUpTo<T(==)>(patterns: set<seq<T>>, s: seq<T>, limit: nat): (k: nat)
    requires limit <= |s|
    ensures k <= limit
    ensures k > 0 ==> s[..k] in patterns
    ensures forall j :: k < j <= limit ==> s[..j] !in patterns
  {
    if limit == 0 then 0
    else if s[..limit] in patterns then limit
    else LongestUpTo(patterns, s, limit - 1)
  }

  /** Length of the longest non-empty pattern that starts `s`, or 0 when none does. */
  function Longest<T(==)>(patterns: set<seq<T>>, s: seq<T>): (k: nat)
    ensures k <= |s|
    ensures k > 0 ==> s[..k] in patterns
    ensures forall j :: k < j <= |s| ==> s[..j] !in patterns
  {
    LongestUpTo(patterns, s, |s|)
  }

  function Min(a: int, b: int): int { if a <= b then a else b }

  const U64_MAX: nat := 0xFFFF_FFFF_FFFF_FFFF

  /** Addition on 64 bits that stops at the largest value; `usize` is 64 bits wide as well. */
  function SaturatingAdd(a: nat, b: nat): nat { Min(a + b, U64_MAX) }

  /** The first `n` elements of `s`, or all of them when there are fewer. */
  function Take<T>(s: seq<T>, n: nat): seq<T> { s[..Min(|s|, n)] }

  ghost function SetOf<T>(s: seq<T>): set<T> { set x <- s }

  lemma SetOfEmpty<T>(s: seq<T>)
    ensures SetOf(s) == {} <==> s == []
  {
    if s != [] { assert s[0] in SetOf(s); }
  }

  lemma SetOfAppend<T>(s: seq<T>, x: T)
    ensures SetOf(s + [x]) == SetOf(s) + {x}
  {
  }

  lemma SetOfMore<T>(s: seq<T>, i: nat)
    requires i < |s|
    ensures SetOf(s[..i + 1]) == SetOf(s[..i]) + {s[i]}
  {
    assert s[..i + 1] == s[..i] + [s[i]];
  }

  // ---- Sorting by a key -----------------------------------------------------------------

  ghost predicate TotalPreorder<T(!new)>(le: (T, T) -> bool) {
    && (forall a, b :: le(a, b) || le(b, a))
    && (forall a, b, c :: le(a, b) && le(b, c) ==> le(a, c))
  }

  ghost predicate SortedBy<T>(s: seq<T>, le: (T, T) -> bool) {
    forall i, j :: 0 <= i < j < |s| ==> le(s[i], s[j])
  }

  function InsertBy<T(!new)>(x: T, s: seq<T>, le: (T, T) -> bool): seq<T> {
    if s == [] || le(x, s[0]) then [x] + s else [s[0]] + InsertBy(x, s[1..], le)
  }

  lemma {:induction false} InsertByPermutes<T(!new)>(x: T, s: seq<T>, le: (T, T) -> bool)
    ensures multiset(InsertBy(x, s, le)) == multiset(s) + multiset{x}
  {
    if !(s == [] || le(x, s[0])) {
      InsertByPermutes(x, s[1..], le);
      assert s == [s[0]] + s[1..];
    }
  }

  lemma {:induction false} InsertBySorts<T(!new)>(x: T, s: seq<T>, le: (T, T) -> bool)
    requires TotalPreorder(le) && SortedBy(s, le)
    ensures SortedBy(InsertBy(x, s, le), le)
  {
    if !(s == [] || le(x, s[0])) {
      var rest := InsertBy(x, s[1..], le);
      InsertBySorts(x, s[1..], le);
      InsertByPermutes(x, s[1..], le);
      forall y | y in rest ensures le(s[0], y) {
        assert y in multiset(rest);
        assert y == x || y in s[1..];
      }
    }
  }

  function InsertAllBy<T(!new)>(s: seq<T>, le: (T, T) -> bool): seq<T> {
    if s == [] then [] else InsertBy(s[0], InsertAllBy(s[1..], le), le)
  }

  lemma {:induction false} InsertAllBySorts<T(!new)>(s: seq<T>, le: (T, T) -> bool)
    requires TotalPreorder(le)
    ensures multiset(InsertAllBy(s, le)) == multiset(s)
    ensures SortedBy(InsertAllBy(s, le), le)
  {
    if s != [] {
      InsertAllBySorts(s[1..], le);
      InsertByPermutes(s[0], InsertAllBy(s[1..], le), le);
      InsertBySorts(s[0], InsertAllBy(s[1..], le), le);
      assert s == [s[0]] + s[1..];
    }
  }

  /** An unstable sort: callers learn only that the result is a sorted permutation. */
  method SortUnstableBy<T(!new)>(s: seq<T>, le: (T, T) -> bool) returns (r: seq<T>)
    requires TotalPreorder(le)
    ensures multiset(r) == multiset(s)
    ensures SortedBy(r, le)
    ensures SetOf(r) == SetOf(s) && |r| == |s|
  {
    r := InsertAllBy(s, le);
    InsertAllBySorts(s, le);
    SamePermutation(r, s);
  }

  lemma SamePermutation<T>(a: seq<T>, b: seq<T>)
    requires multiset(a) == multiset(b)
    ensures SetOf(a) == SetOf(b) && |a| == |b|
  {
    assert |multiset(a)| == |a| && |multiset(b)| == |b|;
    assert forall x :: x in a <==> x in multiset(a);
    assert forall x :: x in b <==> x in multiset(b);
  }

  ghost predicate IsSuffix<T>(tail: seq<T>, s: seq<T>) {
    |tail| <= |s| && s[|s| - |tail|..] == tail
  }

  lemma SuffixOfSuffix<T>(a: seq<T>, b: seq<T>, s: seq<T>)
    requires IsSuffix(a, b) && IsSuffix(b, s)
    ensures IsSuffix(a, s)
  {
    assert s[|s| - |a|..] == s[|s| - |b|..][|b| - |a|..];
  }

  lemma SuffixAppend<T>(a: seq<T>, b: seq<T>, more: seq<T>)
    requires IsSuffix(a, b)
    ensures IsSuffix(a + more, b + more)
  {
    assert (b + more)[|b| - |a|..] == b[|b| - |a|..] + more;
  }

  /** The elements of `a`, in order, among those of `b`. */
  ghost predicate Subsequence<T>(a: seq<T>, b: seq<T>)
    decreases |b|
  {
    a == [] ||
    (b != [] &&
     var front := b[..|b| - 1];
     Subsequence(a, front) || (a[|a| - 1] == b[|b| - 1] && Subsequence(a[..|a| - 1], front)))
  }

  lemma SubsequenceAppend<T>(a: seq<T>, b: seq<T>, more: seq<T>)
    requires Subsequence(a, b) && |more| <= 1
    ensures Subsequence(a + more, b + more)
  {
    if more == [] {
      assert a + more == a && b + more == b;
    } else {
      assert (a + more)[..|a|] == a && (b + more)[..|b|] == b;
    }
  }

  lemma {:induction false} SubsequenceJoin<T>(a: seq<T>, b: seq<T>, more: seq<T>)
    requires Subsequence(a, b)
    ensures Subsequence(a + more, b + more)
    decreases |more|
  {
    if more == [] {
      assert a + more == a && b + more == b;
    } else {
      var front, last := more[..|more| - 1], [more[|more| - 1]];
      SubsequenceJoin(a, b, front);
      SubsequenceAppend(a + front, b + front, last);
      assert more == front + last;
      ConcatAssociates(a, front, last);
      ConcatAssociates(b, front, last);
    }
  }

  lemma {:induction false} SubsequenceWithin<T>(a: seq<T>, b: seq<T>, more: seq<T>)
    requires Subsequence(a, b)
    ensures Subsequence(a, b + more)
    decreases |more|
  {
    if more == [] {
      assert b + more == b;
    } else {
      SubsequenceWithin(a, b, more[..|more| - 1]);
      assert (b + more)[..|b + more| - 1] == b + more[..|more| - 1];
    }
  }

  lemma {:induction false} SubsequenceMembers<T>(a: seq<T>, b: seq<T>)
    requires Subsequence(a, b)
    ensures forall x <- a :: x in b
    decreases |b|
  {
    if a != [] {
      var front := b[..|b| - 1];
      if Subsequence(a, front) {
        SubsequenceMembers(a, front);
      } else {
        SubsequenceMembers(a[..|a| - 1], front);
        assert a == a[..|a| - 1] + [a[|a| - 1]];
      }
    }
  }

  /** Dropping elements at either end leaves a subsequence. */
  lemma {:induction false} SubsequenceOfParts<T>(p: seq<T>, q: seq<T>, b: seq<T>)
    requires Subsequence(p + q, b)
    ensures Subsequence(p, b) && Subsequence(q, b)
    decreases |b|
  {
    if q == [] {
      assert p + q == p;
    } else {
      var front := b[..|b| - 1];
      if Subsequence(p + q, front) {
        SubsequenceOfParts(p, q, front);
      } else {
        assert (p + q)[..|p + q| - 1] == p + q[..|q| - 1];
        SubsequenceOfParts(p, q[..|q| - 1], front);
      }
    }
  }

  /** `head` before a result, if there is one. */
  function Prepend<T>(head: seq<T>, rest: Option<seq<T>>): Option<seq<T>> {
    if rest.None? then None else Some(head + rest.value)
  }

  lemma PrependTwice<T>(a: seq<T>, b: seq<T>, rest: Option<seq<T>>)
    ensures Prepend(a, Prepend(b, rest)) == Prepend(a + b, rest)
    ensures Prepend([], rest) == rest
  {
    if rest.Some? {
      assert a + (b + rest.value) == a + b + rest.value;
      assert [] + rest.value == rest.value;
    }
  }

  // ---- Splitting at a separator -----------------------------------------------------------

  /** The stretches between separators; one more stretch than there are separators. */
  function SplitOn<T(==)>(s: seq<T>, separator: T): (parts: seq<seq<T>>)
    ensures parts != []
  {
    if s == [] then [[]]
    else
      var rest := SplitOn(s[1..], separator);
      if s[0] == separator then [[]] + rest else [[s[0]] + rest[0]] + rest[1..]
  }

  lemma {:induction false} SplitOnFirst<T>(head: seq<T>, separator: T, rest: seq<T>)
    requires separator !in head
    ensures SplitOn(head + [separator] + rest, separator) == [head] + SplitOn(rest, separator)
  {
    var s := head + [separator] + rest;
    if head == [] {
      assert s[1..] == rest;
    } else {
      assert s[1..] == head[1..] + [separator] + rest;
      SplitOnFirst(head[1..], separator, rest);
      assert [s[0]] + head[1..] == head;
    }
  }

  lemma {:induction false} SplitOnNone<T>(s: seq<T>, separator: T)
    requires separator !in s
    ensures SplitOn(s, separator) == [s]
  {
    if s != [] {
      SplitOnNone(s[1..], separator);
      assert [s[0]] + s[1..] == s;
    }
  }

  /** Position of the first `x`, or the length when there is none. */
  function IndexOf<T(==)>(s: seq<T>, x: T): (i: nat)
    ensures i <= |s| && x !in s[..i]
    ensures i < |s| ==> s[i] == x
  {
    if s == [] || s[0] == x then 0
    else
      assert s == [s[0]] + s[1..];
      1 + IndexOf(s[1..], x)
  }

  /** The parts before and after the first `x`. */
  function SplitOnce<T(==)>(s: seq<T>, x: T): Option<(seq<T>, seq<T>)> {
    var i := IndexOf(s, x);
    if i < |s| then Some((s[..i], s[i + 1..])) else None
  }

  lemma SplitOnceAt<T>(head: seq<T>, x: T, rest: seq<T>)
    requires x !in head
    ensures SplitOnce(head + [x] + rest, x) == Some((head, rest))
  {
    var s := head + [x] + rest;
    var i := IndexOf(s, x);
    assert s[|head|] == x && forall k :: 0 <= k < |head| ==> s[k] == head[k];
    assert forall k :: 0 <= k < i ==> s[k] == s[..i][k];
    assert i == |head|;
    assert s[..i] == head && s[i + 1..] == rest;
  }

  lemma SplitOnceNone<T>(s: seq<T>, x: T)
    requires x !in s
    ensures SplitOnce(s, x).None?
  {
  }

  lemma SplitOnceRejoins<T>(s: seq<T>, x: T)
    ensures var parts := SplitOnce(s, x);
            parts.Some? ==> x !in parts.value.0 && s == parts.value.0 + [x] + parts.value.1
  {
  }

  function StripPrefix<T(==)>(s: seq<T>, prefix: seq<T>): Option<seq<T>> {
    if prefix <= s then Some(s[|prefix|..]) else None
  }

  lemma StripPrefixOf<T>(prefix: seq<T>, rest: seq<T>)
    ensures StripPrefix(prefix + rest, prefix) == Some(rest)
  {
    assert (prefix + rest)[|prefix|..] == rest;
  }

  function StripSuffix<T(==)>(s: seq<T>, suffix: seq<T>): Option<seq<T>> {
    if |suffix| <= |s| && s[|s| - |suffix|..] == suffix then Some(s[..|s| - |suffix|]) else None
  }

  // ---- Patterns tried longest first -------------------------------------------------------

  predicate NotShorter<T>(a: seq<T>, b: seq<T>) { |a| >= |b| }

  ghost predicate LongestFirst<T>(patterns: seq<seq<T>>) {
    forall i, j :: 0 <= i < j < |patterns| ==> |patterns[i]| >= |patterns[j]|
  }

  lemma StartsAtIsPrefix<T>(s: seq<T>, i: nat, p: seq<T>)
    requires i <= |s|
    ensures StartsAt(s, i, p) <==> p <= s[i..]
  {
    assert i + |p| <= |s| ==> s[i..i + |p|] == s[i..][..|p|];
  }

  /** Listed longest first, the first pattern that matches is a longest one. */
  lemma FirstIsLongest<T>(patterns: seq<seq<T>>, s: seq<T>, i: nat)
    requires LongestFirst(patterns) && [] !in patterns
    requires i < |patterns| && patterns[i] <= s
    requires forall j :: 0 <= j < i ==> !(patterns[j] <= s)
    ensures Longest(SetOf(patterns), s) == |patterns[i]|
  {
    var k := Longest(SetOf(patterns), s);
    assert s[..|patterns[i]|] == patterns[i];
    assert k > 0;
    var m :| 0 <= m < |patterns| && patterns[m] == s[..k];
    assert patterns[m] <= s;
  }

  lemma NoneMatches<T>(patterns: seq<seq<T>>, s: seq<T>)
    requires forall p <- patterns :: !(p <= s)
    ensures Longest(SetOf(patterns), s) == 0
  {
    var k := Longest(SetOf(patterns), s);
    assert s[..k] <= s;
  }

  // ---- No element twice -------------------------------------------------------------------

  ghost predicate Distinct<T>(s: seq<T>) { forall i, j :: 0 <= i < j < |s| ==> s[i] != s[j] }

  lemma {:induction false} DistinctCounts<T>(s: seq<T>)
    ensures Distinct(s) <==> forall x :: multiset(s)[x] <= 1
  {
    if s != [] {
      var front, last := s[..|s| - 1], s[|s| - 1];
      DistinctCounts(front);
      assert s == front + [last];
      assert multiset(s) == multiset(front) + multiset{last};
      assert last in front <==> multiset(front)[last] >= 1;
      if Distinct(s) { assert last !in front; }
      if forall x :: multiset(s)[x] <= 1 {
        forall x ensures multiset(front)[x] <= 1 { assert multiset(s)[x] <= 1; }
        assert multiset(s)[last] <= 1;
        assert last !in front;
      }
    }
  }

  lemma DistinctBoth<T>(a: seq<T>, b: seq<T>)
    requires Distinct(a) && Distinct(b) && forall x <- a :: x !in b
    ensures Distinct(a + b)
  {
    forall i, j | 0 <= i < j < |a + b| ensures (a + b)[i] != (a + b)[j] {
      if i < |a| <= j { assert a[i] in a && b[j - |a|] in b; }
    }
  }
}
