/**
 * Whether a value that is replaced wherever it occurs can still occur in the result: every occurrence,
 * leftmost and longest first, becomes a mark, and a value may be read off a mark and what surrounds it.
 */
module Leaks {
  import opened Seqs

  /** Leftmost-longest replacement of every pattern by its mark. */
  function Replaced<T(==)>(patterns: set<seq<T>>, mark: seq<T> -> seq<T>, s: seq<T>): seq<T>
    decreases |s|
  {
    if s == [] then []
    else
      var k := Longest(patterns, s);
      if k > 0 then mark(s[..k]) + Replaced(patterns, mark, s[k..]) else [s[0]] + Replaced(patterns, mark, s[1..])
  }

  /** No pattern ever occurs in the result. */
  ghost predicate NeverOccurs<T(!new)>(patterns: set<seq<T>>, mark: seq<T> -> seq<T>) {
    forall s: seq<T>, p <- patterns, i: nat :: !StartsAt(Replaced(patterns, mark, s), i, p)
  }

  /** One of two texts starts the other. */
  predicate Agree<T(==)>(a: seq<T>, b: seq<T>) { a <= b || b <= a }

  /** `p` can start inside the mark `m`: it lies within it, or starts with an end of it. */
  ghost predicate StartsWithin<T>(p: seq<T>, m: seq<T>) { exists i :: 0 <= i < |m| && Agree(m[i..], p) }

  /** From its `n`-th element on, `p` can be read off the mark `m` and what follows it. */
  predicate RunsInto<T(==)>(p: seq<T>, n: nat, m: seq<T>)
    requires n <= |p|
  {
    Agree(p[n..], m)
  }

  /** No end of `p` starts the mark and no end of the mark starts `p`; neither contains the other. */
  ghost predicate ClearOf<T>(p: seq<T>, m: seq<T>) {
    !StartsWithin(p, m) && forall n :: 0 < n < |p| ==> !RunsInto(p, n, m)
  }

  // ---- Values clear of all marks ----------------------------------------------------------

  lemma NoPatternAtFront<T>(patterns: set<seq<T>>, s: seq<T>, p: seq<T>)
    requires p in patterns && p != [] && Longest(patterns, s) == 0
    ensures !(p <= s)
  {
    if |p| <= |s| {
      assert s[..|p|] != p;
    }
  }

  lemma AgreeAfter<T>(a: seq<T>, b: seq<T>, rest: seq<T>)
    requires b <= a + rest
    ensures Agree(a, b)
  {
    if |b| <= |a| {
      assert b == (a + rest)[..|b|] == a[..|b|];
    } else {
      assert a == b[..|a|];
    }
  }

  lemma FrontElement<T>(b: T, rest: seq<T>, q: seq<T>)
    requires q != [] && q <= [b] + rest
    ensures q[0] == b && q[1..] <= rest
  {
    assert q[1..] == ([b] + rest)[1..][..|q| - 1];
  }

  lemma NotAtLater<T>(head: seq<T>, rest: seq<T>, p: seq<T>, i: nat)
    requires i >= |head| && !StartsAt(rest, i - |head|, p)
    ensures !StartsAt(head + rest, i, p)
  {
    var text := head + rest;
    assert i + |p| <= |text| ==> text[i..i + |p|] == rest[i - |head|..i - |head| + |p|];
  }

  lemma NotWithin<T>(m: seq<T>, rest: seq<T>, p: seq<T>, i: nat)
    requires !StartsWithin(p, m) && i < |m|
    ensures !StartsAt(m + rest, i, p)
  {
    if StartsAt(m + rest, i, p) {
      var text := m + rest;
      assert text[i..] == m[i..] + rest;
      assert p == text[i..i + |p|] == text[i..][..|p|];
      AgreeAfter(m[i..], p, rest);
    }
  }

  /** From `n` on, `q` can be read off no mark. */
  ghost predicate Avoids<T>(q: seq<T>, n: nat, patterns: set<seq<T>>, mark: seq<T> -> seq<T>) {
    forall j, w <- patterns :: n <= j < |q| ==> !RunsInto(q, j, mark(w))
  }

  lemma AvoidsTail<T>(q: seq<T>, patterns: set<seq<T>>, mark: seq<T> -> seq<T>)
    requires q != [] && Avoids(q, 1, patterns, mark)
    ensures Avoids(q[1..], 0, patterns, mark)
  {
    forall j, w <- patterns | 0 <= j < |q| - 1 ensures !RunsInto(q[1..], j, mark(w)) {
      assert !RunsInto(q, j + 1, mark(w)) && q[1..][j..] == q[j + 1..];
    }
  }

  /** Text that runs into no mark was copied from the input. */
  lemma {:induction false} CopiedFront<T>(patterns: set<seq<T>>, mark: seq<T> -> seq<T>, s: seq<T>, q: seq<T>)
    requires q <= Replaced(patterns, mark, s) && Avoids(q, 0, patterns, mark)
    ensures q <= s
    decreases |s|
  {
    if q != [] && s != [] {
      var k := Longest(patterns, s);
      if k > 0 {
        AgreeAfter(mark(s[..k]), q, Replaced(patterns, mark, s[k..]));
        assert q[0..] == q && s[..k] in patterns && RunsInto(q, 0, mark(s[..k]));
      } else {
        FrontElement(s[0], Replaced(patterns, mark, s[1..]), q);
        AvoidsTail(q, patterns, mark);
        CopiedFront(patterns, mark, s[1..], q[1..]);
        assert s == [s[0]] + s[1..] && q == [q[0]] + q[1..];
      }
    }
  }

  lemma FrontIsCopied<T>(patterns: set<seq<T>>, mark: seq<T> -> seq<T>, s: seq<T>, p: seq<T>)
    requires p != [] && s != [] && Longest(patterns, s) == 0 && p <= Replaced(patterns, mark, s)
    requires Avoids(p, 1, patterns, mark)
    ensures p <= s
  {
    FrontElement(s[0], Replaced(patterns, mark, s[1..]), p);
    AvoidsTail(p, patterns, mark);
    CopiedFront(patterns, mark, s[1..], p[1..]);
    assert s == [s[0]] + s[1..] && p == [p[0]] + p[1..];
  }

  lemma {:induction false} ClearNotAt<T>(patterns: set<seq<T>>, mark: seq<T> -> seq<T>, s: seq<T>, p: seq<T>, i: nat)
    requires [] !in patterns && p in patterns && forall w <- patterns :: ClearOf(p, mark(w))
    ensures !StartsAt(Replaced(patterns, mark, s), i, p)
    decreases |s|
  {
    if s != [] {
      var k := Longest(patterns, s);
      var head := if k > 0 then mark(s[..k]) else [s[0]];
      var next := s[(if k > 0 then k else 1)..];
      var rest := Replaced(patterns, mark, next);
      if i >= |head| {
        ClearNotAt(patterns, mark, next, p, i - |head|);
        NotAtLater(head, rest, p, i);
      } else if k > 0 {
        NotWithin(head, rest, p, i);
      } else if StartsAt(head + rest, 0, p) {
        assert p == (head + rest)[0..|p|] == (head + rest)[..|p|];
        NoPatternAtFront(patterns, s, p);
        FrontIsCopied(patterns, mark, s, p);
      }
    }
  }

  /** Values clear of every mark never occur in the result. */
  lemma ClearNeverOccurs<T(!new)>(patterns: set<seq<T>>, mark: seq<T> -> seq<T>)
    requires [] !in patterns && forall p <- patterns, w <- patterns :: ClearOf(p, mark(w))
    ensures NeverOccurs(patterns, mark)
  {
    forall s: seq<T>, p <- patterns, i: nat ensures !StartsAt(Replaced(patterns, mark, s), i, p) {
      ClearNotAt(patterns, mark, s, p, i);
    }
  }

  /** A value that occurs in its own mark occurs in the result of replacing it, whatever else is replaced. */
  lemma OwnMarkLeaks<T(!new)>(patterns: set<seq<T>>, mark: seq<T> -> seq<T>, p: seq<T>)
    requires [] !in patterns && p in patterns && Occurs(mark(p), p)
    ensures Replaced(patterns, mark, p) == mark(p) && !NeverOccurs(patterns, mark)
  {
    var i: nat :| i <= |mark(p)| && StartsAt(mark(p), i, p);
    assert p[..|p|] == p && p[|p|..] == [];
    assert Longest(patterns, p) == |p|;
    assert mark(p) + [] == mark(p);
    assert StartsAt(Replaced(patterns, mark, p), i, p);
  }

  // ---- One value, exactly -----------------------------------------------------------------

  lemma LongestOfOne<T>(p: seq<T>, s: seq<T>)
    requires p != []
    ensures Longest({p}, s) == if p <= s then |p| else 0
  {
    var k := Longest({p}, s);
    if k > 0 { assert s[..k] == p; }
    if p <= s { assert s[..|p|] == p; }
  }

  lemma {:induction false} ShortIsCopied<T>(p: seq<T>, mark: seq<T> -> seq<T>, s: seq<T>)
    requires |s| < |p|
    ensures Replaced({p}, mark, s) == s
  {
    if s != [] {
      LongestOfOne(p, s);
      ShortIsCopied(p, mark, s[1..]);
      assert s == [s[0]] + s[1..];
    }
  }

  /** Before `p`, the text `x` starts no occurrence of it. */
  ghost predicate Unmatched<T>(p: seq<T>, x: seq<T>) { forall j :: 0 <= j < |x| ==> !StartsAt(x + p, j, p) }

  lemma UnmatchedTail<T>(p: seq<T>, x: seq<T>)
    requires x != [] && Unmatched(p, x)
    ensures Unmatched(p, x[1..])
  {
    forall j | 0 <= j < |x| - 1 ensures !StartsAt(x[1..] + p, j, p) {
      assert !StartsAt(x + p, j + 1, p);
      assert (x[1..] + p)[j..] == (x + p)[j + 1..];
      assert j + |p| <= |x[1..] + p| ==> (x[1..] + p)[j..j + |p|] == (x + p)[j + 1..j + 1 + |p|];
    }
  }

  /** What stands before the first occurrence is copied, and the occurrence becomes a mark. */
  lemma {:induction false} CopyThenMark<T>(p: seq<T>, mark: seq<T> -> seq<T>, x: seq<T>, rest: seq<T>)
    requires p != [] && Unmatched(p, x)
    ensures Replaced({p}, mark, x + (p + rest)) == x + (mark(p) + Replaced({p}, mark, rest))
    decreases |x|
  {
    var s := x + (p + rest);
    LongestOfOne(p, s);
    if x == [] {
      assert s == p + rest && s[|p|..] == rest && s[..|p|] == p;
      assert [] + (mark(p) + Replaced({p}, mark, rest)) == mark(p) + Replaced({p}, mark, rest);
    } else {
      assert !StartsAt(x + p, 0, p);
      assert (x + p)[..|p|] == s[..|p|];
      assert s[1..] == x[1..] + (p + rest);
      UnmatchedTail(p, x);
      CopyThenMark(p, mark, x[1..], rest);
      assert x == [x[0]] + x[1..];
      ConcatAssociates([x[0]], x[1..], mark(p) + Replaced({p}, mark, rest));
    }
  }

  /** From `n` on `p` can be read off the mark, and its first `n` elements can stand before one unmatched. */
  ghost predicate Exposed<T>(p: seq<T>, n: nat, m: seq<T>)
    requires n <= |p|
  {
    RunsInto(p, n, m) && Unmatched(p, p[..n])
  }

  /** What follows a mark when `p` starts `n` elements before the mark's end. */
  function Beyond<T>(p: seq<T>, n: nat): seq<T> { if |p| > n then p[n..] else [] }

  lemma ReadFromWithin<T>(m: seq<T>, p: seq<T>, i: nat)
    requires i < |m| && Agree(m[i..], p)
    ensures StartsAt(m + Beyond(p, |m| - i), i, p)
  {
    var y := Beyond(p, |m| - i);
    var s := m + y;
    assert s[i..] == m[i..] + y;
    assert s[i..i + |p|] == s[i..][..|p|];
  }

  lemma ReadAcross<T>(m: seq<T>, p: seq<T>, n: nat)
    requires n <= |p| && Agree(p[n..], m)
    ensures StartsAt(p[..n] + (m + Beyond(p, n + |m|)), 0, p)
  {
    var y := Beyond(p, n + |m|);
    var s := p[..n] + (m + y);
    assert p == p[..n] + p[n..];
    assert (m + y)[..|p| - n] == p[n..];
    assert s[0..|p|] == p[..n] + (m + y)[..|p| - n];
  }

  lemma MarkedLeaks<T(!new)>(p: seq<T>, mark: seq<T> -> seq<T>, x: seq<T>, y: seq<T>, i: nat)
    requires p != [] && Unmatched(p, x) && |y| < |p| && StartsAt(x + (mark(p) + y), i, p)
    ensures !NeverOccurs({p}, mark)
  {
    CopyThenMark(p, mark, x, y);
    ShortIsCopied(p, mark, y);
    assert p in {p};
  }

  /** A value that can start inside its mark leaks, by an input made of itself and its own end. */
  lemma WithinLeaks<T(!new)>(p: seq<T>, mark: seq<T> -> seq<T>)
    requires p != [] && StartsWithin(p, mark(p))
    ensures !NeverOccurs({p}, mark)
  {
    var m := mark(p);
    var i :| 0 <= i < |m| && Agree(m[i..], p);
    var y := Beyond(p, |m| - i);
    ReadFromWithin(m, p, i);
    assert [] + (m + y) == m + y;
    MarkedLeaks(p, mark, [], y, i);
  }

  lemma ExposedLeaks<T(!new)>(p: seq<T>, mark: seq<T> -> seq<T>, n: nat)
    requires 0 < n < |p| && Exposed(p, n, mark(p))
    ensures !NeverOccurs({p}, mark)
  {
    ReadAcross(mark(p), p, n);
    MarkedLeaks(p, mark, p[..n], Beyond(p, n + |mark(p)|), 0);
  }

  /** The first `n` elements of `q` were copied from the start of `s`; there `p` became the mark `q` runs into. */
  ghost predicate MarkAt<T>(p: seq<T>, m: seq<T>, s: seq<T>, q: seq<T>, n: nat) {
    && n < |q| && n <= |s| && q[..n] == s[..n] && p <= s[n..] && RunsInto(q, n, m)
    && forall j :: 0 <= j < n ==> !(p <= s[j..])
  }

  lemma MarkLater<T>(p: seq<T>, m: seq<T>, s: seq<T>, q: seq<T>, n: nat)
    requires s != [] && q != [] && q[0] == s[0] && !(p <= s) && MarkAt(p, m, s[1..], q[1..], n)
    ensures MarkAt(p, m, s, q, n + 1)
  {
    var after, rest := s[1..], q[1..];
    assert after[n..] == s[n + 1..] && rest[n..] == q[n + 1..];
    assert s[..n + 1] == [s[0]] + after[..n] && q[..n + 1] == [q[0]] + rest[..n];
    forall j | 0 <= j < n + 1 ensures !(p <= s[j..]) {
      if j > 0 { assert after[j - 1..] == s[j..]; } else { assert s[0..] == s; }
    }
  }

  /** A result that starts with `q` although the input does not was copied up to a mark. */
  lemma {:induction false} FindMark<T>(p: seq<T>, mark: seq<T> -> seq<T>, s: seq<T>, q: seq<T>) returns (n: nat)
    requires p != [] && q <= Replaced({p}, mark, s) && !(q <= s)
    ensures MarkAt(p, mark(p), s, q, n)
    decreases |s|
  {
    LongestOfOne(p, s);
    if p <= s {
      n := 0;
      assert s[..|p|] == p;
      AgreeAfter(mark(p), q, Replaced({p}, mark, s[|p|..]));
      assert q[0..] == q && s[0..] == s;
    } else {
      FrontElement(s[0], Replaced({p}, mark, s[1..]), q);
      assert q == [q[0]] + q[1..] && s == [s[0]] + s[1..];
      n := FindMark(p, mark, s[1..], q[1..]);
      MarkLater(p, mark(p), s, q, n);
      n := n + 1;
    }
  }

  lemma NotEarlier<T>(p: seq<T>, s: seq<T>, n: nat, j: nat)
    requires j < n <= |p| && n <= |s| && p[..n] == s[..n] && p <= s[n..] && !(p <= s[j..])
    ensures !StartsAt(p[..n] + p, j, p)
  {
    var both := p[..n] + p;
    assert s == s[..n] + s[n..];
    assert j + |p| <= |both|;
    assert both[j..j + |p|] == s[j..][..|p|];
  }

  lemma FrontExposes<T>(p: seq<T>, mark: seq<T> -> seq<T>, s: seq<T>)
    requires p != [] && s != [] && !(p <= s) && p <= Replaced({p}, mark, s)
    ensures exists n :: 0 < n < |p| && Exposed(p, n, mark(p))
  {
    var n := FindMark(p, mark, s, p);
    assert s[0..] == s;
    forall j | 0 <= j < n ensures !StartsAt(p[..n] + p, j, p) { NotEarlier(p, s, n, j); }
    assert Exposed(p, n, mark(p));
  }

  lemma {:induction false} OneNotAt<T>(p: seq<T>, mark: seq<T> -> seq<T>, s: seq<T>, i: nat)
    requires p != [] && !StartsWithin(p, mark(p)) && forall n :: 0 < n < |p| ==> !Exposed(p, n, mark(p))
    ensures !StartsAt(Replaced({p}, mark, s), i, p)
    decreases |s|
  {
    if s != [] {
      LongestOfOne(p, s);
      var head := if p <= s then mark(p) else [s[0]];
      var next := s[(if p <= s then |p| else 1)..];
      var rest := Replaced({p}, mark, next);
      assert p <= s ==> s[..|p|] == p;
      assert head + rest == Replaced({p}, mark, s);
      if i >= |head| {
        OneNotAt(p, mark, next, i - |head|);
        NotAtLater(head, rest, p, i);
      } else if p <= s {
        NotWithin(head, rest, p, i);
      } else if StartsAt(head + rest, 0, p) {
        assert (head + rest)[0..|p|] == (head + rest)[..|p|];
        FrontExposes(p, mark, s);
      }
    }
  }

  /**
   * For any one value: it never occurs in the result exactly when it cannot start inside its mark and
   * no beginning of it can stand, unmatched, before a mark it runs into.
   */
  lemma OneExactly<T(!new)>(p: seq<T>, mark: seq<T> -> seq<T>)
    requires p != []
    ensures NeverOccurs({p}, mark)
            <==> !StartsWithin(p, mark(p)) && forall n :: 0 < n < |p| ==> !Exposed(p, n, mark(p))
  {
    if StartsWithin(p, mark(p)) {
      WithinLeaks(p, mark);
    } else if n :| 0 < n < |p| && Exposed(p, n, mark(p)) {
      ExposedLeaks(p, mark, n);
    } else {
      forall s: seq<T>, q <- {p}, i: nat ensures !StartsAt(Replaced({p}, mark, s), i, q) { OneNotAt(p, mark, s, i); }
    }
  }
}
