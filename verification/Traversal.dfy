/** Preorder walks, and the work stack that performs them. */
module Traversal {
  import opened Seqs

  /** What is met at an entry, which entries lie below it, and a rank that falls on the way down. */
  datatype Plan<!E(!new), V> = Plan(own: E -> seq<V>, below: E -> seq<E>, rank: E -> nat)

  ghost predicate Sound<E(!new), V>(p: Plan<E, V>) { forall e, b :: b in p.below(e) ==> p.rank(b) < p.rank(e) }

  /** Everything met from an entry on: itself, then what lies below, in order. */
  ghost function Walk<E(!new), V>(p: Plan<E, V>, e: E): seq<V>
    requires Sound(p)
    decreases p.rank(e), 1, 0
  {
    p.own(e) + WalkAll(p, p.below(e), p.rank(e))
  }

  ghost function WalkAll<E(!new), V>(p: Plan<E, V>, entries: seq<E>, bound: nat): seq<V>
    requires Sound(p) && forall e <- entries :: p.rank(e) < bound
    decreases bound, 0, |entries|
  {
    if entries == [] then [] else Walk(p, entries[0]) + WalkAll(p, entries[1..], bound)
  }

  /** What a stack still leads to: its last entry comes first. */
  ghost function Pending<E(!new), V>(p: Plan<E, V>, stack: seq<E>): seq<V>
    requires Sound(p)
  {
    if stack == [] then [] else Walk(p, stack[|stack| - 1]) + Pending(p, stack[..|stack| - 1])
  }

  function Reversed<E>(entries: seq<E>): seq<E> {
    if entries == [] then [] else Reversed(entries[1..]) + [entries[0]]
  }

  lemma {:induction false} ReversedMembers<E>(entries: seq<E>)
    ensures forall e :: e in Reversed(entries) <==> e in entries
  {
    if entries != [] {
      ReversedMembers(entries[1..]);
      assert entries == [entries[0]] + entries[1..];
    }
  }

  /** Entries pushed in reverse come off the stack in order. */
  lemma {:induction false} PendingPush<E(!new), V>(p: Plan<E, V>, stack: seq<E>, entries: seq<E>, bound: nat)
    requires Sound(p) && forall e <- entries :: p.rank(e) < bound
    ensures Pending(p, stack + Reversed(entries)) == WalkAll(p, entries, bound) + Pending(p, stack)
    decreases |entries|
  {
    var all := stack + Reversed(entries);
    if entries == [] {
      assert all == stack;
    } else {
      PendingPush(p, stack, entries[1..], bound);
      assert all[|all| - 1] == entries[0] && all[..|all| - 1] == stack + Reversed(entries[1..]);
      ConcatAssociates(Walk(p, entries[0]), WalkAll(p, entries[1..], bound), Pending(p, stack));
    }
  }

  /** Taking an entry off and pushing what lies below it leaves the rest of the walk. */
  lemma PendingStep<E(!new), V>(p: Plan<E, V>, stack: seq<E>)
    requires Sound(p) && stack != []
    ensures var e, rest := stack[|stack| - 1], stack[..|stack| - 1];
            Pending(p, stack) == p.own(e) + Pending(p, rest + Reversed(p.below(e)))
  {
    var e, rest := stack[|stack| - 1], stack[..|stack| - 1];
    PendingPush(p, rest, p.below(e), p.rank(e));
    ConcatAssociates(p.own(e), WalkAll(p, p.below(e), p.rank(e)), Pending(p, rest));
  }

  /** Pushing nothing instead leaves no more than that. */
  lemma PendingDrop<E(!new), V>(p: Plan<E, V>, stack: seq<E>)
    requires Sound(p) && stack != []
    ensures |Pending(p, stack)| >= |p.own(stack[|stack| - 1])| + |Pending(p, stack[..|stack| - 1])|
  {
  }
}
