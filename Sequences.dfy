/**
 * Small facts about splitting a sequence at its ends, stated once for any
 * element type so that the proofs about tracks, bytes and characters can
 * reuse them without reasoning about their element types.
 */
module Sequences {
  /** A non-empty sequence is its front followed by its last element. */
  lemma SeqSplitLast<T>(s: seq<T>)
    requires |s| > 0
    ensures s == s[..|s| - 1] + [s[|s| - 1]]
    ensures multiset(s) == multiset(s[..|s| - 1]) + multiset{s[|s| - 1]}
  {
    assert s == s[..|s| - 1] + [s[|s| - 1]];
  }

  /** A non-empty sequence is its first element followed by the rest. */
  lemma SplitFirst<T>(s: seq<T>)
    requires |s| > 0
    ensures s == [s[0]] + s[1..]
  {
  }

  /** A sequence of three or more is its first three elements followed by the rest. */
  lemma SplitThree<T>(s: seq<T>)
    requires |s| >= 3
    ensures s == [s[0], s[1], s[2]] + s[3..]
  {
  }
}
