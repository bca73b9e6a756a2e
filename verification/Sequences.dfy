/** What several modules say about sequences. */
module Sequences {
  predicate Increasing(s: seq<nat>) {
    forall i, j | 0 <= i < j < |s| :: s[i] < s[j]
  }

  lemma AppendLarger(s: seq<nat>, x: nat)
    requires Increasing(s) && forall y | y in s :: y < x
    ensures Increasing(s + [x])
  {
    assert forall i | 0 <= i < |s| :: s[i] in s;
  }

  /** The members of a sequence, regardless of order. */
  function Elements<T>(s: seq<T>): set<T> {
    set x | x in s
  }
}
