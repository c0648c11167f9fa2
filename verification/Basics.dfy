/** What several components share: optional values, ascending numbers, lists without repetition. */
module Basics {

  datatype Option<T> = None | Some(value: T)

  ghost predicate Ascending(seqs: seq<int>) {
    forall i, j | 0 <= i < j < |seqs| :: seqs[i] < seqs[j]
  }

  lemma {:induction false} AscendingSpread(seqs: seq<int>, i: nat, j: nat)
    requires Ascending(seqs) && i <= j < |seqs|
    ensures seqs[j] - seqs[i] >= j - i
    decreases j - i
  {
    if i < j { AscendingSpread(seqs, i, j - 1); }
  }

  ghost predicate Distinct<T>(s: seq<T>) {
    forall i, j | 0 <= i < j < |s| :: s[i] != s[j]
  }
}
