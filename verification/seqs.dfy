/** Small facts about slicing sequences, kept apart so that the solver does
    not meet them next to recursive definitions. */
module Seqs {

  lemma DropLastOfAppend<T>(a: seq<T>, b: seq<T>)
    requires |b| > 0
    ensures (a + b)[..|a + b| - 1] == a + b[..|b| - 1]
    ensures (a + b)[|a + b| - 1] == b[|b| - 1]
  {
  }

  lemma TakeOfTake<T>(s: seq<T>, i: nat)
    requires i < |s|
    ensures s[..i + 1][..i] == s[..i]
    ensures s[..i + 1][i] == s[i]
  {
  }
}
