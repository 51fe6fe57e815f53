/** Small facts about sequence prefixes, kept apart so that larger proofs can cite them. */
module Sequences {

  ghost predicate NoDuplicates<T>(s: seq<T>) {
    forall i, j :: 0 <= i < j < |s| ==> s[i] != s[j]
  }

  lemma TakeOneMore<T>(s: seq<T>, i: nat)
    requires i < |s|
    ensures s[..i+1] == s[..i] + [s[i]]
  {
  }

  lemma TakeAll<T>(s: seq<T>)
    ensures s[..|s|] == s
  {
  }

  /** Prefixes survive an extension of the sequence. */
  lemma TakeOfPrefix<T>(s: seq<T>, t: seq<T>, i: nat)
    requires s <= t && i <= |s|
    ensures t[..i] == s[..i]
  {
  }

  /** The first position of an element. */
  function IndexIn<T(==)>(s: seq<T>, x: T): (i: nat)
    requires x in s
    ensures i < |s| && s[i] == x && x !in s[..i]
  {
    if s[0] == x then 0 else 1 + IndexIn(s[1..], x)
  }
}
