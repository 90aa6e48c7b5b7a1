/** Small facts about sequences, sets and maps that the proofs use at many element types. */
module Seqs {
  lemma AppendAssociative<T>(a: seq<T>, b: seq<T>, c: seq<T>)
    ensures a + b + c == a + (b + c)
  {
  }

  /** The elements of a sequence with one more element appended. */
  lemma ElementsSnoc<T>(s: seq<T>, x: T)
    ensures (set y | y in s + [x]) == (set y | y in s) + {x}
  {
  }

  lemma SnocIndex<T>(s: seq<T>, x: T, j: nat)
    requires j < |s|
    ensures (s + [x])[j] == s[j]
  {
  }

  /** A second update of the same key overrides the first. */
  lemma MapOverwrite<K, V>(m: map<K, V>, k: K, a: V, b: V)
    ensures m[k := a][k := b] == m[k := b]
  {
  }
}
