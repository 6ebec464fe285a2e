/** Facts about sequences that the stream proofs use by name. */
module Sequences {

  lemma Assoc<T>(a: seq<T>, b: seq<T>, c: seq<T>)
    ensures (a + b) + c == a + (b + c)
  {
  }

  lemma AppendEmpty<T>(a: seq<T>)
    ensures a + [] == a
  {
  }

  lemma PrependEmpty<T>(a: seq<T>)
    ensures [] + a == a
  {
  }
}
