/** Concatenations regrouped. */
module Sequences {

  lemma Assoc<T>(a: seq<T>, b: seq<T>, c: seq<T>)
    ensures (a + b) + c == a + (b + c)
  {
  }

  // The parts between the first and the last as one.
  lemma Assoc4<T>(a: seq<T>, b: seq<T>, c: seq<T>, d: seq<T>)
    ensures a + (b + (c + d)) == a + (b + c) + d
  {
    Assoc(b, c, d);
    Assoc(a, b + c, d);
  }

  lemma Assoc5<T>(a: seq<T>, b: seq<T>, c: seq<T>, d: seq<T>, e: seq<T>)
    ensures a + (b + (c + (d + e))) == a + (b + (c + d)) + e
  {
    Assoc4(b, c, d, e);
    Assoc(a, b + (c + d), e);
  }
}
