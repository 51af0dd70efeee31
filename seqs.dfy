/**
 * Facts about sequences of any element type, shared by the modules. Stated
 * generically so that proofs about strings, blocks or requests need not look
 * inside the elements.
 */
module Seqs {

  /** The smaller of two counts (`usize::min`). */
  function Min(a: nat, b: nat): nat {
    if a <= b then a else b
  }

  lemma AppendAssoc<T>(a: seq<T>, b: seq<T>, c: seq<T>)
    ensures (a + b) + c == a + (b + c)
  {
  }

  /** A sequence is its first `i` elements, two more, and the rest. */
  lemma SplitTwo<T>(s: seq<T>, i: nat)
    requires i + 1 < |s|
    ensures s == s[..i] + ([s[i], s[i + 1]] + s[i + 2..])
  {
    assert s[..i + 2] == s[..i] + [s[i], s[i + 1]];
    assert s == s[..i + 2] + s[i + 2..];
  }

  lemma HeadTail<T>(s: seq<T>)
    requires s != []
    ensures [s[0]] + s[1..] == s
  {
  }

  lemma SnocTail<T>(s: seq<T>, x: T)
    requires s != []
    ensures (s + [x])[1..] == s[1..] + [x]
  {
  }
}
