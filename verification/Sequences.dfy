/** Small facts about sequences that proofs elsewhere name instead of finding. */
module Sequences {

  lemma Regroup<T>(a: seq<T>, b: seq<T>, c: seq<T>)
    ensures a + b + c == a + (b + c)
  {
  }

  lemma FrontOf<T>(a: seq<T>, b: seq<T>)
    requires a != []
    ensures (a + b)[0] == a[0] && (a + b)[1..] == a[1..] + b
  {
  }

  lemma Split<T>(a: seq<T>, b: seq<T>)
    ensures (a + b)[..|a|] == a && (a + b)[|a|..] == b
  {
  }

  lemma Snoc<T>(v: seq<T>, b: T, w: seq<T>)
    requires w != [] && v == w[..|w| - 1] && b == w[|w| - 1]
    ensures w == v + [b]
  {
  }

  lemma Cons<T>(w: seq<T>)
    requires w != []
    ensures w == [w[0]] + w[1..]
  {
  }

  lemma Rejoin<T>(s: seq<T>, i: nat)
    requires i <= |s|
    ensures s == s[..i] + s[i..]
  {
  }

  lemma SliceBehind<T>(s: seq<T>, w: nat, at: nat, n: nat)
    requires w + at + n <= |s|
    ensures s[w..][at..at + n] == s[w + at..w + at + n]
  {
  }
}
