/**
 * The optional value used wherever the Java code returns or stores `null`, and a few
 * facts about sequence concatenation and slices, proved once for every element type so that the
 * proofs about logs of strings need not rediscover them.
 */
module Wrappers {

  datatype Option<+T> = None | Some(value: T)

  lemma ConcatAssoc<T>(a: seq<T>, b: seq<T>, c: seq<T>)
    ensures (a + b) + c == a + (b + c)
  {
  }

  lemma SliceOfConcatLeft<T>(a: seq<T>, b: seq<T>, i: nat, j: nat)
    requires i <= j <= |a|
    ensures (a + b)[i..j] == a[i..j]
  {
  }

  lemma SliceOfConcatRight<T>(a: seq<T>, b: seq<T>)
    ensures (a + b)[|a|..|a| + |b|] == b
  {
  }

  lemma PrefixOfPrefix<T>(w: seq<T>, q: seq<T>, p: seq<T>)
    requires |p| <= |q| <= |w| && w[..|q|] == q && q[..|p|] == p
    ensures w[..|p|] == p
  {
    forall i | 0 <= i < |p| ensures w[i] == p[i] {
      assert w[..|q|][i] == w[i];
    }
  }

  lemma SliceSplit<T>(s: seq<T>, i: nat, j: nat, k: nat)
    requires i <= j <= k <= |s|
    ensures s[i..k] == s[i..j] + s[j..k]
  {
  }

  lemma SliceShift<T>(w: seq<T>, x: seq<T>, i: nat, j: nat)
    requires i <= j <= |x|
    ensures (w + x)[|w| + i..|w| + j] == x[i..j]
  {
  }

  lemma MulSucc(m: int, n: int)
    ensures m * n + n == (m + 1) * n
  {
  }
}
