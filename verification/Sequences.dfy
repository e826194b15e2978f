/** Small facts about sequences that several proofs lean on. */
module Sequences {

  function Map<T, U>(items: seq<T>, f: T -> U): (r: seq<U>)
    ensures |r| == |items| && forall i :: 0 <= i < |items| ==> r[i] == f(items[i])
  {
    seq(|items|, i requires 0 <= i < |items| => f(items[i]))
  }

  lemma Associate<T>(a: seq<T>, b: seq<T>, c: seq<T>)
    ensures (a + b) + c == a + (b + c)
  {
  }

  lemma DropWithin<T>(a: seq<T>, b: seq<T>, k: nat)
    requires k <= |a|
    ensures (a + b)[k..] == a[k..] + b
  {
  }

  lemma DropBeyond<T>(a: seq<T>, b: seq<T>, k: nat)
    requires k <= |b|
    ensures (a + b)[|a| + k..] == b[k..]
  {
  }

  /** The parts of a sequence around its `i`-th element. */
  lemma Around<T>(t: seq<T>, i: nat)
    requires i < |t|
    ensures t[..i] + t[i..] == t && t[..i] + [t[i]] == t[..i+1] && t[i..][1..] == t[i+1..]
  {
  }

  /** The parts of a sequence put together around `x`. */
  lemma PutAround<T>(head: seq<T>, x: T, tail: seq<T>)
    ensures var t := head + ([x] + tail);
      t[..|head|] == head && t[|head|] == x && t[|head|+1..] == tail && t == (head + [x]) + tail
  {
  }

  /** Cutting at `k` and then dropping `d` is dropping `d` and then cutting. */
  lemma CutBehind<T>(t: seq<T>, d: nat, k: nat)
    requires d <= k <= |t|
    ensures t[..k][d..] == t[d..][..k-d]
    ensures t[d..][k-d..] == t[k..]
  {
  }
}
