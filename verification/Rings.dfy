/** Ring buffers: a window of consecutive slots that wraps at the end of an array. */
module Rings {

  function Wrap(k: nat, n: nat): nat
    requires k < 2 * n
  {
    if k < n then k else k - n
  }

  /** The contents of `count` slots, beginning with slot `from`. */
  function Window<T>(ring: seq<T>, from: nat, count: nat): (w: seq<T>)
    requires from < |ring| && count <= |ring|
    ensures |w| == count
    ensures forall i | 0 <= i < count :: w[i] == ring[Wrap(from + i, |ring|)]
  {
    seq(count, i requires 0 <= i < count => ring[Wrap(from + i, |ring|)])
  }

  lemma Filled<T>(ring: seq<T>, from: nat, count: nat, x: T)
    requires from < |ring| && count < |ring|
    ensures Window(ring[Wrap(from + count, |ring|) := x], from, count + 1) == Window(ring, from, count) + [x]
  {
  }

  lemma Taken<T>(ring: seq<T>, from: nat, count: nat)
    requires from < |ring| && 0 < count <= |ring|
    ensures Window(ring, Wrap(from + 1, |ring|), count - 1) == Window(ring, from, count)[1..]
    ensures Window(ring, from, count)[0] == ring[from]
  {
  }

  /** A slot outside the window may change. */
  lemma Outside<T>(ring: seq<T>, from: nat, count: nat, j: nat, x: T)
    requires from < |ring| && count <= j < |ring|
    ensures Window(ring[Wrap(from + j, |ring|) := x], from, count) == Window(ring, from, count)
  {
  }
}
