/** Ring buffers: positions wrap around, and the entries run from head to tail. */
module Rings {
  /** A ring index moved past the end at most once. */
  lemma Wrap(x: nat, cap: nat)
    requires x < 2 * cap
    ensures x % cap == if x < cap then x else x - cap
  {
  }

  /** The entries of a ring from head to tail. */
  ghost function Unroll<T>(q: seq<T>, head: nat, tail: nat): seq<T>
    requires head < |q| && tail < |q|
  {
    if head <= tail then q[head..tail] else q[head..] + q[..tail]
  }

  lemma UnrollHead<T>(q: seq<T>, head: nat, tail: nat)
    requires head < |q| && tail < |q|
    ensures head == tail ==> Unroll(q, head, tail) == []
    ensures head != tail ==> Unroll(q, head, tail) == [q[head]] + Unroll(q, if head + 1 == |q| then 0 else head + 1, tail)
    ensures |Unroll(q, head, tail)| == if head <= tail then tail - head else tail + |q| - head
  {
  }
}
