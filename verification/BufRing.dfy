/**
 The buffer list of bio.c: prev and next links through the buffers 0..NBUF-1 and the list head, as the
 sequence of buffers met from head.next on.
 */
module BufRing {
  import opened Sequences

  const NBUF := 30
  /** The node bcache.head. */
  const HEAD := NBUF

  ghost predicate Distinct(order: seq<nat>) {
    && (forall i :: 0 <= i < |order| ==> order[i] < NBUF)
    && (forall i, j :: 0 <= i < j < |order| ==> order[i] != order[j])
  }

  /** The k-th node from the head, the head itself before the first and after the last. */
  function Node(order: seq<nat>, k: int): (b: int)
    ensures Distinct(order) ==> 0 <= b <= HEAD
  {
    if 0 <= k < |order| then order[k] else HEAD
  }

  ghost predicate Adjacent(prev: seq<int>, next: seq<int>, order: seq<nat>, k: int)
    requires |prev| == |next| == NBUF + 1 && Distinct(order)
  {
    next[Node(order, k - 1)] == Node(order, k) && prev[Node(order, k)] == Node(order, k - 1)
  }

  /** The links form one ring through the head and exactly the buffers of order. */
  ghost predicate Ring(prev: seq<int>, next: seq<int>, order: seq<nat>) {
    && |prev| == |next| == NBUF + 1
    && Distinct(order)
    && forall k :: 0 <= k <= |order| ==> Adjacent(prev, next, order, k)
  }

  function ToFront(order: seq<nat>, p: nat): (r: seq<nat>)
    requires p < |order|
    ensures |r| == |order|
  {
    [order[p]] + Remove(order, p)
  }

  /** Taking a buffer out of the list. */
  lemma UnlinkRing(prev: seq<int>, next: seq<int>, order: seq<nat>, p: nat)
    requires Ring(prev, next, order) && p < |order|
    ensures var b := order[p];
            && 0 <= next[b] <= HEAD && 0 <= prev[b] <= HEAD
            && Ring(prev[next[b] := prev[b]], next[prev[b] := next[b]], Remove(order, p))
  {
    var b, o := order[p], Remove(order, p);
    assert Adjacent(prev, next, order, p) && Adjacent(prev, next, order, p + 1);
    assert prev[b] == Node(order, p - 1) && next[b] == Node(order, p + 1);
    var prev', next' := prev[next[b] := prev[b]], next[prev[b] := next[b]];
    forall k | 0 <= k <= |o|
      ensures Adjacent(prev', next', o, k)
    {
      if k < p {
        assert Adjacent(prev, next, order, k);
      } else {
        assert Adjacent(prev, next, order, k + 1);
      }
    }
  }

  /** Putting a buffer behind the head. */
  lemma PushRing(prev: seq<int>, next: seq<int>, order: seq<nat>, b: nat)
    requires Ring(prev, next, order) && b < NBUF && b !in order
    ensures 0 <= next[HEAD] <= HEAD
    ensures Ring(prev[b := HEAD][next[HEAD] := b], next[b := next[HEAD]][HEAD := b], [b] + order)
  {
    assert Adjacent(prev, next, order, 0);
    assert next[HEAD] == Node(order, 0);
    var o := [b] + order;
    var prev', next' := prev[b := HEAD][next[HEAD] := b], next[b := next[HEAD]][HEAD := b];
    forall k | 0 <= k <= |o|
      ensures Adjacent(prev', next', o, k)
    {
      if k >= 2 {
        assert Adjacent(prev, next, order, k - 1);
      }
    }
  }
}
