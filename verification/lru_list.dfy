/** The circular doubly linked list that threads all buffers of the cache through
    their `next` and `prev` fields, with a sentinel `head` (kernel/bio.c).  Nodes
    are named by their index in the buffer table; the sentinel gets the index
    after the last buffer. */
module LruList {
  import opened Common

  const HEAD: nat := NBUF

  /** Node `k` of the ring: the sentinel at both ends, `order` in between. */
  ghost function Node(order: seq<nat>, k: int): nat
    requires 0 <= k <= |order| + 1
  {
    if k == 0 || k == |order| + 1 then HEAD else order[k - 1]
  }

  ghost predicate Distinct(order: seq<nat>) {
    && (forall k :: 0 <= k < |order| ==> order[k] < NBUF)
    && (forall p, q :: 0 <= p < q < |order| ==> order[p] != order[q])
  }

  ghost predicate Neighbours(next: seq<nat>, prev: seq<nat>, order: seq<nat>, k: int)
    requires |next| == NBUF + 1 && |prev| == NBUF + 1 && Distinct(order) && 0 <= k <= |order|
  {
    next[Node(order, k)] == Node(order, k + 1) && prev[Node(order, k + 1)] == Node(order, k)
  }

  /** Following `next` from the sentinel visits `order`, following `prev` visits
      it backwards. */
  ghost predicate Linked(next: seq<nat>, prev: seq<nat>, order: seq<nat>) {
    && |next| == NBUF + 1 && |prev| == NBUF + 1
    && Distinct(order)
    && (forall k :: 0 <= k <= |order| ==> Neighbours(next, prev, order, k))
  }

  ghost predicate Permutation(order: seq<nat>) {
    Distinct(order) && |order| == NBUF && forall i :: 0 <= i < NBUF ==> i in order
  }

  ghost function Without(order: seq<nat>, j: nat): (r: seq<nat>)
    requires j < |order|
    ensures |r| == |order| - 1
  {
    order[..j] + order[j + 1..]
  }

  ghost function MoveToFront(order: seq<nat>, j: nat): (r: seq<nat>)
    requires j < |order|
    ensures |r| == |order|
  {
    [order[j]] + Without(order, j)
  }

  lemma {:induction false} LinkedEnds(next: seq<nat>, prev: seq<nat>, order: seq<nat>)
    requires Linked(next, prev, order)
    ensures next[HEAD] == Node(order, 1)
    ensures prev[HEAD] == Node(order, |order|)
  {
    assert Neighbours(next, prev, order, 0) && Neighbours(next, prev, order, |order|);
  }

  lemma {:induction false} LinkedAt(next: seq<nat>, prev: seq<nat>, order: seq<nat>, j: nat)
    requires Linked(next, prev, order) && j < |order|
    ensures next[order[j]] == Node(order, j + 2)
    ensures prev[order[j]] == Node(order, j)
  {
    assert Neighbours(next, prev, order, j) && Neighbours(next, prev, order, j + 1);
  }

  lemma {:induction false} UnlinkLinked(next: seq<nat>, prev: seq<nat>, order: seq<nat>, j: nat)
    requires Linked(next, prev, order) && j < |order|
    ensures prev[order[j]] <= NBUF && next[order[j]] <= NBUF
    ensures var b := order[j];
            Linked(next[prev[b] := next[b]], prev[next[b] := prev[b]], Without(order, j))
  {
    LinkedAt(next, prev, order, j);
    var b := order[j];
    var o := Without(order, j);
    var nx, pv := next[prev[b] := next[b]], prev[next[b] := prev[b]];
    forall k | 0 <= k <= |o|
      ensures Neighbours(nx, pv, o, k)
    {
      var k' := if k <= j then k else k + 1;
      assert Node(o, k) == Node(order, k');
      assert k < j ==> Node(o, k + 1) == Node(order, k + 1);
      assert k >= j ==> Node(o, k + 1) == Node(order, k + 2);
      assert Neighbours(next, prev, order, k');
    }
  }

  lemma {:induction false} PushFrontLinked(next: seq<nat>, prev: seq<nat>, order: seq<nat>, b: nat)
    requires Linked(next, prev, order) && b < NBUF && b !in order
    ensures next[HEAD] <= NBUF
    ensures Linked(next[b := next[HEAD]][HEAD := b], prev[b := HEAD][next[HEAD] := b], [b] + order)
  {
    LinkedEnds(next, prev, order);
    var o := [b] + order;
    var nx, pv := next[b := next[HEAD]][HEAD := b], prev[b := HEAD][next[HEAD] := b];
    forall k | 0 <= k <= |o|
      ensures Neighbours(nx, pv, o, k)
    {
      if k > 1 {
        assert Node(o, k) == Node(order, k - 1) && Node(o, k + 1) == Node(order, k);
        assert Neighbours(next, prev, order, k - 1);
      }
    }
  }

  lemma {:induction false} MoveToFrontPermutation(order: seq<nat>, j: nat)
    requires Permutation(order) && j < NBUF
    ensures Permutation(MoveToFront(order, j))
  {
    var r := MoveToFront(order, j);
    forall i | 0 <= i < NBUF ensures i in r {
      assert i in order;
      var p :| 0 <= p < |order| && order[p] == i;
      assert if p == j then r[0] == i else if p < j then r[p + 1] == i else r[p] == i;
    }
  }
}
