/** The doubly linked ring of kernel/bio.c: buffers 0 to NBUF - 1 and the list head at NBUF.
    `order` lists the linked buffers from most to least recently used. */
module LruRing {
  import opened LogModel

  const HEAD := NBUF

  function At(order: seq<nat>, k: int): (b: nat) {
    if 0 <= k < |order| then order[k] else HEAD
  }

  predicate Distinct(order: seq<nat>) {
    && (forall k :: 0 <= k < |order| ==> order[k] < NBUF)
    && (forall j, k :: 0 <= j < k < |order| ==> order[j] != order[k])
  }

  /** `next` leads from every element of the circle to its successor. */
  predicate Forward(next: seq<nat>, order: seq<nat>) {
    |next| == NBUF + 1 && Distinct(order)
    && forall k :: 0 <= k <= |order| ==> next[At(order, k - 1)] == At(order, k)
  }

  predicate Backward(prev: seq<nat>, order: seq<nat>) {
    |prev| == NBUF + 1 && Distinct(order)
    && forall k :: 0 <= k <= |order| ==> prev[At(order, k)] == At(order, k - 1)
  }

  /** Following next from the head, or prev backwards, visits exactly `order`. */
  predicate Ring(next: seq<nat>, prev: seq<nat>, order: seq<nat>) {
    Forward(next, order) && Backward(prev, order)
  }

  function Without(order: seq<nat>, k: nat): (r: seq<nat>)
    requires k < |order|
  {
    order[..k] + order[k + 1..]
  }

  lemma WithoutAt(order: seq<nat>, k: nat, j: int)
    requires Distinct(order) && k < |order| && -1 <= j < |order|
    ensures Distinct(Without(order, k))
    ensures At(Without(order, k), j) == At(order, if j < k then j else j + 1)
  {
    assert forall i :: 0 <= i < |order| - 1 ==> Without(order, k)[i] == order[if i < k then i else i + 1];
  }

  lemma UnlinkForward(next: seq<nat>, order: seq<nat>, k: nat)
    requires Forward(next, order) && k < |order|
    ensures Forward(next[At(order, k - 1) := At(order, k + 1)], Without(order, k))
  {
    var next', order' := next[At(order, k - 1) := At(order, k + 1)], Without(order, k);
    WithoutAt(order, k, 0);
    forall j | 0 <= j <= |order'| ensures next'[At(order', j - 1)] == At(order', j) {
      WithoutAt(order, k, j - 1);
      WithoutAt(order, k, j);
      var i := if j <= k then j else j + 1;
      assert next[At(order, i - 1)] == At(order, i);
    }
  }

  lemma UnlinkBackward(prev: seq<nat>, order: seq<nat>, k: nat)
    requires Backward(prev, order) && k < |order|
    ensures Backward(prev[At(order, k + 1) := At(order, k - 1)], Without(order, k))
  {
    var prev', order' := prev[At(order, k + 1) := At(order, k - 1)], Without(order, k);
    WithoutAt(order, k, 0);
    forall j | 0 <= j <= |order'| ensures prev'[At(order', j)] == At(order', j - 1) {
      WithoutAt(order, k, j - 1);
      WithoutAt(order, k, j);
      var i := if j < k then j else j + 1;
      assert prev[At(order, i)] == At(order, i - 1);
    }
  }

  /** The two pointer writes that take b out of the ring. */
  lemma Unlink(next: seq<nat>, prev: seq<nat>, order: seq<nat>, k: nat)
    requires Ring(next, prev, order) && k < |order|
    ensures next[order[k]] == At(order, k + 1) < |prev| && prev[order[k]] == At(order, k - 1) < |next|
    ensures Ring(next[prev[order[k]] := next[order[k]]], prev[next[order[k]] := prev[order[k]]], Without(order, k))
  {
    assert At(order, k) == order[k];
    assert next[At(order, k + 1 - 1)] == At(order, k + 1) && prev[At(order, k)] == At(order, k - 1);
    UnlinkForward(next, order, k);
    UnlinkBackward(prev, order, k);
  }

  lemma LinkAt(order: seq<nat>, b: nat, j: int)
    requires Distinct(order) && b < NBUF && b !in order
    ensures Distinct([b] + order)
    ensures At([b] + order, j) == if j == 0 then b else At(order, j - 1)
  {
  }

  /** The four pointer writes that put b at the front of the ring. */
  lemma LinkFront(next: seq<nat>, prev: seq<nat>, order: seq<nat>, b: nat)
    requires Ring(next, prev, order) && b < NBUF && b !in order
    ensures next[HEAD] == At(order, 0) < |prev|
    ensures Ring(next[b := next[HEAD]][HEAD := b], prev[b := HEAD][next[HEAD] := b], [b] + order)
  {
    assert next[At(order, 0 - 1)] == At(order, 0);
    var next', prev', order' := next[b := next[HEAD]][HEAD := b], prev[b := HEAD][next[HEAD] := b], [b] + order;
    LinkAt(order, b, 0);
    forall j | 0 <= j <= |order'|
      ensures next'[At(order', j - 1)] == At(order', j) && prev'[At(order', j)] == At(order', j - 1)
    {
      LinkAt(order, b, j);
      LinkAt(order, b, j - 1);
      if j >= 2 {
        assert next[At(order, j - 1 - 1)] == At(order, j - 1);
        assert prev[At(order, j - 1)] == At(order, j - 1 - 1);
      }
    }
  }

  /** Every buffer is on the list exactly once: `rank` inverts `order`. */
  ghost predicate Complete(order: seq<nat>, rank: seq<nat>) {
    && |order| == |rank| == NBUF
    && (forall k :: 0 <= k < NBUF ==> order[k] < NBUF && rank[order[k]] == k)
    && (forall b :: 0 <= b < NBUF ==> rank[b] < NBUF && order[rank[b]] == b)
  }

  function RankAfterMove(rank: seq<nat>, b: nat): (r: seq<nat>)
    requires b < |rank| == NBUF
  {
    seq(NBUF, i requires 0 <= i < NBUF =>
      if i == b then 0 else if rank[i] < rank[b] then rank[i] + 1 else rank[i])
  }

  lemma MoveComplete(order: seq<nat>, rank: seq<nat>, b: nat)
    requires Complete(order, rank) && b < NBUF
    ensures Complete([b] + Without(order, rank[b]), RankAfterMove(rank, b))
    ensures b !in Without(order, rank[b])
  {
    var k := rank[b];
    var order', rank' := [b] + Without(order, k), RankAfterMove(rank, b);
    forall j | 0 < j < NBUF ensures order'[j] == order[if j <= k then j - 1 else j] {
    }
    forall i | 0 <= i < NBUF ensures rank'[i] < NBUF && order'[rank'[i]] == i {
      assert order[rank[i]] == i;
    }
    forall j | 0 <= j < NBUF ensures order'[j] < NBUF && rank'[order'[j]] == j {
      if j > 0 {
        var i := if j <= k then j - 1 else j;
        assert rank[order[i]] == i;
      }
    }
  }
}
