/** The LRU list of kernel/bio.c: a circular doubly linked list threaded through array indices. */
module BufList {
  import opened Sets

  /** The node at position i of the list; the positions before the first and after the last are the head. */
  function At(order: seq<nat>, head: nat, i: int): nat
    requires -1 <= i <= |order|
  {
    if 0 <= i < |order| then order[i] else head
  }

  /** Positions i and i + 1 are linked in both directions. */
  predicate LinkAt(next: seq<nat>, prev: seq<nat>, order: seq<nat>, head: nat, i: int) {
    -1 <= i < |order| ==>
      var a, b := At(order, head, i), At(order, head, i + 1);
      a < |next| && b < |prev| && next[a] == b && prev[b] == a
  }

  /** The list runs through the nodes of `order` and back to the head, forwards and backwards. */
  predicate ListOk(next: seq<nat>, prev: seq<nat>, order: seq<nat>, head: nat) {
    && |next| == |prev| && head < |next| && head !in order && Distinct(order)
    && (forall i | 0 <= i < |order| :: order[i] < |next|)
    && (forall i | -1 <= i < |order| :: LinkAt(next, prev, order, head, i))
  }

  /** next and prev are mutually inverse on the list. */
  lemma Inverse(next: seq<nat>, prev: seq<nat>, order: seq<nat>, head: nat, i: int)
    requires ListOk(next, prev, order, head) && -1 <= i < |order|
    ensures var a := At(order, head, i);
            && a < |next| && next[a] < |prev| && prev[next[a]] == a
            && prev[a] < |next| && next[prev[a]] == a
  {
    assert LinkAt(next, prev, order, head, i);
    assert LinkAt(next, prev, order, head, if i == -1 then |order| - 1 else i - 1);
  }

  function Without(order: seq<nat>, k: nat): (r: seq<nat>)
    requires k < |order|
    ensures |r| == |order| - 1
    ensures forall i | 0 <= i < |r| :: r[i] == if i < k then order[i] else order[i + 1]
  {
    order[..k] + order[k + 1..]
  }

  /** Taking a node out: its two neighbours are linked to each other. */
  lemma Unlink(next: seq<nat>, prev: seq<nat>, order: seq<nat>, head: nat, k: nat)
    requires ListOk(next, prev, order, head) && k < |order|
    ensures var b := order[k];
            && |prev| == |next| && b < |next| && next[b] < |prev| && prev[b] < |next|
            && ListOk(next[prev[b] := next[b]], prev[next[b] := prev[b]], Without(order, k), head)
            && b !in Without(order, k) && b != head
  {
    var b := order[k];
    assert LinkAt(next, prev, order, head, k);
    assert LinkAt(next, prev, order, head, k - 1);
    var next', prev', order' := next[prev[b] := next[b]], prev[next[b] := prev[b]], Without(order, k);
    forall i | -1 <= i < |order'| ensures LinkAt(next', prev', order', head, i) {
      UnlinkAt(next, prev, order, head, k, i);
    }
  }

  lemma UnlinkAt(next: seq<nat>, prev: seq<nat>, order: seq<nat>, head: nat, k: nat, i: int)
    requires ListOk(next, prev, order, head) && k < |order| && -1 <= i < |order| - 1
    requires prev[order[k]] < |next| && next[order[k]] < |prev|
    ensures var b := order[k];
            LinkAt(next[prev[b] := next[b]], prev[next[b] := prev[b]], Without(order, k), head, i)
  {
    assert LinkAt(next, prev, order, head, k);
    assert LinkAt(next, prev, order, head, k - 1);
    assert LinkAt(next, prev, order, head, if i < k then i else i + 1);
  }

  /** Putting a node first: it is linked between the head and the node that was first. */
  lemma PushFront(next: seq<nat>, prev: seq<nat>, order: seq<nat>, head: nat, b: nat)
    requires ListOk(next, prev, order, head) && b < |next| && b != head && b !in order
    ensures next[head] < |prev|
    ensures ListOk(next[b := next[head]][head := b], prev[b := head][next[head] := b], [b] + order, head)
  {
    assert LinkAt(next, prev, order, head, -1);
    var next', prev', order' := next[b := next[head]][head := b], prev[b := head][next[head] := b], [b] + order;
    forall i | -1 <= i < |order'| ensures LinkAt(next', prev', order', head, i) {
      assert i > 0 ==> LinkAt(next, prev, order, head, i - 1);
      assert i > 0 ==> At(order', head, i) == At(order, head, i - 1);
      assert i > 0 ==> At(order', head, i + 1) == At(order, head, i);
    }
  }

  lemma EmptyList(next: seq<nat>, prev: seq<nat>, head: nat)
    requires |next| == |prev| && head < |next| && next[head] == head && prev[head] == head
    ensures ListOk(next, prev, [], head)
  {}
}
