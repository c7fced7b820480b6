/**
 * The circular doubly linked list of kernel/fs/buf.c, on values: node 64 is
 * head_buf, a pointer is a node number or -1, and `order` lists the nodes from
 * head->next on.
 */
module BufList {

  predicate IsNode(i: int) { 0 <= i < 64 }

  /** The node at place `k`, where the place before the first and the one past the last are the head's. */
  function Place(order: seq<int>, k: int): int {
    if 0 <= k < |order| then order[k] else 64
  }

  predicate Sized(next: seq<int>, prev: seq<int>) {
    |next| == 65 && |prev| == 65
  }

  predicate Distinct(order: seq<int>) {
    && (forall k {:trigger order[k]} :: 0 <= k < |order| ==> IsNode(order[k]))
    && (forall j, k :: 0 <= j < k < |order| ==> order[j] != order[k])
  }

  /** next and prev run through `order` and the head, in both directions. */
  ghost predicate Ring(next: seq<int>, prev: seq<int>, order: seq<int>) {
    && Sized(next, prev) && Distinct(order)
    && next[64] == Place(order, 0) && prev[64] == Place(order, |order| - 1)
    && (forall k {:trigger order[k]} :: 0 <= k < |order| ==>
          next[order[k]] == Place(order, k + 1) && prev[order[k]] == Place(order, k - 1))
  }

  function Pos(order: seq<int>, node: int): (k: nat)
    requires node in order
    ensures k < |order| && order[k] == node
  {
    if order[0] == node then 0 else 1 + Pos(order[1..], node)
  }

  function Removed(order: seq<int>, k: nat): seq<int>
    requires k < |order|
  {
    order[..k] + order[k + 1..]
  }

  /** The list after insert_head. */
  function Moved(order: seq<int>, node: int, headNext: bool): seq<int> {
    var rest := if node in order then Removed(order, Pos(order, node)) else order;
    if headNext then [node] + rest else rest + [node]
  }

  lemma PointersOf(next: seq<int>, prev: seq<int>, order: seq<int>, node: int)
    requires Ring(next, prev, order) && node in order
    ensures IsNode(node) && 0 <= next[node] <= 64 && 0 <= prev[node] <= 64 && next[node] != node && prev[node] != node
    ensures (next[node] == 64 || next[node] in order) && (prev[node] == 64 || prev[node] in order)
  {
    var k: int := Pos(order, node);
    assert next[order[k]] == Place(order, k + 1) && prev[order[k]] == Place(order, k - 1);
  }

  /** The two stores that take a node out. */
  ghost predicate Unlinks(next: seq<int>, prev: seq<int>, node: int, n2: seq<int>, p2: seq<int>) {
    && Sized(next, prev) && IsNode(node) && 0 <= next[node] <= 64 && 0 <= prev[node] <= 64
    && p2 == prev[next[node] := prev[node]] && n2 == next[prev[node] := next[node]]
  }

  lemma RemovedAt(order: seq<int>, k: nat, j: int)
    requires k < |order|
    ensures |Removed(order, k)| == |order| - 1
    ensures Place(Removed(order, k), j) == Place(order, if 0 <= j && j >= k then j + 1 else j)
    ensures Distinct(order) ==> Distinct(Removed(order, k))
  {
    var r := Removed(order, k);
    assert forall i :: 0 <= i < |r| ==> r[i] == order[if i >= k then i + 1 else i];
  }

  lemma RemovedIn(order: seq<int>, k: nat)
    requires k < |order| && Distinct(order)
    ensures order[k] !in Removed(order, k)
    ensures forall x :: x in Removed(order, k) <==> x in order && x != order[k]
  {
    assert order == order[..k] + [order[k]] + order[k + 1..];
  }

  lemma HeadInRange(next: seq<int>, prev: seq<int>, order: seq<int>)
    requires Ring(next, prev, order)
    ensures 0 <= next[64] <= 64 && 0 <= prev[64] <= 64
    ensures (next[64] == 64 || next[64] in order) && (prev[64] == 64 || prev[64] in order)
  {
  }

  /** The pointers at place `i`, the head's included. */
  lemma Around(next: seq<int>, prev: seq<int>, order: seq<int>, i: int)
    requires Ring(next, prev, order) && -1 <= i <= |order|
    ensures Sized(next, prev) && Distinct(order) && 0 <= Place(order, i) <= 64
    ensures i < |order| ==> next[Place(order, i)] == Place(order, i + 1)
    ensures i >= 0 ==> prev[Place(order, i)] == Place(order, i - 1)
  {
    if 0 <= i < |order| { assert next[order[i]] == Place(order, i + 1); }
  }

  /** Two places hold one node only if they are one place, or the head's two. */
  lemma PlacesDiffer(order: seq<int>, i: int, j: int)
    requires Distinct(order) && -1 <= i <= |order| && -1 <= j <= |order| && i != j && Place(order, i) == Place(order, j)
    ensures (i == -1 || i == |order|) && (j == -1 || j == |order|)
  {
  }

  /** The stores of an unlinking bridge place `k`, and leave all other pointers. */
  lemma Bridged(next: seq<int>, prev: seq<int>, order: seq<int>, k: nat, n2: seq<int>, p2: seq<int>, i: int)
    requires Ring(next, prev, order) && k < |order| && Unlinks(next, prev, order[k], n2, p2)
    requires -1 <= i <= |order| && i != k
    ensures |n2| == 65 && |p2| == 65 && 0 <= Place(order, i) <= 64
    ensures i < |order| ==> n2[Place(order, i)] == Place(order, if i == k - 1 then k + 1 else i + 1)
    ensures i >= 0 ==> p2[Place(order, i)] == Place(order, if i == k + 1 then k - 1 else i - 1)
  {
    hide Ring, Distinct;
    Around(next, prev, order, i);
    Around(next, prev, order, k);
    if i != k - 1 && Place(order, i) == Place(order, k - 1) { PlacesDiffer(order, i, k - 1); }
    if i != k + 1 && Place(order, i) == Place(order, k + 1) { PlacesDiffer(order, i, k + 1); }
  }

  lemma UnlinkOk(next: seq<int>, prev: seq<int>, order: seq<int>, k: nat, n2: seq<int>, p2: seq<int>)
    requires Ring(next, prev, order) && k < |order| && Unlinks(next, prev, order[k], n2, p2)
    ensures Ring(n2, p2, Removed(order, k))
  {
    hide Removed, Unlinks, Distinct, Place;
    var r := Removed(order, k);
    UnlinkAt(next, prev, order, k, n2, p2, -1);
    UnlinkAt(next, prev, order, k, n2, p2, |order| - 1);
    EndPlaces(r);
    forall j | 0 <= j < |r| ensures 0 <= r[j] <= 64 && n2[r[j]] == Place(r, j + 1) && p2[r[j]] == Place(r, j - 1) {
      UnlinkAt(next, prev, order, k, n2, p2, j);
    }
  }

  lemma EndPlaces(r: seq<int>)
    ensures Place(r, -1) == 64 && Place(r, |r|) == 64
    ensures forall j :: 0 <= j < |r| ==> Place(r, j) == r[j]
  {
  }

  lemma UnlinkAt(next: seq<int>, prev: seq<int>, order: seq<int>, k: nat, n2: seq<int>, p2: seq<int>, j: int)
    requires Ring(next, prev, order) && k < |order| && Unlinks(next, prev, order[k], n2, p2) && -1 <= j < |order|
    ensures var r := Removed(order, k);
            && |r| == |order| - 1 && Distinct(r) && Sized(n2, p2) && 0 <= Place(r, j) <= 64
            && (j < |r| ==> n2[Place(r, j)] == Place(r, j + 1))
            && (j >= 0 ==> p2[Place(r, j)] == Place(r, j - 1))
  {
    hide Ring, Removed, Unlinks, Distinct;
    var i := if j >= k then j + 1 else j;
    Around(next, prev, order, i);
    RemovedAt(order, k, j - 1);
    RemovedAt(order, k, j);
    RemovedAt(order, k, j + 1);
    Bridged(next, prev, order, k, n2, p2, i);
  }

  /** The four stores that put a node behind the head. */
  ghost predicate LinksFront(next: seq<int>, prev: seq<int>, node: int, n2: seq<int>, p2: seq<int>) {
    && Sized(next, prev) && IsNode(node) && 0 <= next[64] <= 64
    && p2 == prev[node := 64][next[64] := node] && n2 == next[node := next[64]][64 := node]
  }

  ghost predicate LinksBack(next: seq<int>, prev: seq<int>, node: int, n2: seq<int>, p2: seq<int>) {
    && Sized(next, prev) && IsNode(node) && 0 <= prev[64] <= 64
    && n2 == next[node := 64][prev[64] := node] && p2 == prev[node := prev[64]][64 := node]
  }

  lemma FrontOk(next: seq<int>, prev: seq<int>, order: seq<int>, node: int, n2: seq<int>, p2: seq<int>)
    requires Ring(next, prev, order) && node !in order && LinksFront(next, prev, node, n2, p2)
    ensures Ring(n2, p2, [node] + order)
  {
    var r := [node] + order;
    forall j | 0 <= j < |r| ensures n2[r[j]] == Place(r, j + 1) && p2[r[j]] == Place(r, j - 1) {
      if j > 0 { assert r[j] == order[j - 1]; }
    }
  }

  lemma BackOk(next: seq<int>, prev: seq<int>, order: seq<int>, node: int, n2: seq<int>, p2: seq<int>)
    requires Ring(next, prev, order) && node !in order && LinksBack(next, prev, node, n2, p2)
    ensures Ring(n2, p2, order + [node])
  {
    var r := order + [node];
    forall j | 0 <= j < |r| ensures n2[r[j]] == Place(r, j + 1) && p2[r[j]] == Place(r, j - 1) {
      if j < |order| { assert r[j] == order[j]; }
    }
  }
}
