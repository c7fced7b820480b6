/**
 * The buffer cache of kernel/fs/buf.c. The bytes of a block are one value
 * here. A holder of a buffer's lock may change its bytes and writes them back
 * before giving it up.
 */
module BufCache {
  import opened BufList

  const UNUSED: int := 0xFFFF_FFFF

  /** One buf_t: block number, reference count, lock, bytes. */
  datatype Buf = Buf(block: int, refs: nat, locked: bool, data: int)

  function Stored(store: map<int, int>, b: int): int {
    if b in store then store[b] else 0
  }

  /** The referenced nodes are a prefix of the list. */
  predicate Split(bufs: seq<Buf>, order: seq<int>, cut: nat) {
    && |bufs| == 64 && cut <= |order| == 64 && Distinct(order)
    && forall k {:trigger order[k]} :: 0 <= k < 64 ==> (bufs[order[k]].refs > 0 <==> k < cut)
  }

  /** Block numbers of referenced nodes are real and distinct; the others carry none. */
  predicate Blocks(bufs: seq<Buf>) {
    && |bufs| == 64
    && (forall i {:trigger bufs[i]} :: 0 <= i < 64 ==>
          && (bufs[i].refs == 0 ==> bufs[i].block == 0xFFFF_FFFF && !bufs[i].locked)
          && (bufs[i].refs > 0 ==> 0 <= bufs[i].block < 0xFFFF_FFFF))
    && (forall i, j :: 0 <= i < j < 64 && bufs[i].refs > 0 && bufs[j].refs > 0 ==> bufs[i].block != bufs[j].block)
  }

  /** A referenced buffer holds what the disk holds, unless its holder has changed it. */
  predicate Coherent(bufs: seq<Buf>, store: map<int, int>, dirty: set<int>) {
    && |bufs| == 64
    && (forall i :: i in dirty ==> IsNode(i) && bufs[i].locked)
    && (forall i {:trigger bufs[i]} :: 0 <= i < 64 && bufs[i].refs > 0 && i !in dirty ==>
        bufs[i].data == Stored(store, bufs[i].block))
  }

  /** Every node is in a list of 64 distinct nodes. */
  lemma {:induction false} EveryNode(order: seq<int>, i: int)
    requires Distinct(order) && |order| == 64 && IsNode(i)
    ensures i in order
  {
    if i !in order {
      var all := order + [i];
      assert Distinct(all);
      DistinctFits(all, 64);
    }
  }

  lemma {:induction false} DistinctFits(all: seq<int>, n: nat)
    requires forall k {:trigger all[k]} :: 0 <= k < |all| ==> 0 <= all[k] < n
    requires forall j, k :: 0 <= j < k < |all| ==> all[j] != all[k]
    ensures |all| <= n
    decreases n
  {
    if |all| > 0 {
      assert 0 <= all[0] < n;
      if n - 1 in all {
        var i :| 0 <= i < |all| && all[i] == n - 1;
        DistinctFits(all[..i] + all[i + 1..], n - 1);
      } else {
        DistinctFits(all, n - 1);
      }
    }
  }

  // ---------- how the operations change buffers and list ----------

  /** One more reference, and perhaps the lock, on a buffer in use. */
  lemma HitKeeps(bufs: seq<Buf>, order: seq<int>, cut: nat, store: map<int, int>, dirty: set<int>, node: int, q: Buf)
    requires Split(bufs, order, cut) && Blocks(bufs) && Coherent(bufs, store, dirty) && IsNode(node)
    requires bufs[node].refs > 0 && q.refs > 0 && q.block == bufs[node].block && q.data == bufs[node].data
    requires node in dirty ==> q.locked
    ensures Split(bufs[node := q], order, cut) && Blocks(bufs[node := q]) && Coherent(bufs[node := q], store, dirty)
  {
  }

  /** What the invariants say of one buffer. */
  lemma OneBuf(bufs: seq<Buf>, store: map<int, int>, dirty: set<int>, node: int)
    requires Blocks(bufs) && Coherent(bufs, store, dirty) && IsNode(node)
    ensures |bufs| == 64 && (bufs[node].locked ==> bufs[node].refs > 0)
            && (bufs[node].block < 0xFFFF_FFFF ==> bufs[node].refs > 0)
    ensures bufs[node].refs > 0 && !bufs[node].locked ==>
            bufs[node].data == Stored(store, bufs[node].block) && node !in dirty
  {
  }

  lemma ModifyKeeps(bufs: seq<Buf>, order: seq<int>, cut: nat, store: map<int, int>, dirty: set<int>, node: int, d: int)
    requires Split(bufs, order, cut) && Blocks(bufs) && Coherent(bufs, store, dirty) && IsNode(node)
             && bufs[node].locked
    ensures var b2 := bufs[node := bufs[node].(data := d)];
            Split(b2, order, cut) && Blocks(b2) && Coherent(b2, store, dirty + {node})
  {
    assert bufs[node].refs > 0;
  }

  lemma PosIs(order: seq<int>, node: int, k: nat)
    requires Distinct(order) && k < |order| && order[k] == node
    ensures Pos(order, node) == k
  {
  }

  lemma MovedFront(order: seq<int>, node: int)
    requires Distinct(order) && |order| == 64 && order[63] == node
    ensures |Moved(order, node, true)| == 64 && Moved(order, node, true)[0] == node
    ensures forall k :: 1 <= k < 64 ==> Moved(order, node, true)[k] == order[k - 1]
  {
    PosIs(order, node, 63);
  }

  lemma MovedBack(order: seq<int>, node: int, p: nat)
    requires Distinct(order) && |order| == 64 && p < 64 && order[p] == node
    ensures |Moved(order, node, false)| == 64 && Moved(order, node, false)[63] == node
    ensures forall k :: 0 <= k < 63 ==> Moved(order, node, false)[k] == order[if k < p then k else k + 1]
  {
    PosIs(order, node, p);
  }

  lemma MissSplits(bufs: seq<Buf>, order: seq<int>, cut: nat, node: int, q: Buf)
    requires Split(bufs, order, cut) && order[63] == node && bufs[node].refs == 0 && q.refs > 0
    requires Distinct(Moved(order, node, true))
    ensures Split(bufs[node := q], Moved(order, node, true), cut + 1)
  {
    MovedFront(order, node);
    hide Moved;
    var o2, b2 := Moved(order, node, true), bufs[node := q];
    assert order[63] == node && cut <= 63;
    forall k | 0 <= k < 64 ensures b2[o2[k]].refs > 0 <==> k < cut + 1 {
      if k > 0 { assert o2[k] == order[k - 1] && order[k - 1] != order[63]; }
    }
  }

  lemma ReleaseSplits(bufs: seq<Buf>, order: seq<int>, cut: nat, node: int, p: nat, q: Buf)
    requires Split(bufs, order, cut) && p < 64 && order[p] == node && bufs[node].refs > 0 && q.refs == 0
    requires Distinct(Moved(order, node, false))
    ensures cut > 0 && Split(bufs[node := q], Moved(order, node, false), cut - 1)
  {
    MovedBack(order, node, p);
    hide Moved;
    var o2, b2 := Moved(order, node, false), bufs[node := q];
    PlaceInUse(bufs, order, cut, p);
    forall k: nat | k < 64 ensures b2[o2[k]].refs > 0 <==> k < cut - 1 {
      if k < 63 {
        OtherPlace(bufs, order, cut, p, q, if k < p then k else k + 1);
      }
    }
    hide Distinct;
  }

  lemma PlaceInUse(bufs: seq<Buf>, order: seq<int>, cut: nat, p: nat)
    requires Split(bufs, order, cut) && p < 64
    ensures bufs[order[p]].refs > 0 <==> p < cut
  {
    hide Distinct;
  }

  /** The node in another place is not the one that changes. */
  lemma OtherPlace(bufs: seq<Buf>, order: seq<int>, cut: nat, p: nat, q: Buf, i: nat)
    requires Split(bufs, order, cut) && p < 64 && i < 64 && i != p
    ensures IsNode(order[p]) && IsNode(order[i]) && (bufs[order[p] := q][order[i]].refs > 0 <==> i < cut)
  {
    assert order[i] != order[p];
    PlaceInUse(bufs, order, cut, i);
    hide Split, Distinct;
  }

  lemma MissKeeps(bufs: seq<Buf>, store: map<int, int>, dirty: set<int>, node: int, b: int)
    requires Blocks(bufs) && Coherent(bufs, store, dirty) && IsNode(node) && bufs[node].refs == 0
    requires 0 <= b < 0xFFFF_FFFF && forall i {:trigger bufs[i]} :: 0 <= i < 64 ==> bufs[i].block != b
    ensures Blocks(bufs[node := Buf(b, 1, true, Stored(store, b))])
            && Coherent(bufs[node := Buf(b, 1, true, Stored(store, b))], store, dirty)
  {
  }

  lemma FreeKeeps(bufs: seq<Buf>, store: map<int, int>, dirty: set<int>, node: int, d: int)
    requires Blocks(bufs) && Coherent(bufs, store, dirty) && IsNode(node) && node !in dirty
    ensures Blocks(bufs[node := Buf(0xFFFF_FFFF, 0, false, d)])
            && Coherent(bufs[node := Buf(0xFFFF_FFFF, 0, false, d)], store, dirty)
  {
  }

  /** A write-back changes one block on disk, which no other referenced buffer holds. */
  lemma WriteKeeps(bufs: seq<Buf>, store: map<int, int>, dirty: set<int>, node: int)
    requires Blocks(bufs) && Coherent(bufs, store, dirty) && IsNode(node) && bufs[node].refs > 0
    ensures Coherent(bufs, store[bufs[node].block := bufs[node].data], dirty - {node})
  {
    var st2 := store[bufs[node].block := bufs[node].data];
    forall i | 0 <= i < 64 && bufs[i].refs > 0 && i !in dirty - {node}
        ensures bufs[i].data == Stored(st2, bufs[i].block) {
      if i != node { assert bufs[i].block != bufs[node].block; }
    }
  }

  /** What buf_read comes to: the locked buffer, a reference to one that another holds, or the panic. */
  datatype Outcome = Got(node: int) | Held(node: int) | NoBuffer

  class Cache {
    var next: seq<int>
    var prev: seq<int>
    var bufs: seq<Buf>
    ghost var order: seq<int>
    ghost var cut: nat
    /** What the disk holds, block by block. */
    var store: map<int, int>
    ghost var dirty: set<int>

    ghost predicate Valid()
      reads this
    {
      Ring(next, prev, order) && Split(bufs, order, cut) && Blocks(bufs) && Coherent(bufs, store, dirty)
    }

    /** insert_head: the node leaves its place, if it has one, and goes behind or before the head. */
    method InsertHead(node: int, headNext: bool)
      requires Ring(next, prev, order) && IsNode(node)
      requires node !in order ==> next[node] == -1 && prev[node] == -1
      modifies `next, `prev, `order
      ensures Ring(next, prev, order)
      ensures order == Moved(old(order), node, headNext)
      ensures node !in old(order) ==> order == if headNext then [node] + old(order) else old(order) + [node]
      ensures forall p :: 0 <= p < |old(order)| && old(order)[p] == node ==>
        order == if headNext then [node] + (old(order)[..p] + old(order)[p + 1..])
                 else old(order)[..p] + old(order)[p + 1..] + [node]
      ensures forall i :: IsNode(i) && i !in old(order) && i != node ==>
              next[i] == old(next)[i] && prev[i] == old(prev)[i]
    {
      hide Ring, Pos;
      ghost var n0, p0, o0 := next, prev, order;
      RingSized(next, prev, order);
      if node in order { PointersOf(next, prev, order, node); }
      if next[node] != -1 && prev[node] != -1 {
        prev := prev[next[node] := prev[node]];
        next := next[prev[node] := next[node]];
        ghost var k := Pos(order, node);
        UnlinkOk(n0, p0, o0, k, next, prev);
        RemovedIn(o0, k);
        order := Removed(order, k);
      }
      Insert(node, headNext);
      assert order == Moved(o0, node, headNext);
      hide Moved, Removed;
      MovedIs(o0, node, headNext);
    }

    /** buf_init: all nodes unused, in the list from 0 to 63. */
    constructor ()
      ensures Valid() && cut == 0 && dirty == {} && forall i :: 0 <= i < 64 ==> bufs[i].refs == 0
    {
      hide Ring, Split, Blocks, Coherent, Distinct;
      next, prev := seq(64, _ => -1) + [64], seq(64, _ => -1) + [64];
      bufs := seq(64, _ => Buf(0xFFFF_FFFF, 0, false, 0));
      order, cut, store, dirty := [], 0, map[], {};
      new;
      LinkAll();
      AllUnused(bufs, order);
    }

    /** The loop of buf_init. */
    method LinkAll()
      requires |next| == 65 && |prev| == 65 && next[64] == 64 && prev[64] == 64 && order == []
      requires forall k :: 0 <= k < 64 ==> next[k] == -1 && prev[k] == -1
      modifies `next, `prev, `order
      ensures Ring(next, prev, order) && |order| == 64 && Distinct(order)
    {
      var i := 0;
      while i < 64
        invariant 0 <= i <= 64 && |order| == i && (forall k :: 0 <= k < i ==> order[k] == k) && Ring(next, prev, order)
        invariant forall k :: i <= k < 64 ==> next[k] == -1 && prev[k] == -1
      {
        InsertHead(i, false);
        i := i + 1;
      }
    }

    /** The search of buf_read: along next from the head until it comes back. */
    method Find(b: int) returns (node: int)
      requires Valid()
      ensures node == 64 || (IsNode(node) && bufs[node].block == b)
      ensures node == 64 ==> forall i {:trigger bufs[i]} :: 0 <= i < 64 ==> bufs[i].block != b
    {
      hide Ring, Split, Blocks, Coherent, Distinct;
      RingPlaces(next, prev, bufs, order, cut);
      Around(next, prev, order, -1);
      node := next[64];
      ghost var k := 0;
      while node != 64
        invariant 0 <= k <= 64 && node == Place(order, k) && forall j :: 0 <= j < k ==> bufs[order[j]].block != b
        decreases 64 - k
      {
        if bufs[node].block == b {
          return;
        }
        Around(next, prev, order, k);
        node := next[node];
        k := k + 1;
      }
      forall i {:trigger bufs[i]} | 0 <= i < 64 ensures bufs[i].block != b {
        EveryNode(order, i);
      }
    }

    /**
     * buf_read. A buffer for the block that is in use is shared; else the last
     * node is taken, unless it is in use, and filled from the disk.
     */
    method Read(b: int) returns (r: Outcome)
      requires Valid() && 0 <= b < 0xFFFF_FFFF
      modifies `next, `prev, `order, `bufs, `cut
      ensures Valid()
      ensures r.Got? || r.Held? ==> IsNode(r.node) && bufs[r.node].block == b && bufs[r.node].locked
                                    && bufs[r.node].refs == old(bufs)[r.node].refs + 1
      ensures r.Got? ==> !old(bufs)[r.node].locked && bufs[r.node].data == Stored(store, b)
      ensures r.Held? ==> old(bufs)[r.node].locked
      ensures r.Got? || r.Held? ==> bufs == old(bufs)[r.node := bufs[r.node]]
      ensures r == NoBuffer <==> forall i {:trigger old(bufs)[i]} :: 0 <= i < 64 ==>
              old(bufs)[i].refs > 0 && old(bufs)[i].block != b
      ensures r == NoBuffer ==> bufs == old(bufs) && order == old(order)
      ensures |old(bufs)| == 64 && forall i {:trigger old(bufs)[i]} :: 0 <= i < 64 && old(bufs)[i].block == b ==>
        && r == (if old(bufs)[i].locked then Held(i) else Got(i)) && order == old(order)
        && bufs[i] == old(bufs)[i].(refs := old(bufs)[i].refs + 1, locked := true)
      ensures r != NoBuffer && (forall i {:trigger old(bufs)[i]} :: 0 <= i < 64 ==> old(bufs)[i].block != b) ==>
        && |old(order)| == 64 && r == Got(old(order)[63]) && order == [old(order)[63]] + old(order)[..63]
        && bufs[r.node] == Buf(b, 1, true, Stored(store, b))
    {
      hide Ring, Split, Blocks, Coherent;
      var node := Find(b);
      OneBuf(bufs, store, dirty, if node == 64 then 0 else node);
      if node != 64 {
        OneBlock(bufs, node, b);
        r := Hit(node, b);
      } else {
        r := Miss(b);
      }
    }

    method Hit(node: int, b: int) returns (r: Outcome)
      requires Valid() && IsNode(node) && bufs[node].block == b && b < 0xFFFF_FFFF
      modifies `bufs
      ensures Valid() && bufs == old(bufs)[node := old(bufs)[node].(refs := old(bufs)[node].refs + 1, locked := true)]
      ensures r == if old(bufs)[node].locked then Held(node) else Got(node)
      ensures r == Got(node) ==> bufs[node].data == Stored(store, b)
    {
      hide Ring, Split, Blocks, Coherent;
      ghost var b0 := bufs;
      OneBuf(bufs, store, dirty, node);
      bufs := bufs[node := bufs[node].(refs := bufs[node].refs + 1)];
      if bufs[node].locked {
        r := Held(node);
      } else {
        bufs := bufs[node := bufs[node].(locked := true)];
        r := Got(node);
      }
      assert bufs == b0[node := bufs[node]];
      HitKeeps(b0, order, cut, store, dirty, node, bufs[node]);
    }

    method Miss(b: int) returns (r: Outcome)
      requires Valid() && 0 <= b < 0xFFFF_FFFF && forall i {:trigger bufs[i]} :: 0 <= i < 64 ==> bufs[i].block != b
      modifies `next, `prev, `order, `bufs, `cut
      ensures Valid() && (r.Got? || r == NoBuffer)
      ensures r.Got? ==>
              IsNode(r.node) && old(bufs)[r.node].refs == 0 && !old(bufs)[r.node].locked
              && bufs == old(bufs)[r.node := Buf(b, 1, true, Stored(store, b))]
      ensures r == NoBuffer <==> forall i {:trigger old(bufs)[i]} :: 0 <= i < 64 ==> old(bufs)[i].refs > 0
      ensures r == NoBuffer ==> bufs == old(bufs) && order == old(order)
      ensures r.Got? ==>
        |old(order)| == 64 && r.node == old(order)[63] && order == [old(order)[63]] + old(order)[..63]
    {
      hide Ring, Split, Blocks, Coherent, Moved, Distinct;
      OneBuf(bufs, store, dirty, 0);
      LastNode(next, prev, bufs, order, cut);
      RingPlaces(next, prev, bufs, order, cut);
      var node := prev[64];
      OneBuf(bufs, store, dirty, node);
      if bufs[node].refs != 0 {
        return NoBuffer;
      }
      ghost var b0, o0 := bufs, order;
      var buf := bufs[node].(block := b, refs := 1);
      InsertHead(node, true);
      assert order == [node] + o0[..63] by { MovedFrom(o0, order, node); }
      RingSized(next, prev, order);
      MissSplits(b0, o0, cut, node, Buf(b, 1, true, Stored(store, b)));
      MissKeeps(b0, store, dirty, node, b);
      buf := buf.(locked := true);
      buf := buf.(data := Stored(store, b));
      bufs := bufs[node := buf];
      cut := cut + 1;
      assert bufs == b0[node := buf];
      r := Got(node);
    }

    /** The lock of a buffer that another held, once it is free: the end of buf_read after a hit. */
    method Resume(node: int)
      requires Valid() && IsNode(node) && bufs[node].refs > 0 && !bufs[node].locked
      modifies `bufs
      ensures Valid() && bufs == old(bufs)[node := old(bufs)[node].(locked := true)]
      ensures bufs[node].data == Stored(store, bufs[node].block)
    {
      hide Ring, Split, Blocks, Coherent;
      OneBuf(bufs, store, dirty, node);
      HitKeeps(bufs, order, cut, store, dirty, node, bufs[node].(locked := true));
      bufs := bufs[node := bufs[node].(locked := true)];
    }

    /** The holder changes the bytes. */
    method Modify(node: int, data: int)
      requires Valid() && IsNode(node) && bufs[node].locked
      modifies `bufs, `dirty
      ensures Valid() && bufs == old(bufs)[node := old(bufs)[node].(data := data)] && dirty == old(dirty) + {node}
    {
      hide Ring, Split, Blocks, Coherent;
      OneBuf(bufs, store, this.dirty, node);
      ModifyKeeps(bufs, order, cut, store, this.dirty, node, data);
      bufs := bufs[node := bufs[node].(data := data)];
      dirty := dirty + {node};
    }

    /** buf_write: disk and buffer agree again; no other block changes. */
    method Write(node: int)
      requires Valid() && IsNode(node) && bufs[node].locked
      modifies `store, `dirty
      ensures Valid() && dirty == old(dirty) - {node} && store == old(store)[bufs[node].block := bufs[node].data]
    {
      hide Ring, Split, Blocks, Coherent;
      OneBuf(bufs, store, dirty, node);
      WriteKeeps(bufs, store, dirty, node);
      store := store[bufs[node].block := bufs[node].data];
      dirty := dirty - {node};
    }

    /** buf_release, by a holder that has written back; the last one moves the node to the end. */
    method Release(node: int)
      requires Valid() && IsNode(node) && bufs[node].locked && node !in dirty
      modifies `next, `prev, `order, `bufs, `cut
      ensures Valid() && forall i {:trigger bufs[i]} :: 0 <= i < 64 && i != node ==> bufs[i] == old(bufs)[i]
      ensures |bufs| == |old(bufs)| == 64 && old(bufs)[node].refs >= 1
      ensures bufs[node] == if old(bufs)[node].refs > 1
        then old(bufs)[node].(refs := old(bufs)[node].refs - 1, locked := false)
        else old(bufs)[node].(refs := 0, locked := false, block := 0xFFFF_FFFF)
      ensures old(bufs)[node].refs > 1 ==> order == old(order) && cut == old(cut)
      ensures old(bufs)[node].refs == 1 ==>
        cut == old(cut) - 1 && forall p :: 0 <= p < |old(order)| && old(order)[p] == node ==>
          order == old(order)[..p] + old(order)[p + 1..] + [node]
    {
      hide Ring, Split, Blocks, Coherent;
      ghost var b0, o0, c0 := bufs, order, cut;
      OneBuf(bufs, store, dirty, node);
      HitOrLast(bufs, order, cut, store, dirty, node);
      bufs := bufs[node := bufs[node].(locked := false)];
      bufs := bufs[node := bufs[node].(refs := bufs[node].refs - 1)];
      assert bufs == b0[node := b0[node].(locked := false, refs := b0[node].refs - 1)];
      if bufs[node].refs == 0 {
        EveryNodeIn(b0, o0, c0, node);
        ghost var p := Pos(o0, node);
        var buf := bufs[node].(block := 0xFFFF_FFFF);
        InsertHead(node, false);
        RingSized(next, prev, order);
        ReleaseSplits(b0, o0, c0, node, p, buf);
        FreeKeeps(b0, store, dirty, node, buf.data);
        MovedBack(o0, node, p);
        bufs := bufs[node := buf];
        cut := cut - 1;
        assert bufs == b0[node := buf];
      }
    }

    /** The second half of insert_head, for a node that is out of the list. */
    method Insert(node: int, headNext: bool)
      requires Ring(next, prev, order) && IsNode(node) && node !in order
      modifies `next, `prev, `order
      ensures Ring(next, prev, order) && order == if headNext then [node] + old(order) else old(order) + [node]
      ensures forall i :: IsNode(i) && i !in old(order) && i != node ==>
              next[i] == old(next)[i] && prev[i] == old(prev)[i]
    {
      hide Ring;
      ghost var n0, p0 := next, prev;
      RingSized(next, prev, order);
      HeadInRange(next, prev, order);
      if headNext {
        prev := prev[node := 64];
        next := next[node := next[64]];
        prev := prev[next[64] := node];
        next := next[64 := node];
        FrontOk(n0, p0, order, node, next, prev);
        order := [node] + order;
      } else {
        next := next[node := 64];
        prev := prev[node := prev[64]];
        next := next[prev[64] := node];
        prev := prev[64 := node];
        BackOk(n0, p0, order, node, next, prev);
        order := order + [node];
      }
    }
  }

  /** The list after insert_head, by the place of the node: it goes to one end, the others keep their order. */
  lemma MovedIs(order: seq<int>, node: int, front: bool)
    requires Distinct(order)
    ensures node !in order ==> Moved(order, node, front) == if front then [node] + order else order + [node]
    ensures forall p :: 0 <= p < |order| && order[p] == node ==>
      Moved(order, node, front)
      == if front then [node] + (order[..p] + order[p + 1..]) else order[..p] + order[p + 1..] + [node]
  {
    forall p | 0 <= p < |order| && order[p] == node
      ensures Moved(order, node, front)
        == if front then [node] + (order[..p] + order[p + 1..]) else order[..p] + order[p + 1..] + [node]
    {
      PosIs(order, node, p);
    }
  }

  lemma OneBlock(bufs: seq<Buf>, node: int, b: int)
    requires Blocks(bufs) && IsNode(node) && bufs[node].block == b < 0xFFFF_FFFF
    ensures forall i {:trigger bufs[i]} :: 0 <= i < 64 && bufs[i].block == b ==> i == node
  {
  }

  lemma MovedFrom(o0: seq<int>, order: seq<int>, node: int)
    requires |o0| == 64 && o0[63] == node
    requires forall p :: 0 <= p < |o0| && o0[p] == node ==> order == [node] + (o0[..p] + o0[p + 1..])
    ensures order == [node] + o0[..63]
  {
    assert o0[..63] + o0[63 + 1..] == o0[..63];
  }

  lemma RingSized(next: seq<int>, prev: seq<int>, order: seq<int>)
    requires Ring(next, prev, order)
    ensures Sized(next, prev) && Distinct(order)
  {
  }

  lemma RingPlaces(next: seq<int>, prev: seq<int>, bufs: seq<Buf>, order: seq<int>, cut: nat)
    requires Ring(next, prev, order) && Split(bufs, order, cut)
    ensures |bufs| == 64 && |order| == 64 && Distinct(order)
    ensures forall k {:trigger order[k]} :: 0 <= k < 64 ==> IsNode(order[k])
  {
  }

  /** The node before the head is the last one; it is in use only when all are. */
  lemma LastNode(next: seq<int>, prev: seq<int>, bufs: seq<Buf>, order: seq<int>, cut: nat)
    requires Ring(next, prev, order) && Split(bufs, order, cut)
    ensures |prev| == 65 && prev[64] == order[63] && IsNode(order[63]) && order[63] in order
    ensures bufs[order[63]].refs > 0 <==> forall i {:trigger bufs[i]} :: 0 <= i < 64 ==> bufs[i].refs > 0
  {
    Around(next, prev, order, 64);
    PlaceInUse(bufs, order, cut, 63);
    hide Ring, Distinct, Split;
    if cut == 64 {
      forall i {:trigger bufs[i]} | 0 <= i < 64 ensures bufs[i].refs > 0 {
        NodeInUse(bufs, order, i);
      }
    }
  }

  lemma NodeInUse(bufs: seq<Buf>, order: seq<int>, i: nat)
    requires Split(bufs, order, 64) && i < 64
    ensures bufs[i].refs > 0
  {
    EveryNode(order, i);
    PlaceInUse(bufs, order, 64, Pos(order, i));
    hide Split, Distinct;
  }

  lemma AllUnused(bufs: seq<Buf>, order: seq<int>)
    requires |bufs| == 64 && Distinct(order) && |order| == 64
    requires forall i {:trigger bufs[i]} :: 0 <= i < 64 ==> bufs[i] == Buf(0xFFFF_FFFF, 0, false, 0)
    ensures Split(bufs, order, 0) && Blocks(bufs) && Coherent(bufs, map[], {})
  {
  }

  lemma EveryNodeIn(bufs: seq<Buf>, order: seq<int>, cut: nat, node: int)
    requires Split(bufs, order, cut) && IsNode(node)
    ensures Distinct(order) && |order| == 64 && node in order
  {
    EveryNode(order, node);
  }

  lemma HitOrLast(bufs: seq<Buf>, order: seq<int>, cut: nat, store: map<int, int>, dirty: set<int>, node: int)
    requires Split(bufs, order, cut) && Blocks(bufs) && Coherent(bufs, store, dirty) && IsNode(node)
    requires bufs[node].refs > 0 && node !in dirty
    ensures bufs[node].refs > 1 ==>
      var b2 := bufs[node := bufs[node].(locked := false, refs := bufs[node].refs - 1)];
      Split(b2, order, cut) && Blocks(b2) && Coherent(b2, store, dirty)
  {
    if bufs[node].refs > 1 {
      HitKeeps(bufs, order, cut, store, dirty, node, bufs[node].(locked := false, refs := bufs[node].refs - 1));
    }
  }

  /** At most 64 buffers are in use, and the prefix says which: a miss fails only when all of them are. */
  lemma PrefixIsInUse(bufs: seq<Buf>, order: seq<int>, cut: nat, i: int)
    requires Split(bufs, order, cut) && IsNode(i)
    ensures bufs[i].refs > 0 <==> i in order[..cut]
    ensures cut == 64 <==> forall j {:trigger bufs[j]} :: 0 <= j < 64 ==> bufs[j].refs > 0
  {
    EveryNode(order, i);
    var k := Pos(order, i);
    assert order[k] == i;
    forall j | 0 <= j < 64 && cut == 64 ensures bufs[j].refs > 0 { EveryNode(order, j); }
    if cut < 64 { assert bufs[order[cut]].refs == 0; }
  }
}
