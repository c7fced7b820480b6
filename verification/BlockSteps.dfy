/**
 * The three ways in which locate_block changes the block trees
 * (kernel/fs/inode.c:212-265): a block is taken, an entry is stored in an
 * index block, and an address is stored in the inode.
 */
module BlockSteps {
  import opened BlockTree

  /** Volume with block number `b` named `n`. */
  ghost function Placed(s: Volume, n: Node, b: int, k: int): Volume {
    s.(used := s.used + {k}, at := s.at[n := b], owner := s.owner[b := n])
  }

  /** Volume with entry `j` of index block `n` set to `e`. */
  ghost function EntryStored(s: Volume, n: Node, es: seq<int>, j: nat, e: int): Volume
    requires n in s.at && j < |es|
  {
    s.(blocks := s.blocks[s.at[n] := Index(es[j := e])])
  }

  /** Volume with address `i` of the inode set to `e` and with `nb` blocks. */
  ghost function AddrStored(s: Volume, ino: int, i: nat, e: int, nb: nat): Volume
    requires ino in s.inodes && i < |s.inodes[ino].addrs|
  {
    s.(inodes := s.inodes[ino := s.inodes[ino].(addrs := s.inodes[ino].addrs[i := e])], nb := s.nb[ino := nb])
  }

  /** What is stored in an index block, a zeroed one included. */
  predicate Holds(b: Block, es: seq<int>) {
    |es| == 256 && forall j :: 0 <= j < 256 ==> es[j] == EntryAt(b, j)
  }

  // ---------- arithmetic of names ----------

  /** The pending blocks of one level: at most one. */
  lemma PendingIs(n: Node, ino: int, bn: nat, l: nat)
    requires l <= 2
    ensures Fresh(n, ino, bn, l) <==> Fresh(n, ino, bn, l + 1) || (n == Node(ino, l, bn) && NodeOk(n))
  {
  }

  predicate Covers(n: Node, bn: nat) {
    n.level <= 2 && n.lo <= bn < n.lo + Span(n.level)
  }

  /** A block that starts at `bn` on the level of a block covering `bn` is that block. */
  lemma CoverIsStart(n: Node, bn: nat)
    requires NodeOk(n) && Covers(n, bn)
    ensures NodeOk(Node(n.ino, n.level, bn)) <==> n.lo == bn
  {
  }

  lemma NoPendingAboveTop(ino: int, i: nat, bn: nat, m: Node)
    requires i < 13 && Covers(Top(ino, i), bn) && Fresh(m, ino, bn, Top(ino, i).level)
    ensures m == Top(ino, i)
  {
  }

  lemma NamesAreOk(s: Volume, ino: int, bn: nat, x: nat, n: Node)
    requires Dom(s, ino, bn, x) && n in s.at
    ensures NodeOk(n)
  {
    assert Has(s, n) || Fresh(n, ino, bn, x);
  }

  // ---------- taking a block ----------

  lemma PlacedEntry(s: Volume, n: Node, b: int, k: int, m: Node)
    ensures Entry(Placed(s, n, b, k), m) == if m == n then b else Entry(s, m)
  {
  }

  lemma PlacedDom(s: Volume, ino: int, bn: nat, l: nat, n: Node, b: int, k: int)
    requires Dom(s, ino, bn, l + 1) && n == Node(ino, l, bn) && NodeOk(n)
    ensures Dom(Placed(s, n, b, k), ino, bn, l)
  {
    var t := Placed(s, n, b, k);
    forall m ensures m in t.at <==> Has(t, m) || Fresh(m, ino, bn, l) {
      PendingIs(m, ino, bn, l);
      assert Has(t, m) <==> Has(s, m);
    }
  }

  lemma PlacedLabels(s: Volume, n: Node, b: int, k: int)
    requires Labels(s) && n !in s.at && b !in s.owner
    ensures Labels(Placed(s, n, b, k))
  {
  }

  lemma FreeIsUnowned(s: Volume, base: nat, reserved: set<int>, k: int)
    requires Bits(s, base, reserved) && k !in s.used
    ensures base + k !in s.owner && k !in reserved
  {
  }

  lemma PlacedBits(s: Volume, base: nat, reserved: set<int>, n: Node, k: int)
    requires Bits(s, base, reserved) && 0 < k < 8192 && k !in s.used
    ensures Bits(Placed(s, n, base + k, k), base, reserved)
  {
    FreeIsUnowned(s, base, reserved, k);
  }

  lemma PlacedBlock(s: Volume, ino: int, bn: nat, l: nat, n: Node, b: int, k: int, m: Node)
    requires m in s.at && m != n && BlockOk(s, m, ino, bn, l + 1) && n == Node(ino, l, bn) && NodeOk(n)
    ensures m in Placed(s, n, b, k).at && BlockOk(Placed(s, n, b, k), m, ino, bn, l)
  {
    var t := Placed(s, n, b, k);
    if m.level > 0 {
      forall j | 0 <= j < 256
        ensures Fresh(Child(m, j), ino, bn, l) || EntryAt(t.blocks[t.at[m]], j) == Entry(t, Child(m, j))
      {
        PendingIs(Child(m, j), ino, bn, l);
        PlacedEntry(s, n, b, k, Child(m, j));
        assert Fresh(Child(m, j), ino, bn, l + 1) || EntryAt(s.blocks[s.at[m]], j) == Entry(s, Child(m, j));
      }
    }
  }

  lemma NewBlock(s: Volume, ino: int, bn: nat, l: nat, n: Node, b: int, k: int)
    requires Dom(s, ino, bn, l + 1) && n == Node(ino, l, bn) && NodeOk(n) && ino in s.nb && s.nb[ino] == bn
    requires b in s.blocks && ReadsZero(s.blocks[b])
    ensures BlockOk(Placed(s, n, b, k), n, ino, bn, l)
  {
    var t := Placed(s, n, b, k);
    if l > 0 {
      forall j | 0 <= j < 256 ensures Entry(t, Child(n, j)) == 0 {
        assert Child(n, j) !in s.at by {
          assert !Has(s, Child(n, j)) && !Fresh(Child(n, j), ino, bn, l + 1);
        }
      }
    }
  }

  lemma PlacedInode(s: Volume, ino: int, bn: nat, l: nat, n: Node, b: int, k: int, i: int)
    requires i in s.inodes && InodeOk(s, i, ino, bn, l + 1) && n == Node(ino, l, bn) && NodeOk(n)
    ensures InodeOk(Placed(s, n, b, k), i, ino, bn, l)
  {
    var t := Placed(s, n, b, k);
    forall j | 0 <= j < 13 ensures Fresh(Top(i, j), ino, bn, l) || t.inodes[i].addrs[j] == Entry(t, Top(i, j)) {
      PendingIs(Top(i, j), ino, bn, l);
      PlacedEntry(s, n, b, k, Top(i, j));
      assert Fresh(Top(i, j), ino, bn, l + 1) || s.inodes[i].addrs[j] == Entry(s, Top(i, j));
    }
  }

  lemma PendingIsAbsent(s: Volume, ino: int, bn: nat, l: nat, n: Node)
    requires Dom(s, ino, bn, l + 1) && n == Node(ino, l, bn) && ino in s.nb && s.nb[ino] == bn
    ensures n !in s.at
  {
    assert !Has(s, n) && !Fresh(n, ino, bn, l + 1);
  }

  /** Taking a free, zeroed block for the pending block of level `l`. */
  lemma Place(s: Volume, base: nat, reserved: set<int>, ino: int, bn: nat, l: nat, n: Node, k: int)
    requires Shape(s, base, reserved, ino, bn, l + 1, l + 1) && l <= 2
    requires n == Node(ino, l, bn) && NodeOk(n) && ino in s.nb && s.nb[ino] == bn
    requires 0 < k < 8192 && k !in s.used && base + k in s.blocks && ReadsZero(s.blocks[base + k])
    ensures n !in s.at && base + k !in s.owner
    ensures Shape(Placed(s, n, base + k, k), base, reserved, ino, bn, l, l)
  {
    var t := Placed(s, n, base + k, k);
    hide Dom, Labels, Bits, BlockOk, InodeOk, Fresh, Has, NodeOk;
    PendingIsAbsent(s, ino, bn, l, n);
    PlacedDom(s, ino, bn, l, n, base + k, k);
    assert Labels(s) && Bits(s, base, reserved);
    FreeIsUnowned(s, base, reserved, k);
    PlacedLabels(s, n, base + k, k);
    PlacedBits(s, base, reserved, n, k);
    NewBlock(s, ino, bn, l, n, base + k, k);
    forall m | m in t.at ensures BlockOk(t, m, ino, bn, l) {
      if m != n { PlacedBlock(s, ino, bn, l, n, base + k, k, m); }
    }
    forall i | i in t.inodes ensures InodeOk(t, i, ino, bn, l) {
      PlacedInode(s, ino, bn, l, n, base + k, k, i);
    }
  }

  // ---------- storing an entry ----------

  /** Once block `j` of `n` is linked, no block on its level is pending anywhere else. */
  lemma PendingChild(n: Node, j: nat, bn: nat, m: Node)
    requires NodeOk(n) && 1 <= n.level && j < 256 && Covers(Child(n, j), bn)
    requires Fresh(m, n.ino, bn, n.level - 1)
    ensures m == Child(n, j) || Fresh(m, n.ino, bn, n.level)
  {
    PendingIs(m, n.ino, bn, n.level - 1);
    ChildOk(n, j);
    CoverIsStart(Child(n, j), bn);
  }

  lemma LinkedBlock(s: Volume, bn: nat, n: Node, j: nat, es: seq<int>, m: Node)
    requires n in s.at && NodeOk(n) && 1 <= n.level && j < 256 && Covers(Child(n, j), bn) && Child(n, j) in s.at
    requires s.at[n] in s.blocks && Holds(s.blocks[s.at[n]], es)
    requires m in s.at && NodeOk(m) && BlockOk(s, m, n.ino, bn, n.level - 1)
    requires s.at[m] == s.at[n] ==> m == n
    ensures BlockOk(EntryStored(s, n, es, j, s.at[Child(n, j)]), m, n.ino, bn, n.level)
  {
    var t := EntryStored(s, n, es, j, s.at[Child(n, j)]);
    if m.level > 0 {
      forall k: nat | k < 256
        ensures Fresh(Child(m, k), n.ino, bn, n.level) || EntryAt(t.blocks[t.at[m]], k) == Entry(t, Child(m, k))
      {
        LinkedEntry(s, bn, n, j, es, m, k);
      }
    }
  }

  lemma LinkedEntry(s: Volume, bn: nat, n: Node, j: nat, es: seq<int>, m: Node, k: nat)
    requires n in s.at && NodeOk(n) && 1 <= n.level && j < 256 && Covers(Child(n, j), bn) && Child(n, j) in s.at
    requires s.at[n] in s.blocks && Holds(s.blocks[s.at[n]], es)
    requires m in s.at && s.at[m] in s.blocks && NodeOk(m) && 1 <= m.level && k < 256
    requires Fresh(Child(m, k), n.ino, bn, n.level - 1) || EntryAt(s.blocks[s.at[m]], k) == Entry(s, Child(m, k))
    requires s.at[m] == s.at[n] ==> m == n
    ensures var t := EntryStored(s, n, es, j, s.at[Child(n, j)]);
            Fresh(Child(m, k), n.ino, bn, n.level) || EntryAt(t.blocks[t.at[m]], k) == Entry(t, Child(m, k))
  {
    if Child(m, k) == Child(n, j) {
      OneParent(m, k, n, j);
    } else if Fresh(Child(m, k), n.ino, bn, n.level - 1) {
      PendingChild(n, j, bn, Child(m, k));
    }
    hide Fresh, Covers, Child, NodeOk;
  }

  lemma LinkedInode(s: Volume, bn: nat, n: Node, j: nat, es: seq<int>, i: int)
    requires n in s.at && NodeOk(n) && 1 <= n.level && j < 256 && Covers(Child(n, j), bn) && Child(n, j) in s.at
             && |es| == 256
    requires i in s.inodes && InodeOk(s, i, n.ino, bn, n.level - 1)
    ensures InodeOk(EntryStored(s, n, es, j, s.at[Child(n, j)]), i, n.ino, bn, n.level)
  {
    var t := EntryStored(s, n, es, j, s.at[Child(n, j)]);
    forall k: nat | k < 13 ensures Fresh(Top(i, k), n.ino, bn, n.level) || t.inodes[i].addrs[k] == Entry(t, Top(i, k)) {
      if Fresh(Top(i, k), n.ino, bn, n.level - 1) {
        PendingChild(n, j, bn, Top(i, k));
        if Top(i, k) == Child(n, j) {
          TopIsNoChild(i, k, n, j);
        }
      } else {
        assert s.inodes[i].addrs[k] == Entry(s, Top(i, k));
      }
    }
  }

  /** Writing the index block back with the located child's number makes the child's level complete. */
  lemma Link(s: Volume, base: nat, reserved: set<int>, bn: nat, n: Node, j: nat, es: seq<int>)
    requires NodeOk(n) && 1 <= n.level && j < 256 && Covers(Child(n, j), bn)
    requires Shape(s, base, reserved, n.ino, bn, 0, n.level - 1)
    requires n in s.at && Child(n, j) in s.at && s.at[n] in s.blocks && Holds(s.blocks[s.at[n]], es)
    ensures Shape(EntryStored(s, n, es, j, s.at[Child(n, j)]), base, reserved, n.ino, bn, 0, n.level)
  {
    var t := EntryStored(s, n, es, j, s.at[Child(n, j)]);
    assert Dom(t, n.ino, bn, 0) by {
      assert Dom(s, n.ino, bn, 0);
      assert forall m :: Has(t, m) <==> Has(s, m);
    }
    assert Labels(t) && Bits(t, base, reserved);
    forall m | m in t.at ensures BlockOk(t, m, n.ino, bn, n.level) {
      NamesAreOk(s, n.ino, bn, 0, m);
      assert s.at[m] == s.at[n] ==> m == n by { assert Labels(s); }
      LinkedBlock(s, bn, n, j, es, m);
    }
    forall i | i in t.inodes ensures InodeOk(t, i, n.ino, bn, n.level) {
      LinkedInode(s, bn, n, j, es, i);
    }
  }

  // ---------- storing an address ----------

  lemma AddrBlock(s: Volume, bn: nat, ino: int, i: nat, m: Node)
    requires ino in s.inodes && i < 13 && Covers(Top(ino, i), bn) && Top(ino, i) in s.at && |s.inodes[ino].addrs| == 13
    requires m in s.at && NodeOk(m) && BlockOk(s, m, ino, bn, Top(ino, i).level)
    ensures BlockOk(AddrStored(s, ino, i, s.at[Top(ino, i)], bn + 1), m, ino, bn, 3)
  {
    if m.level > 0 {
      forall k: nat | k < 256 ensures !Fresh(Child(m, k), ino, bn, Top(ino, i).level) {
        TopIsNoChild(ino, i, m, k);
        if Fresh(Child(m, k), ino, bn, Top(ino, i).level) {
          NoPendingAboveTop(ino, i, bn, Child(m, k));
        }
      }
    }
    hide Fresh, Covers, Top, NodeOk, Child;
  }

  lemma AddrInode(s: Volume, bn: nat, ino: int, i: nat, h: int)
    requires ino in s.inodes && i < 13 && Covers(Top(ino, i), bn) && Top(ino, i) in s.at && |s.inodes[ino].addrs| == 13
    requires h in s.inodes && InodeOk(s, h, ino, bn, Top(ino, i).level)
    ensures InodeOk(AddrStored(s, ino, i, s.at[Top(ino, i)], bn + 1), h, ino, bn, 3)
  {
    forall k: nat | k < 13 ensures (h == ino && k == i) || !Fresh(Top(h, k), ino, bn, Top(ino, i).level) {
      if Fresh(Top(h, k), ino, bn, Top(ino, i).level) {
        NoPendingAboveTop(ino, i, bn, Top(h, k));
        TopsDiffer(ino, i, k);
      }
    }
    hide Fresh, Covers, Top, NodeOk;
  }

  lemma FinishedDom(s: Volume, bn: nat, ino: int, i: nat, e: int)
    requires Dom(s, ino, bn, 0) && ino in s.inodes && ino in s.nb && s.nb[ino] == bn && i < |s.inodes[ino].addrs|
    ensures Dom(AddrStored(s, ino, i, e, bn + 1), ino, bn, 3)
  {
    var t := AddrStored(s, ino, i, e, bn + 1);
    forall m ensures m in t.at <==> Has(t, m) || Fresh(m, ino, bn, 3) {
      assert Has(t, m) <==> Has(s, m) || Fresh(m, ino, bn, 0);
    }
  }

  /** Owners and bits do not depend on the blocks, the inodes or the file lengths. */
  lemma SameOwners(s: Volume, t: Volume, base: nat, reserved: set<int>)
    requires Labels(s) && Bits(s, base, reserved) && t.at == s.at && t.owner == s.owner && t.used == s.used
    ensures Labels(t) && Bits(t, base, reserved)
  {
  }

  /** Storing the address completes the new data block. */
  lemma Finish(s: Volume, base: nat, reserved: set<int>, bn: nat, ino: int, i: nat)
    requires i < 13 && bn < 66058 && Covers(Top(ino, i), bn)
    requires Shape(s, base, reserved, ino, bn, 0, Top(ino, i).level)
    requires ino in s.inodes && ino in s.nb && s.nb[ino] == bn && Top(ino, i) in s.at && |s.inodes[ino].addrs| == 13
    ensures TreesOk(AddrStored(s, ino, i, s.at[Top(ino, i)], bn + 1), base, reserved)
  {
    hide Covers, Fresh, NodeOk, Labels, Bits, Dom, BlockOk, InodeOk;
    var t := AddrStored(s, ino, i, s.at[Top(ino, i)], bn + 1);
    FinishedDom(s, bn, ino, i, s.at[Top(ino, i)]);
    SameOwners(s, t, base, reserved);
    forall m | m in t.at ensures BlockOk(t, m, ino, bn, 3) {
      NamesAreOk(s, ino, bn, 0, m);
      AddrBlock(s, bn, ino, i, m);
    }
    forall h | h in t.inodes ensures InodeOk(t, h, ino, bn, 3) {
      AddrInode(s, bn, ino, i, h);
    }
    assert forall h :: h in t.nb ==> t.nb[h] <= 66058;
    NonePending(t, base, reserved, ino, bn);
  }
}
