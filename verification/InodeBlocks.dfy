/** Finding and creating the data blocks of an inode (kernel/fs/inode.c:210-265). */
module InodeBlocks {
  import opened BlockTree
  import opened BlockSteps
  import Bitmap

  /** Every block outside the trees of `t` is as in `s`, so free blocks stay zeroed. */
  ghost predicate OthersKept(s: Volume, t: Volume) {
    forall b :: b in s.blocks ==> b in t.blocks && (b in t.owner || t.blocks[b] == s.blocks[b])
  }

  /** From `s` to `t` blocks were only added, and only index blocks up to `level` were rewritten. */
  ghost predicate Extended(s: Volume, t: Volume, level: nat) {
    && t.inodes == s.inodes && t.nb == s.nb && s.used <= t.used
    && (forall n :: n in s.at ==> n in t.at && t.at[n] == s.at[n])
    && (forall n :: n in s.at && (n.level == 0 || n.level > level) && s.at[n] in s.blocks ==>
          s.at[n] in t.blocks && t.blocks[s.at[n]] == s.blocks[s.at[n]])
    && OthersKept(s, t)
  }

  lemma ExtendedTrans(s: Volume, t: Volume, u: Volume, level: nat)
    requires Extended(s, t, level) && Extended(t, u, level)
    requires forall b :: b in t.owner ==> b in u.owner
    ensures Extended(s, u, level)
  {
  }

  lemma StaysZeroed(s: Volume, t: Volume, base: nat, reserved: set<int>)
    requires FreeZeroed(s, base) && OthersKept(s, t) && s.used <= t.used && Bits(t, base, reserved)
    ensures FreeZeroed(t, base)
  {
    forall k: int | 0 <= k < 8192 && k !in t.used ensures base + k in t.blocks && ReadsZero(t.blocks[base + k]) {
      FreeIsUnowned(t, base, reserved, k);
    }
  }

  /** Where locating block `bn` of a file with `nb` blocks starts, at a tree block `n` covering it. */
  ghost predicate MayLocate(s: Volume, base: nat, reserved: set<int>, n: Node, bn: nat) {
    && NodeOk(n) && Covers(n, bn) && bn < 66058 && n.ino in s.nb && bn <= s.nb[n.ino]
    && (if bn < s.nb[n.ino] then TreesOk(s, base, reserved)
        else Shape(s, base, reserved, n.ino, bn, n.level + 1, n.level + 1) && |s.used| + Need(n.level, bn) <= 8192)
    && FreeZeroed(s, base)
  }

  /** What a new block `bn` adds below `n`. */
  ghost predicate Added(s: Volume, t: Volume, base: nat, reserved: set<int>, n: Node, bn: nat) {
    && Shape(t, base, reserved, n.ino, bn, 0, n.level) && FreeZeroed(t, base)
    && Extended(s, t, n.level)
    && |t.used| == |s.used| + Need(n.level, bn)
    && n in t.at && Node(n.ino, 0, bn) in t.at
    && t.at[Node(n.ino, 0, bn)] in t.blocks && ReadsZero(t.blocks[t.at[Node(n.ino, 0, bn)]])
  }

  /** After the first step of locate_block: the tree block `n` is there, pending only in its parent. */
  ghost predicate Entered(s: Volume, t: Volume, base: nat, reserved: set<int>, n: Node, bn: nat) {
    && Shape(t, base, reserved, n.ino, bn, n.level, n.level) && FreeZeroed(t, base)
    && Extended(s, t, n.level)
    && |t.used| == |s.used| + (if n.lo == bn then 1 else 0)
    && n in t.at && t.at[n] in t.blocks && (n.lo == bn ==> ReadsZero(t.blocks[t.at[n]]))
  }

  /** Locating is defined below and at the end of a dense file, with room for the blocks it may add. */
  ghost predicate MayGrow(s: Volume, base: nat, reserved: set<int>, ino: int, bn: nat) {
    && TreesOk(s, base, reserved) && FreeZeroed(s, base)
    && ino in s.inodes && ino in s.nb && bn <= s.nb[ino] && bn < 66058
    && (bn == s.nb[ino] ==> |s.used| + Need(2, bn) <= 8192)
  }

  /** After data block `bn` of `ino` was located: only `ino` grew, by exactly the blocks starting at `bn`. */
  ghost predicate Grew(s: Volume, t: Volume, base: nat, reserved: set<int>, ino: int, bn: nat)
    requires ino in s.nb && ino in s.inodes
  {
    && TreesOk(t, base, reserved) && FreeZeroed(t, base)
    && t.nb == s.nb[ino := if bn == s.nb[ino] then bn + 1 else s.nb[ino]]
    && ino in t.inodes && t.inodes == s.inodes[ino := t.inodes[ino]] && t.inodes[ino].size == s.inodes[ino].size
    && (forall n :: n in s.at ==> n in t.at && t.at[n] == s.at[n])
    && (forall n :: n in s.at && n.level == 0 && s.at[n] in s.blocks ==>
          s.at[n] in t.blocks && t.blocks[s.at[n]] == s.blocks[s.at[n]])
    && s.used <= t.used && OthersKept(s, t)
    && |t.used| == |s.used| + (if bn == s.nb[ino] then Need(2, bn) else 0)
    && Node(ino, 0, bn) in t.at && t.at[Node(ino, 0, bn)] in t.blocks
    && (bn == s.nb[ino] ==> ReadsZero(t.blocks[t.at[Node(ino, 0, bn)]]))
  }

  class Disk {
    var blocks: map<int, Block>
    var bitmap: seq<bv8>
    var inodes: map<int, Inode>
    ghost var at: map<Node, int>
    ghost var owner: map<int, Node>
    ghost var nb: map<int, nat>
    const base: nat
    ghost const reserved: set<int>

    ghost function View(): Volume
      requires Bitmap.WellFormed(bitmap)
      reads this
    {
      Volume(blocks, Bitmap.Used(bitmap), inodes, at, owner, nb)
    }

    /** bitmap_alloc_block: the least free block, or 0 exactly when all are in use. */
    method AllocBlock() returns (b: int)
      requires Bitmap.WellFormed(bitmap) && 0 in Bitmap.Used(bitmap)
      modifies `bitmap
      ensures Bitmap.WellFormed(bitmap)
      ensures b == 0 <==> |Bitmap.Used(old(bitmap))| == 8192
      ensures b == 0 ==> bitmap == old(bitmap)
      ensures b != 0 ==> 0 < b - base < 8192 && b - base !in Bitmap.Used(old(bitmap))
                         && Bitmap.Used(bitmap) == Bitmap.Used(old(bitmap)) + {b - base}
      ensures b != 0 ==> forall k: nat :: k < b - base ==> k in Bitmap.Used(old(bitmap))
    {
      var d, r := Bitmap.SearchAndSet(bitmap);
      if r.Number? {
        Bitmap.UsedIsBounded(d);
        bitmap := d;
        b := base + r.n;
      } else {
        assert Bitmap.Bit(bitmap, 0);
        Bitmap.AllSetMeansFull(bitmap);
        b := 0;
      }
    }

    /** The first step of locate_block for a pending block: it is taken from the bitmap. */
    method Take(ghost n: Node, ghost bn: nat) returns (b: int)
      requires Bitmap.WellFormed(bitmap) && MayLocate(View(), base, reserved, n, bn)
      requires n.lo == bn && bn == nb[n.ino]
      modifies `bitmap, `at, `owner
      ensures Bitmap.WellFormed(bitmap) && b != 0 && b in blocks && ReadsZero(blocks[b])
      ensures Shape(View(), base, reserved, n.ino, bn, n.level, n.level) && FreeZeroed(View(), base)
      ensures n !in old(at) && n in at && at[n] == b
      ensures Extended(old(View()), View(), n.level)
      ensures |View().used| == |old(View()).used| + 1
      ensures forall c :: c in old(owner) ==> c in owner
    {
      hide MayLocate, Shape, FreeZeroed, Extended, Bitmap.Used;
      ghost var s := View();
      CanTake(s, base, reserved, n, bn);
      b := AllocBlock();
      TakeStep(s, base, reserved, n, bn, b - base);
      at := at[n := b];
      owner := owner[b := n];
      assert View() == Placed(s, n, base + (b - base), b - base);
    }

    /**
     * locate_block. The pointer to the entry is returned as its new value,
     * which the caller stores; `bn` counts from the first index `n` covers.
     */
    method Locate(entry: int, bn: nat, size: nat, ghost n: Node, ghost abs: nat, ghost s: Volume)
      returns (e: int, ret: int)
      requires Bitmap.WellFormed(bitmap) && s == View() && MayLocate(s, base, reserved, n, abs)
      requires entry == Entry(s, n) && size == Span(n.level) && bn == abs - n.lo
      modifies `blocks, `bitmap, `at, `owner
      ensures Bitmap.WellFormed(bitmap)
      ensures abs < s.nb[n.ino] ==> View() == s
      ensures abs == s.nb[n.ino] ==> Added(s, View(), base, reserved, n, abs)
      ensures n in at && at[n] == e && Node(n.ino, 0, abs) in at && at[Node(n.ino, 0, abs)] == ret
      ensures forall b :: b in s.owner ==> b in owner
      decreases n.level
    {
      hide MayLocate, Entered, Added, Holds, Extended, Shape, TreesOk, FreeZeroed, Covers, NodeOk, Need, Bitmap.Used;
      e := Enter(entry, n, abs, s);
      ghost var s1 := View();
      if size == 1 {
        Leaf(s, s1, base, reserved, n, abs);
        ret := e;
        return;
      }
      var nextSize := size / 256;
      var j, nextBn := bn / nextSize, bn % nextSize;
      ChildOf(n, abs, bn, size, s, base, reserved);
      Inner(s, s1, base, reserved, n, j, abs);
      var es := ReadEntries(blocks[e]);
      var child;
      child, ret := Locate(es[j], nextBn, nextSize, Child(n, j), abs, s1);
      Back(s, s1, View(), base, reserved, n, j, es, abs);
      ghost var t := EntryStored(View(), n, es, j, child);
      blocks := blocks[e := Index(es[j := child])];
      assert View() == t;
    }

    /**
     * inode_locate_block, up to the next index of a dense file. An index below
     * the file's block count changes nothing; the next one adds exactly the
     * blocks that start there. The panic for a larger index is not reached.
     */
    method LocateBlock(ino: int, bn: nat, ghost s: Volume) returns (b: int)
      requires Bitmap.WellFormed(bitmap) && s == View() && MayGrow(s, base, reserved, ino, bn)
      modifies `blocks, `bitmap, `inodes, `at, `owner, `nb
      ensures Bitmap.WellFormed(bitmap)
      ensures bn < s.nb[ino] ==> View() == s
      ensures Grew(s, View(), base, reserved, ino, bn)
      ensures Node(ino, 0, bn) in at && b == at[Node(ino, 0, bn)]
    {
      hide MayLocate, Entered, Added, Shape, Extended, FreeZeroed, Covers, Need, Grew, Bitmap.Used;
      var i, rel, size := 12, bn, 65536;
      if bn < 10 {
        i, rel, size := bn, 0, 1;
      } else if bn - 10 < 512 {
        i, rel, size := 10 + (bn - 10) / 256, (bn - 10) % 256, 256;
      } else {
        rel := bn - 10 - 512;
      }
      ghost var n := Top(ino, i);
      WhichTop(bn);
      StartAtTop(s, base, reserved, ino, i, bn, rel);
      var addr;
      if bn < 10 {
        addr := Enter(inodes[ino].addrs[i], n, bn, s);
        b := addr;
        Leaf(s, View(), base, reserved, n, bn);
      } else {
        addr, b := Locate(inodes[ino].addrs[i], rel, size, n, bn, s);
      }
      Done(s, View(), base, reserved, ino, i, bn);
      ghost var t := AddrStored(View(), ino, i, addr, if bn == s.nb[ino] then bn + 1 else s.nb[ino]);
      inodes := inodes[ino := inodes[ino].(addrs := inodes[ino].addrs[i := addr])];
      nb := nb[ino := if bn == s.nb[ino] then bn + 1 else s.nb[ino]];
      assert View() == t;
    }

    /** The first step of locate_block: the entry if there is one, else a new block. */
    method Enter(entry: int, ghost n: Node, ghost abs: nat, ghost s: Volume) returns (e: int)
      requires Bitmap.WellFormed(bitmap) && s == View() && MayLocate(s, base, reserved, n, abs)
      requires entry == Entry(s, n)
      modifies `bitmap, `at, `owner
      ensures Bitmap.WellFormed(bitmap) && e in blocks && n in at && at[n] == e
      ensures abs < s.nb[n.ino] ==> View() == s
      ensures abs == s.nb[n.ino] ==> Entered(s, View(), base, reserved, n, abs)
      ensures forall b :: b in s.owner ==> b in owner
    {
      hide MayLocate, Shape, FreeZeroed, Extended, TreesOk, Covers, NodeOk, Need, Bitmap.Used;
      EntryTells(s, base, reserved, n, abs);
      e := entry;
      if e == 0 {
        e := Take(n, abs);
      } else {
        Present(s, base, reserved, n, abs);
      }
    }
  }

  /** A block that is there already needs no step. */
  lemma Present(s: Volume, base: nat, reserved: set<int>, n: Node, bn: nat)
    requires MayLocate(s, base, reserved, n, bn) && n in s.at && n.lo < s.nb[n.ino]
    ensures s.at[n] in s.blocks
    ensures bn == s.nb[n.ino] ==> Entered(s, s, base, reserved, n, bn)
  {
    ghost var x := if bn < s.nb[n.ino] then 3 else n.level + 1;
    NonePending(s, base, reserved, n.ino, bn);
    assert BlockOk(s, n, n.ino, bn, x);
    hide Dom, BlockOk, InodeOk, Labels, Bits, NodeOk, Covers;
    if bn == s.nb[n.ino] { NotPending(s, base, reserved, n, bn); }
  }

  /** For a data block the first step is all. */
  lemma Leaf(s: Volume, t: Volume, base: nat, reserved: set<int>, n: Node, bn: nat)
    requires MayLocate(s, base, reserved, n, bn) && n.level == 0
    ensures n == Node(n.ino, 0, bn)
    ensures Entered(s, t, base, reserved, n, bn) ==> Added(s, t, base, reserved, n, bn)
  {
    NeedIs(n, bn);
  }

  lemma ChildOf(n: Node, abs: nat, bn: nat, size: nat, s: Volume, base: nat, reserved: set<int>)
    requires MayLocate(s, base, reserved, n, abs) && n.level > 0 && size == Span(n.level) && bn == abs - n.lo
    ensures size / 256 > 0 && bn / (size / 256) < 256
    ensures size / 256 == Span(Child(n, bn / (size / 256)).level)
    ensures bn % (size / 256) == abs - Child(n, bn / (size / 256)).lo
    ensures Covers(Child(n, bn / (size / 256)), abs)
  {
  }

  /** Going on in the child: its entry, and what the recursive call needs. */
  lemma Inner(s: Volume, t: Volume, base: nat, reserved: set<int>, n: Node, j: nat, bn: nat)
    requires MayLocate(s, base, reserved, n, bn) && n.level > 0 && j < 256 && Covers(Child(n, j), bn)
    requires bn < s.nb[n.ino] ==> t == s
    requires bn == s.nb[n.ino] ==> Entered(s, t, base, reserved, n, bn)
    requires n in t.at && t.at[n] in t.blocks
    ensures t.nb == s.nb && MayLocate(t, base, reserved, Child(n, j), bn)
    ensures EntryAt(t.blocks[t.at[n]], j) == Entry(t, Child(n, j))
    ensures t.blocks[t.at[n]].Index? ==> |t.blocks[t.at[n]].entries| == 256
  {
    hide Shape, Need, FreeZeroed, TreesOk;
    NeedIs(n, bn);
    Down(t, base, reserved, n, j, bn);
    NonePending(t, base, reserved, n.ino, bn);
    ChildEntry(t, base, reserved, n, j, bn, if bn < s.nb[n.ino] then 3 else n.level, t.blocks[t.at[n]]);
  }

  /** The result of the write-back, on the way up. */
  lemma Back(s: Volume, s1: Volume, s2: Volume, base: nat, reserved: set<int>, n: Node, j: nat, es: seq<int>, bn: nat)
    requires MayLocate(s, base, reserved, n, bn) && n.level > 0 && j < 256 && Covers(Child(n, j), bn)
    requires bn < s.nb[n.ino] ==> s1 == s && s2 == s
    requires bn == s.nb[n.ino] ==>
             Entered(s, s1, base, reserved, n, bn) && Added(s1, s2, base, reserved, Child(n, j), bn)
    requires n in s1.at && s1.at[n] in s1.blocks && Holds(s1.blocks[s1.at[n]], es) && |es| == 256
    requires forall b :: b in s1.owner ==> b in s2.owner
    requires Child(n, j) in s2.at
    ensures n in s2.at && s2.at[n] == s1.at[n]
    ensures bn < s.nb[n.ino] ==> EntryStored(s2, n, es, j, s2.at[Child(n, j)]) == s
    ensures bn == s.nb[n.ino] ==> Added(s, EntryStored(s2, n, es, j, s2.at[Child(n, j)]), base, reserved, n, bn)
  {
    hide Shape, Need, FreeZeroed, TreesOk, Holds;
    NeedIs(n, bn);
    if bn < s.nb[n.ino] {
      SameBlock(s, base, reserved, n, j, es);
    } else {
      Up(s1, s2, base, reserved, n, j, es, bn);
      hide Extended;
      ExtendedTrans(s, s1, EntryStored(s2, n, es, j, s2.at[Child(n, j)]), n.level);
    }
  }

  /** Index `bn` is looked for under address `i`, at position `rel`. */
  predicate UnderTop(i: nat, bn: nat, rel: nat) {
    i < 13 && Covers(Top(0, i), bn) && rel == bn - Top(0, i).lo
  }

  lemma WhichTop(bn: nat)
    requires bn < 66058
    ensures bn < 10 ==> UnderTop(bn, bn, 0)
    ensures 10 <= bn < 522 ==> UnderTop(10 + (bn - 10) / 256, bn, (bn - 10) % 256)
    ensures bn >= 522 ==> UnderTop(12, bn, bn - 522)
  {
  }

  lemma NeedOfTop(ino: int, i: nat, bn: nat)
    requires i < 13 && Covers(Top(ino, i), bn)
    ensures Need(Top(ino, i).level, bn) == Need(2, bn) && Top(ino, i).ino == ino
  {
  }

  lemma NothingAboveTop(s: Volume, base: nat, reserved: set<int>, ino: int, i: nat, bn: nat)
    requires TreesOk(s, base, reserved) && i < 13 && Covers(Top(ino, i), bn)
    ensures Shape(s, base, reserved, ino, bn, Top(ino, i).level + 1, Top(ino, i).level + 1)
    ensures ino in s.inodes ==> |s.inodes[ino].addrs| == 13 && s.inodes[ino].addrs[i] == Entry(s, Top(ino, i))
  {
    NonePending(s, base, reserved, ino, bn);
    forall m ensures !Fresh(m, ino, bn, Top(ino, i).level + 1) && !Fresh(m, ino, bn, 3) {
      if Fresh(m, ino, bn, Top(ino, i).level + 1) { NoPendingAboveTop(ino, i, bn, m); }
    }
    assert ino in s.inodes ==> InodeOk(s, ino, ino, bn, 3);
    hide Fresh, Top, Covers, Bits, Labels;
  }

  lemma StartAtTop(s: Volume, base: nat, reserved: set<int>, ino: int, i: nat, bn: nat, rel: nat)
    requires MayGrow(s, base, reserved, ino, bn) && UnderTop(i, bn, rel)
    ensures MayLocate(s, base, reserved, Top(ino, i), bn) && Covers(Top(ino, i), bn) && rel == bn - Top(ino, i).lo
    ensures |s.inodes[ino].addrs| == 13 && s.inodes[ino].addrs[i] == Entry(s, Top(ino, i))
  {
    hide Shape, TreesOk, FreeZeroed, Need;
    NothingAboveTop(s, base, reserved, ino, i, bn);
    NeedOfTop(ino, i, bn);
    TopOk(ino, i);
  }

  lemma SameZeroed(s: Volume, t: Volume, base: nat)
    requires FreeZeroed(s, base) && t.blocks == s.blocks && t.used == s.used
    ensures FreeZeroed(t, base)
  {
  }

  lemma DoneNew(s: Volume, t: Volume, base: nat, reserved: set<int>, ino: int, i: nat, bn: nat)
    requires MayGrow(s, base, reserved, ino, bn) && i < 13 && Covers(Top(ino, i), bn)
    requires bn == s.nb[ino] && Added(s, t, base, reserved, Top(ino, i), bn)
    requires |s.inodes[ino].addrs| == 13
    ensures t.inodes == s.inodes && Top(ino, i) in t.at
    ensures Grew(s, AddrStored(t, ino, i, t.at[Top(ino, i)], bn + 1), base, reserved, ino, bn)
  {
    hide Shape, TreesOk, FreeZeroed, Covers, Need, Top;
    var u := AddrStored(t, ino, i, t.at[Top(ino, i)], bn + 1);
    NeedOfTop(ino, i, bn);
    Finish(t, base, reserved, bn, ino, i);
    SameZeroed(t, u, base);
  }

  lemma DoneOld(s: Volume, base: nat, reserved: set<int>, ino: int, i: nat, bn: nat)
    requires MayGrow(s, base, reserved, ino, bn) && i < 13 && bn < s.nb[ino]
    requires |s.inodes[ino].addrs| == 13 && Top(ino, i) in s.at && s.inodes[ino].addrs[i] == s.at[Top(ino, i)]
    requires Node(ino, 0, bn) in s.at
    ensures AddrStored(s, ino, i, s.at[Top(ino, i)], s.nb[ino]) == s && Grew(s, s, base, reserved, ino, bn)
  {
    hide FreeZeroed, TreesOk, Top;
    var addrs := s.inodes[ino].addrs;
    assert addrs[i := addrs[i]] == addrs;
    Located(s, base, reserved, ino, bn);
  }

  /** Storing the address: a new block is complete, and for an old one nothing has changed. */
  lemma Done(s: Volume, t: Volume, base: nat, reserved: set<int>, ino: int, i: nat, bn: nat)
    requires MayGrow(s, base, reserved, ino, bn) && i < 13 && Covers(Top(ino, i), bn)
    requires bn < s.nb[ino] ==> t == s
    requires bn == s.nb[ino] ==> Added(s, t, base, reserved, Top(ino, i), bn)
    requires |s.inodes[ino].addrs| == 13 && s.inodes[ino].addrs[i] == Entry(s, Top(ino, i))
    requires Top(ino, i) in t.at && Node(ino, 0, bn) in t.at
    ensures t.inodes == s.inodes
    ensures var u := AddrStored(t, ino, i, t.at[Top(ino, i)], if bn == s.nb[ino] then bn + 1 else s.nb[ino]);
            Grew(s, u, base, reserved, ino, bn) && (bn < s.nb[ino] ==> u == s)
  {
    hide TreesOk, FreeZeroed, Added, Grew, Covers, Need, Top;
    if bn == s.nb[ino] {
      DoneNew(s, t, base, reserved, ino, i, bn);
    } else {
      DoneOld(s, base, reserved, ino, i, bn);
    }
  }

  lemma Located(s: Volume, base: nat, reserved: set<int>, ino: int, bn: nat)
    requires TreesOk(s, base, reserved) && Node(ino, 0, bn) in s.at
    ensures s.at[Node(ino, 0, bn)] in s.blocks && DataOk(s.blocks[s.at[Node(ino, 0, bn)]])
  {
    assert BlockOk(s, Node(ino, 0, bn), 0, 0, 3);
  }

  /** A block read as an array of entries. */
  method ReadEntries(b: Block) returns (es: seq<int>)
    requires b.Index? ==> |b.entries| == 256
    ensures Holds(b, es)
  {
    es := if b.Index? then b.entries else seq(256, _ => 0);
  }

  /** A stored entry is 0 exactly for the pending block that starts at the index looked for. */
  lemma EntryTells(s: Volume, base: nat, reserved: set<int>, n: Node, bn: nat)
    requires MayLocate(s, base, reserved, n, bn)
    ensures Entry(s, n) == 0 <==> n.lo == bn && bn == s.nb[n.ino]
    ensures Entry(s, n) != 0 ==> n in s.at && n.ino in s.nb && n.lo < s.nb[n.ino]
  {
    ghost var x := if bn < s.nb[n.ino] then 3 else n.level + 1;
    NonePending(s, base, reserved, n.ino, bn);
    assert Shape(s, base, reserved, n.ino, bn, x, x);
    assert Dom(s, n.ino, bn, x);
    assert n in s.at <==> Has(s, n) || Fresh(n, n.ino, bn, x);
    hide Dom, BlockOk, InodeOk;
    if n in s.at { NumbersArePositive(s, base, reserved, n); }
  }

  lemma NumbersArePositive(s: Volume, base: nat, reserved: set<int>, n: Node)
    requires Labels(s) && Bits(s, base, reserved) && n in s.at
    ensures 0 < s.at[n] - base < 8192
  {
    hide Labels, Bits;
    LabelIs(s, base, reserved, n);
  }

  lemma TreeNumber(s: Volume, base: nat, reserved: set<int>, n: Node)
    requires TreesOk(s, base, reserved) && n in s.at
    ensures 0 < s.at[n] - base < 8192
  {
    hide Labels, Bits, Dom, BlockOk, InodeOk;
    NumbersArePositive(s, base, reserved, n);
  }

  /** A block that covers `bn` and starts before it is not pending. */
  lemma NotPending(s: Volume, base: nat, reserved: set<int>, n: Node, bn: nat)
    requires Shape(s, base, reserved, n.ino, bn, n.level + 1, n.level + 1) && NodeOk(n) && Covers(n, bn) && n.lo < bn
    ensures Shape(s, base, reserved, n.ino, bn, n.level, n.level)
  {
    forall m ensures Fresh(m, n.ino, bn, n.level) <==> Fresh(m, n.ino, bn, n.level + 1) {
      PendingIs(m, n.ino, bn, n.level);
      CoverIsStart(n, bn);
    }
    hide Fresh;
  }

  /** From a tree block the search goes on in the child that covers the index. */
  lemma Down(s: Volume, base: nat, reserved: set<int>, n: Node, j: nat, bn: nat)
    requires NodeOk(n) && 1 <= n.level && j < 256 && Covers(Child(n, j), bn) && bn < 66058 && n.ino in s.nb
             && bn <= s.nb[n.ino]
    requires if bn < s.nb[n.ino] then TreesOk(s, base, reserved)
             else Shape(s, base, reserved, n.ino, bn, n.level, n.level) && |s.used| + Need(n.level - 1, bn) <= 8192
    requires FreeZeroed(s, base)
    ensures MayLocate(s, base, reserved, Child(n, j), bn)
  {
    ChildOk(n, j);
  }

  lemma StoredKeeps(s: Volume, base: nat, reserved: set<int>, n: Node, es: seq<int>, j: nat, e: int)
    requires Labels(s) && n in s.at && n.level > 0 && j < |es| && FreeZeroed(s, base) && Bits(s, base, reserved)
    ensures Extended(s, EntryStored(s, n, es, j, e), n.level) && FreeZeroed(EntryStored(s, n, es, j, e), base)
  {
    var t := EntryStored(s, n, es, j, e);
    assert s.at[n] in s.owner;
    forall m | m in s.at && (m.level == 0 || m.level > n.level) ensures s.at[m] != s.at[n] {
      assert s.owner[s.at[m]] == m && s.owner[s.at[n]] == n;
    }
    StaysZeroed(s, t, base, reserved);
  }

  /** Writing the index block back after its child was located completes the step on its level. */
  lemma Up(s: Volume, t: Volume, base: nat, reserved: set<int>, n: Node, j: nat, es: seq<int>, bn: nat)
    requires NodeOk(n) && 1 <= n.level && j < 256 && Covers(Child(n, j), bn) && Covers(n, bn) && bn < 66058
    requires Added(s, t, base, reserved, Child(n, j), bn) && forall b :: b in s.owner ==> b in t.owner
    requires n in s.at && s.at[n] in s.blocks && Holds(s.blocks[s.at[n]], es)
    ensures n in t.at && Child(n, j) in t.at
    ensures var u := EntryStored(t, n, es, j, t.at[Child(n, j)]);
            Shape(u, base, reserved, n.ino, bn, 0, n.level) && FreeZeroed(u, base) && Extended(s, u, n.level)
            && u.at[n] == s.at[n] && |u.used| == |s.used| + Need(n.level - 1, bn)
            && u.at[Node(n.ino, 0, bn)] in u.blocks && ReadsZero(u.blocks[u.at[Node(n.ino, 0, bn)]])
  {
    hide Shape, FreeZeroed, Holds, Labels, Bits, Need, Covers, NodeOk, Extended, ReadsZero, Child;
    ChildLevel(n, j);
    HoldsAll(s.blocks[s.at[n]], es);
    ExtendedAt(s, t, Child(n, j).level, n, s.at[n]);
    var u := EntryStored(t, n, es, j, t.at[Child(n, j)]);
    ShapeParts(t, base, reserved, n.ino, bn, 0, Child(n, j).level);
    Link(t, base, reserved, bn, n, j, es);
    StoredKeeps(t, base, reserved, n, es, j, t.at[Child(n, j)]);
    WeakerExtended(s, t, Child(n, j).level, n.level);
    ExtendedTrans(s, t, u, n.level);
    LeafStays(t, u, n, bn);
  }

  lemma HoldsAll(b: Block, es: seq<int>)
    requires Holds(b, es)
    ensures |es| == 256
  {
  }

  lemma ChildLevel(n: Node, j: nat)
    requires NodeOk(n) && 1 <= n.level
    ensures n.level <= 2 && Child(n, j).level == n.level - 1 && Child(n, j).ino == n.ino
  {
  }

  lemma ShapeParts(s: Volume, base: nat, reserved: set<int>, ino: int, bn: nat, x: nat, y: nat)
    requires Shape(s, base, reserved, ino, bn, x, y)
    ensures Labels(s) && Bits(s, base, reserved)
  {
  }

  lemma ExtendedAt(s: Volume, t: Volume, level: nat, n: Node, b: int)
    requires Extended(s, t, level) && n in s.at && s.at[n] == b
    ensures n in t.at && t.at[n] == b
            && (n.level > level && b in s.blocks ==> b in t.blocks && t.blocks[b] == s.blocks[b])
  {
  }

  lemma WeakerExtended(s: Volume, t: Volume, level: nat, higher: nat)
    requires Extended(s, t, level) && level <= higher
    ensures Extended(s, t, higher)
  {
  }

  /** A data block is not touched by a store into an index block. */
  lemma LeafStays(t: Volume, u: Volume, n: Node, bn: nat)
    requires Extended(t, u, n.level) && Node(n.ino, 0, bn) in t.at && t.at[Node(n.ino, 0, bn)] in t.blocks
    requires ReadsZero(t.blocks[t.at[Node(n.ino, 0, bn)]])
    ensures u.at[Node(n.ino, 0, bn)] in u.blocks && ReadsZero(u.blocks[u.at[Node(n.ino, 0, bn)]])
  {
    hide ReadsZero;
  }

  lemma SameEntries(b: Block, es: seq<int>, j: nat)
    requires Holds(b, es) && j < 256 && es[j] != 0 && (ReadsZero(b) || (b.Index? && |b.entries| == 256))
    ensures Index(es[j := es[j]]) == b
  {
    assert b.entries == es[j := es[j]];
  }

  /** When nothing is new, the write-back stores what the block held. */
  lemma SameBlock(s: Volume, base: nat, reserved: set<int>, n: Node, j: nat, es: seq<int>)
    requires TreesOk(s, base, reserved) && n in s.at && NodeOk(n) && 1 <= n.level && j < 256 && Child(n, j) in s.at
    requires s.at[n] in s.blocks && Holds(s.blocks[s.at[n]], es)
    ensures es[j] == s.at[Child(n, j)] && EntryStored(s, n, es, j, s.at[Child(n, j)]) == s
  {
    hide TreesOk, Shape;
    NonePending(s, base, reserved, n.ino, 0);
    ChildEntry(s, base, reserved, n, j, 0, 3, s.blocks[s.at[n]]);
    TreeNumber(s, base, reserved, Child(n, j));
    SameEntries(s.blocks[s.at[n]], es, j);
  }

  /** The value a child's entry has in its index block, pending children included. */
  lemma ChildEntry(s: Volume, base: nat, reserved: set<int>, n: Node, j: nat, bn: nat, y: nat, b: Block)
    requires Shape(s, base, reserved, n.ino, bn, y, y) && n in s.at && s.at[n] in s.blocks && b == s.blocks[s.at[n]]
    requires NodeOk(n) && 1 <= n.level && j < 256 && (y == 3 || y == n.level)
    ensures EntryAt(b, j) == Entry(s, Child(n, j)) && (ReadsZero(b) || (b.Index? && |b.entries| == 256))
  {
    assert BlockOk(s, n, n.ino, bn, y);
  }

  lemma CanTake(s: Volume, base: nat, reserved: set<int>, n: Node, bn: nat)
    requires MayLocate(s, base, reserved, n, bn) && n.lo == bn && bn == s.nb[n.ino]
    ensures 0 in s.used && |s.used| < 8192
  {
    assert Bits(s, base, reserved);
    NeedIs(n, bn);
  }

  lemma TakeStep(s: Volume, base: nat, reserved: set<int>, n: Node, bn: nat, k: int)
    requires MayLocate(s, base, reserved, n, bn) && n.lo == bn && bn == s.nb[n.ino]
    requires 0 < k < 8192 && k !in s.used
    ensures n !in s.at && base + k in s.blocks && ReadsZero(s.blocks[base + k])
    ensures var t := Placed(s, n, base + k, k);
            Shape(t, base, reserved, n.ino, bn, n.level, n.level) && FreeZeroed(t, base) && Extended(s, t, n.level)
            && |t.used| == |s.used| + 1
  {
    hide Shape, Covers, TreesOk, Need, Extended;
    Place(s, base, reserved, n.ino, bn, n.level, n, k);
    PlacedKeeps(s, base, reserved, n, k);
  }

  lemma NeedIs(n: Node, bn: nat)
    requires NodeOk(n) && Covers(n, bn) && bn < 66058
    ensures Need(0, bn) == 1
    ensures n.level > 0 ==> Need(n.level, bn) == Need(n.level - 1, bn) + (if n.lo == bn then 1 else 0)
  {
    CoverIsStart(n, bn);
  }

  lemma PlacedKeeps(s: Volume, base: nat, reserved: set<int>, n: Node, k: int)
    requires n !in s.at && base + k !in s.owner && FreeZeroed(s, base)
    ensures Extended(s, Placed(s, n, base + k, k), n.level)
    ensures FreeZeroed(Placed(s, n, base + k, k), base)
    ensures k !in s.used ==> |Placed(s, n, base + k, k).used| == |s.used| + 1
  {
  }
}
