/** Releasing the blocks of a file (kernel/fs/inode.c:355-407, kernel/fs/bitmap.c:70-78). */
module FreeTree {
  import opened BlockTree
  import opened BlockSteps
  import opened InodeBlocks
  import opened FileData
  import Bitmap

  // ---------- which bits belong to a part of a tree ----------

  /** The bits of the blocks of `ino` with level at most `level` that start at an index from `lo` up to `hi`. */
  ghost function Range(s: Volume, base: nat, ino: int, level: nat, lo: nat, hi: nat): set<int> {
    set k: int | k in s.used && base + k in s.owner && InRange(s.owner[base + k], ino, level, lo, hi)
  }

  ghost predicate InRange(n: Node, ino: int, level: nat, lo: nat, hi: nat) {
    n.ino == ino && n.level <= level && lo <= n.lo < hi
  }

  ghost function Below(s: Volume, base: nat, n: Node): set<int> {
    Range(s, base, n.ino, n.level, n.lo, n.lo + Span(n.level))
  }

  /** All blocks of a file. */
  ghost function FileBits(s: Volume, base: nat, ino: int): set<int> {
    Range(s, base, ino, 2, 0, 66058)
  }

  lemma RangeSplit(s: Volume, base: nat, ino: int, level: nat, a: nat, b: nat, c: nat)
    requires a <= b <= c
    ensures Range(s, base, ino, level, a, c) == Range(s, base, ino, level, a, b) + Range(s, base, ino, level, b, c)
    ensures Range(s, base, ino, level, a, b) !! Range(s, base, ino, level, b, c)
  {
  }

  /** The block of a used bit that has an owner is one of the named ones. */
  lemma BitIsNamed(s: Volume, base: nat, reserved: set<int>, k: int)
    requires TreesOk(s, base, reserved) && base + k in s.owner
    ensures s.owner[base + k] in s.at && s.at[s.owner[base + k]] == base + k && NodeOk(s.owner[base + k])
    ensures var n := s.owner[base + k]; n.ino in s.nb && n.lo < s.nb[n.ino]
  {
    assert Labels(s);
    hide Labels, Bits, BlockOk, InodeOk;
    InTree(s, base, reserved, s.owner[base + k]);
  }

  lemma NameHasBit(s: Volume, base: nat, reserved: set<int>, n: Node)
    requires TreesOk(s, base, reserved) && n in s.at
    ensures s.at[n] - base in s.used && s.at[n] in s.owner && s.owner[s.at[n]] == n && 0 < s.at[n] - base < 8192
  {
    TreeNumber(s, base, reserved, n);
    hide Dom, BlockOk, InodeOk;
    assert Labels(s) && Bits(s, base, reserved);
    assert s.at[n] == base + (s.at[n] - base);
  }

  /** Past the end of a dense file there is nothing: the reason why the first 0 entry ends the loop. */
  lemma NothingPast(s: Volume, base: nat, reserved: set<int>, n: Node, level: nat, hi: nat)
    requires TreesOk(s, base, reserved) && n !in s.at && NodeOk(n) && n.ino in s.nb
    ensures Range(s, base, n.ino, level, n.lo, hi) == {}
  {
    hide TreesOk;
    InTree(s, base, reserved, n);
    forall k | k in s.used && base + k in s.owner ensures !InRange(s.owner[base + k], n.ino, level, n.lo, hi) {
      BitIsNamed(s, base, reserved, k);
    }
  }

  /** On its own level a block is alone in its range. */
  lemma AloneOnLevel(n: Node, m: Node)
    requires NodeOk(n) && NodeOk(m) && InRange(m, n.ino, n.level, n.lo, n.lo + Span(n.level))
    ensures m == n || (1 <= n.level && InRange(m, n.ino, n.level - 1, n.lo, n.lo + 256 * Span(n.level - 1)))
  {
  }

  lemma SpanStep(n: Node)
    requires NodeOk(n) && 1 <= n.level
    ensures Span(n.level) == 256 * Span(n.level - 1)
  {
  }

  /** The part of a tree below a block: the parts below its children, and its own bit. */
  lemma BelowIs(s: Volume, base: nat, reserved: set<int>, n: Node)
    requires TreesOk(s, base, reserved) && n in s.at && NodeOk(n)
    ensures n.level == 0 ==> Below(s, base, n) == {s.at[n] - base}
    ensures n.level > 0 ==>
      Below(s, base, n) == Range(s, base, n.ino, n.level - 1, n.lo, n.lo + 256 * Span(n.level - 1)) + {s.at[n] - base}
  {
    hide TreesOk, NodeOk;
    NameHasBit(s, base, reserved, n);
    forall k | k in Below(s, base, n)
      ensures k == s.at[n] - base
              || (n.level > 0 && k in Range(s, base, n.ino, n.level - 1, n.lo, n.lo + 256 * Span(n.level - 1)))
    {
      BitIsNamed(s, base, reserved, k);
      AloneOnLevel(n, s.owner[base + k]);
    }
    if n.level > 0 { SpanStep(n); }
  }

  lemma ChildRange(s: Volume, base: nat, n: Node, j: nat)
    requires NodeOk(n) && 1 <= n.level && j < 256
    ensures Child(n, j).lo == n.lo + j * Span(n.level - 1)
    ensures Range(s, base, n.ino, n.level - 1, n.lo, n.lo + (j + 1) * Span(n.level - 1)) ==
            Range(s, base, n.ino, n.level - 1, n.lo, n.lo + j * Span(n.level - 1)) + Below(s, base, Child(n, j))
  {
    RangeSplit(s, base, n.ino, n.level - 1, n.lo, n.lo + j * Span(n.level - 1), n.lo + (j + 1) * Span(n.level - 1));
  }

  lemma NoMoreChildren(s: Volume, base: nat, reserved: set<int>, n: Node, j: nat)
    requires TreesOk(s, base, reserved) && n in s.at && NodeOk(n) && 1 <= n.level && j < 256 && Child(n, j) !in s.at
    ensures Range(s, base, n.ino, n.level - 1, n.lo, n.lo + j * Span(n.level - 1)) ==
            Range(s, base, n.ino, n.level - 1, n.lo, n.lo + 256 * Span(n.level - 1))
  {
    ChildOk(n, j);
    InTree(s, base, reserved, n);
    assert Child(n, j).lo == n.lo + j * Span(n.level - 1);
    NothingPast(s, base, reserved, Child(n, j), n.level - 1, n.lo + 256 * Span(n.level - 1));
    RangeSplit(s, base, n.ino, n.level - 1, n.lo, n.lo + j * Span(n.level - 1), n.lo + 256 * Span(n.level - 1));
  }

  // ---------- the recursive release ----------

  /** bitmap_free_block: numbers before the data area are ignored. */
  method FreeBlock(d: Disk, b: int)
    requires Bitmap.WellFormed(d.bitmap) && b != d.base
    modifies d`bitmap
    ensures Bitmap.WellFormed(d.bitmap)
    ensures Bitmap.Used(d.bitmap) == Bitmap.Used(old(d.bitmap)) - {b - d.base}
  {
    if b < d.base {
      return;
    }
    d.bitmap := Bitmap.Unset(d.bitmap, b - d.base);
  }

  /** What data_free sees: the blocks of `s`, and the bits of `s` without those already cleared. */
  ghost predicate Freeing(d: Disk, s: Volume, gone: set<int>)
    reads d
  {
    Bitmap.WellFormed(d.bitmap) && d.blocks == s.blocks && Bitmap.Used(d.bitmap) == s.used - gone
  }

  ghost predicate FreeArgs(s: Volume, base: nat, reserved: set<int>, n: Node, b: int) {
    TreesOk(s, base, reserved) && n in s.at && s.at[n] == b && NodeOk(n)
  }

  /** data_free: clears the bits of exactly the blocks at and below one tree block. */
  method DataFree(d: Disk, b: int, level: nat, ghost n: Node, ghost s: Volume, ghost gone: set<int>)
    requires FreeArgs(s, d.base, d.reserved, n, b) && level == n.level && Freeing(d, s, gone)
    modifies d`bitmap
    ensures Freeing(d, s, gone + Below(s, d.base, n))
    decreases level, 1
  {
    hide TreesOk, NodeOk, Below, Range;
    NameHasBit(s, d.base, d.reserved, n);
    BelowIs(s, d.base, d.reserved, n);
    if level != 0 {
      FreeChildren(d, b, level, n, s, gone);
    }
    FreeBlock(d, b);
  }

  /** The loop of data_free over the entries of an index block. */
  method FreeChildren(d: Disk, b: int, level: nat, ghost n: Node, ghost s: Volume, ghost gone: set<int>)
    requires FreeArgs(s, d.base, d.reserved, n, b) && level == n.level && 0 < level && Freeing(d, s, gone)
    modifies d`bitmap
    ensures Freeing(d, s, gone + Range(s, d.base, n.ino, level - 1, n.lo, n.lo + 256 * Span(level - 1)))
    decreases level, 0
  {
    hide TreesOk, NodeOk, Range, Span, Bitmap.Used;
    var i := 0;
    NoneYet(s, d.base, n.ino, level - 1, n.lo, gone, n.lo + 0 * Span(level - 1));
    while i < 256
      invariant 0 <= i <= 256
      invariant Freeing(d, s, gone + Range(s, d.base, n.ino, level - 1, n.lo, n.lo + i * Span(level - 1)))
    {
      var more := FreeChild(d, b, level, i, n, s, gone);
      if !more { break; }
      i := i + 1;
    }
  }

  lemma NoneYet(s: Volume, base: nat, ino: int, level: nat, lo: nat, gone: set<int>, hi: nat)
    requires hi == lo
    ensures gone + Range(s, base, ino, level, lo, hi) == gone
  {
  }

  /** One entry: 0 ends the loop, anything else is released. */
  method FreeChild(d: Disk, b: int, level: nat, i: nat, ghost n: Node, ghost s: Volume, ghost gone: set<int>)
    returns (more: bool)
    requires FreeArgs(s, d.base, d.reserved, n, b) && level == n.level && 0 < level && i < 256
    requires Freeing(d, s, gone + Range(s, d.base, n.ino, level - 1, n.lo, n.lo + i * Span(level - 1)))
    modifies d`bitmap
    ensures more ==> Freeing(d, s, gone + Range(s, d.base, n.ino, level - 1, n.lo, n.lo + (i + 1) * Span(level - 1)))
    ensures !more ==> Freeing(d, s, gone + Range(s, d.base, n.ino, level - 1, n.lo, n.lo + 256 * Span(level - 1)))
    decreases level - 1, 2
  {
    hide TreesOk, Range, Below;
    EntryOf(s, d.base, d.reserved, n, i);
    var es := ReadEntries(d.blocks[b]);
    if es[i] == 0 {
      NoMoreChildren(s, d.base, d.reserved, n, i);
      more := false;
    } else {
      more := true;
      ChildRange(s, d.base, n, i);
      ghost var sofar := Range(s, d.base, n.ino, level - 1, n.lo, n.lo + i * Span(level - 1));
      DataFree(d, es[i], level - 1, Child(n, i), s, gone + sofar);
      assert gone + (sofar + Below(s, d.base, Child(n, i))) == gone + sofar + Below(s, d.base, Child(n, i));
    }
  }

  lemma EntryOf(s: Volume, base: nat, reserved: set<int>, n: Node, i: nat)
    requires TreesOk(s, base, reserved) && n in s.at && NodeOk(n) && 1 <= n.level && i < 256
    ensures s.at[n] in s.blocks && EntryAt(s.blocks[s.at[n]], i) == Entry(s, Child(n, i)) && NodeOk(Child(n, i))
    ensures s.blocks[s.at[n]].Index? ==> |s.blocks[s.at[n]].entries| == 256
    ensures Child(n, i) in s.at <==> Entry(s, Child(n, i)) != 0
  {
    hide ReadsZero, Fresh;
    ChildOk(n, i);
    StoredEntry(s, base, reserved, n, i);
    hide TreesOk, Child, NodeOk;
    if Child(n, i) in s.at { TreeNumber(s, base, reserved, Child(n, i)); }
  }

  lemma StoredEntry(s: Volume, base: nat, reserved: set<int>, n: Node, i: nat)
    requires TreesOk(s, base, reserved) && n in s.at && NodeOk(n) && 1 <= n.level && i < 256
    ensures s.at[n] in s.blocks && EntryAt(s.blocks[s.at[n]], i) == Entry(s, Child(n, i))
    ensures s.blocks[s.at[n]].Index? ==> |s.blocks[s.at[n]].entries| == 256
  {
    assert BlockOk(s, n, 0, 0, 3);
  }

  // ---------- releasing a whole file ----------

  /** First index under address `i`, and the end for 13. */
  function TopLo(i: nat): nat {
    if i < 13 then Top(0, i).lo else 66058
  }

  lemma TopRange(s: Volume, base: nat, reserved: set<int>, ino: int, i: nat)
    requires TreesOk(s, base, reserved) && i < 13
    ensures TopLo(i) <= TopLo(i + 1) && Top(ino, i).lo == TopLo(i)
    ensures Range(s, base, ino, 2, TopLo(i), TopLo(i + 1)) == Below(s, base, Top(ino, i))
  {
    hide TreesOk;
    forall k | k in s.used && base + k in s.owner
      ensures InRange(s.owner[base + k], ino, 2, TopLo(i), TopLo(i + 1)) <==>
              InRange(s.owner[base + k], ino, Top(ino, i).level, Top(ino, i).lo,
                  Top(ino, i).lo + Span(Top(ino, i).level))
    {
      BitIsNamed(s, base, reserved, k);
      if TopLo(i) <= s.owner[base + k].lo < TopLo(i + 1) { UnderTopLevel(s.owner[base + k], i); }
    }
  }

  /** Blocks under an address have at most its level. */
  lemma UnderTopLevel(m: Node, i: nat)
    requires NodeOk(m) && i < 13 && TopLo(i) <= m.lo < TopLo(i + 1)
    ensures m.level <= Top(m.ino, i).level
  {
  }

  /** The state in the middle of inode_free_data: the first `i` addresses are released and cleared. */
  ghost predicate Partly(d: Disk, s: Volume, ino: int, i: nat)
    reads d
  {
    && Freeing(d, s, Range(s, d.base, ino, 2, 0, TopLo(i)))
    && ino in s.inodes && ino in d.inodes && d.inodes == s.inodes[ino := d.inodes[ino]]
    && d.inodes[ino].size == s.inodes[ino].size && |d.inodes[ino].addrs| == 13 && |s.inodes[ino].addrs| == 13
    && forall k :: 0 <= k < 13 ==> d.inodes[ino].addrs[k] == if k < i then 0 else s.inodes[ino].addrs[k]
  }

  lemma RangeUpTo(s: Volume, base: nat, reserved: set<int>, ino: int, i: nat)
    requires TreesOk(s, base, reserved) && i < 13
    ensures Range(s, base, ino, 2, 0, TopLo(i + 1)) == Range(s, base, ino, 2, 0, TopLo(i)) + Below(s, base, Top(ino, i))
    ensures ino in s.nb && Top(ino, i) !in s.at ==> Below(s, base, Top(ino, i)) == {}
  {
    TopRange(s, base, reserved, ino, i);
    RangeSplit(s, base, ino, 2, 0, TopLo(i), TopLo(i + 1));
    if ino in s.nb && Top(ino, i) !in s.at {
      NothingPast(s, base, reserved, Top(ino, i), Top(ino, i).level, Top(ino, i).lo + Span(Top(ino, i).level));
    }
  }

  /** Releasing what one address points to. */
  method FreeTop(d: Disk, ino: int, i: nat, level: nat, ghost s: Volume)
    requires TreesOk(s, d.base, d.reserved) && i < 13 && level == Top(ino, i).level && Partly(d, s, ino, i)
    modifies d
    ensures Partly(d, s, ino, i + 1) && d.at == old(d.at) && d.owner == old(d.owner) && d.nb == old(d.nb)
  {
    hide TreesOk, Range, Below, Top, TopLo, NodeOk;
    AddrIs(s, d.base, d.reserved, ino, i);
    RangeUpTo(s, d.base, d.reserved, ino, i);
    TopOk(ino, i);
    if d.inodes[ino].addrs[i] != 0 {
      DataFree(d, d.inodes[ino].addrs[i], level, Top(ino, i), s, Range(s, d.base, ino, 2, 0, TopLo(i)));
      d.inodes := d.inodes[ino := d.inodes[ino].(addrs := d.inodes[ino].addrs[i := 0])];
    } else {
      TopAbsent(s, d.base, d.reserved, ino, i);
    }
  }

  lemma TopAbsent(s: Volume, base: nat, reserved: set<int>, ino: int, i: nat)
    requires TreesOk(s, base, reserved) && Entry(s, Top(ino, i)) == 0
    ensures Top(ino, i) !in s.at
  {
    if Top(ino, i) in s.at { TreeNumber(s, base, reserved, Top(ino, i)); }
  }

  // ---------- what is left ----------

  ghost function NamesWithout(at: map<Node, int>, ino: int): map<Node, int> {
    map n | n in at && n.ino != ino :: at[n]
  }

  ghost function OwnersWithout(owner: map<int, Node>, ino: int): map<int, Node> {
    map b | b in owner && owner[b].ino != ino :: owner[b]
  }

  /** The volume without the blocks of one file. */
  ghost function Freed(s: Volume, base: nat, ino: int, empty: Inode): Volume {
    s.(used := s.used - FileBits(s, base, ino), inodes := s.inodes[ino := empty],
       at := NamesWithout(s.at, ino), owner := OwnersWithout(s.owner, ino), nb := s.nb[ino := 0])
  }

  lemma FileBitIs(s: Volume, base: nat, reserved: set<int>, ino: int, k: int)
    requires TreesOk(s, base, reserved)
    ensures k in FileBits(s, base, ino) <==> k in s.used && base + k in s.owner && s.owner[base + k].ino == ino
  {
    hide TreesOk;
    if base + k in s.owner { BitIsNamed(s, base, reserved, k); }
  }

  lemma FreedLabels(s: Volume, base: nat, ino: int, empty: Inode)
    requires Labels(s)
    ensures Labels(Freed(s, base, ino, empty))
  {
    hide FileBits;
  }

  /** One bit of the bitmap, as `Bits` says it of all. */
  ghost predicate BitOk(s: Volume, base: nat, reserved: set<int>, k: int) {
    && (k in s.used <==> k in reserved || base + k in s.owner)
    && (k in reserved ==> base + k !in s.owner)
    && (k in s.used ==> 0 <= k < 8192)
  }

  lemma BitsPointwise(s: Volume, base: nat, reserved: set<int>)
    requires Bits(s, base, reserved)
    ensures 0 in reserved && forall k :: BitOk(s, base, reserved, k)
  {
  }

  lemma BitsFrom(t: Volume, base: nat, reserved: set<int>)
    requires 0 in reserved && forall k :: BitOk(t, base, reserved, k)
    ensures Bits(t, base, reserved)
  {
    forall k ensures k in t.used ==> 0 <= k < 8192 { assert BitOk(t, base, reserved, k); }
    forall k ensures k in t.used <==> k in reserved || base + k in t.owner { assert BitOk(t, base, reserved, k); }
    forall k | k in reserved ensures base + k !in t.owner { assert BitOk(t, base, reserved, k); }
    forall b | b in t.owner ensures b - base in t.used {
      assert BitOk(t, base, reserved, b - base) && base + (b - base) == b;
    }
  }

  lemma FreedBit(s: Volume, base: nat, reserved: set<int>, ino: int, empty: Inode, k: int)
    requires TreesOk(s, base, reserved) && BitOk(s, base, reserved, k)
    ensures BitOk(Freed(s, base, ino, empty), base, reserved, k)
  {
    hide TreesOk, FileBits;
    FileBitIs(s, base, reserved, ino, k);
  }

  lemma FreedBits(s: Volume, base: nat, reserved: set<int>, ino: int, empty: Inode)
    requires TreesOk(s, base, reserved)
    ensures Bits(Freed(s, base, ino, empty), base, reserved)
  {
    assert Bits(s, base, reserved);
    hide TreesOk, Bits, BitOk, Freed;
    BitsPointwise(s, base, reserved);
    forall k ensures BitOk(Freed(s, base, ino, empty), base, reserved, k) {
      FreedBit(s, base, reserved, ino, empty, k);
    }
    BitsFrom(Freed(s, base, ino, empty), base, reserved);
  }

  lemma FreedDom(s: Volume, base: nat, ino: int, empty: Inode)
    requires Dom(s, 0, 0, 3) && ino in s.nb
    ensures Dom(Freed(s, base, ino, empty), 0, 0, 3)
  {
    hide FileBits;
    var t := Freed(s, base, ino, empty);
    forall n ensures n in t.at <==> Has(t, n) || Fresh(n, 0, 0, 3) {
      assert n in s.at <==> Has(s, n) || Fresh(n, 0, 0, 3);
    }
  }

  lemma FreedInode(s: Volume, base: nat, ino: int, empty: Inode, i: int)
    requires ino in s.inodes && |empty.addrs| == 13 && forall k :: 0 <= k < 13 ==> empty.addrs[k] == 0
    requires i in s.inodes && InodeOk(s, i, 0, 0, 3)
    ensures InodeOk(Freed(s, base, ino, empty), i, 0, 0, 3)
  {
    hide FileBits, NodeOk;
  }

  lemma FreedShape(s: Volume, base: nat, ino: int, empty: Inode)
    ensures var t := Freed(s, base, ino, empty);
      (forall n :: n in t.at <==> n in s.at && n.ino != ino) && t.inodes == s.inodes[ino := empty]
          && t.nb == s.nb[ino := 0]
  {
    hide FileBits;
  }

  lemma TreesParts(s: Volume, base: nat, reserved: set<int>)
    requires TreesOk(s, base, reserved)
    ensures Dom(s, 0, 0, 3) && Labels(s) && Bits(s, base, reserved) && s.inodes.Keys == s.nb.Keys
    ensures forall n :: n in s.at ==> BlockOk(s, n, 0, 0, 3)
    ensures forall i :: i in s.inodes ==> InodeOk(s, i, 0, 0, 3)
    ensures forall i :: i in s.nb ==> s.nb[i] <= 66058
  {
  }

  /** Freeing one file keeps every other tree; only the freed blocks are no longer known to be zeroed. */
  lemma FreedIsOk(s: Volume, base: nat, reserved: set<int>, ino: int, empty: Inode)
    requires TreesOk(s, base, reserved) && ino in s.inodes
    requires |empty.addrs| == 13 && forall k :: 0 <= k < 13 ==> empty.addrs[k] == 0
    ensures TreesOk(Freed(s, base, ino, empty), base, reserved)
  {
    hide Dom, Labels, Bits, BlockOk, InodeOk, Freed;
    var t := Freed(s, base, ino, empty);
    TreesParts(s, base, reserved);
    FreedShape(s, base, ino, empty);
    FreedBits(s, base, reserved, ino, empty);
    FreedLabels(s, base, ino, empty);
    FreedDom(s, base, ino, empty);
    forall n | n in t.at ensures BlockOk(t, n, 0, 0, 3) {
      FreedBlock(s, base, ino, empty, n);
    }
    forall i | i in t.inodes ensures InodeOk(t, i, 0, 0, 3) {
      FreedInode(s, base, ino, empty, i);
    }
  }

  lemma FreedBlock(s: Volume, base: nat, ino: int, empty: Inode, n: Node)
    requires n in s.at && n.ino != ino && BlockOk(s, n, 0, 0, 3)
    ensures BlockOk(Freed(s, base, ino, empty), n, 0, 0, 3)
  {
    var t := Freed(s, base, ino, empty);
    if n.level > 0 {
      assert forall j :: 0 <= j < 256 ==> Entry(t, Child(n, j)) == Entry(s, Child(n, j));
    }
  }

  // ---------- how many ----------

  ghost function BitOf(s: Volume, base: nat, n: Node): set<int> {
    if n in s.at then {s.at[n] - base} else {}
  }

  lemma InStart(s: Volume, base: nat, reserved: set<int>, n: Node)
    requires TreesOk(s, base, reserved) && n.level <= 2
    ensures BitOf(s, base, n) <= Range(s, base, n.ino, 2, n.lo, n.lo + 1)
  {
    hide TreesOk;
    if n in s.at {
      NameHasBit(s, base, reserved, n);
      var k := s.at[n] - base;
      assert base + k == s.at[n];
      assert k in Range(s, base, n.ino, 2, n.lo, n.lo + 1);
    }
  }

  lemma OneBit(s: Volume, base: nat, n: Node)
    ensures |BitOf(s, base, n)| == if n in s.at then 1 else 0
  {
  }

  lemma BitsApart(s: Volume, base: nat, reserved: set<int>, n: Node, m: Node)
    requires TreesOk(s, base, reserved) && n != m
    ensures BitOf(s, base, n) !! BitOf(s, base, m)
  {
    hide TreesOk;
    if n in s.at && m in s.at { TreesAreDisjoint(s, base, reserved, n, m); }
  }

  /** The blocks that start at one index: one of each level on which a block may start there. */
  lemma StartsAt(s: Volume, base: nat, reserved: set<int>, ino: int, bn: nat)
    requires TreesOk(s, base, reserved) && ino in s.nb && bn < s.nb[ino] && bn < 66058
    ensures |Range(s, base, ino, 2, bn, bn + 1)| == Need(2, bn)
  {
    hide TreesOk, NodeOk, Need, Range, BitOf;
    var a, b, c := Node(ino, 0, bn), Node(ino, 1, bn), Node(ino, 2, bn);
    StartBits(s, base, reserved, ino, bn);
    OneBit(s, base, a);
    OneBit(s, base, b);
    OneBit(s, base, c);
    InTree(s, base, reserved, a);
    InTree(s, base, reserved, b);
    InTree(s, base, reserved, c);
    BitsApart(s, base, reserved, a, b);
    BitsApart(s, base, reserved, a, c);
    BitsApart(s, base, reserved, b, c);
    NeedCounts(ino, bn);
  }

  /** The bits of the blocks that start at `bn`, level by level. */
  lemma StartBits(s: Volume, base: nat, reserved: set<int>, ino: int, bn: nat)
    requires TreesOk(s, base, reserved) && ino in s.nb && bn < s.nb[ino] && bn < 66058
    ensures Range(s, base, ino, 2, bn, bn + 1)
         == BitOf(s, base, Node(ino, 0, bn)) + BitOf(s, base, Node(ino, 1, bn)) + BitOf(s, base, Node(ino, 2, bn))
  {
    hide TreesOk, NodeOk, Range, BitOf;
    var a, b, c := Node(ino, 0, bn), Node(ino, 1, bn), Node(ino, 2, bn);
    var r := Range(s, base, ino, 2, bn, bn + 1);
    forall k | k in r ensures k in BitOf(s, base, a) + BitOf(s, base, b) + BitOf(s, base, c) {
      StartIs(s, base, reserved, ino, bn, k);
    }
    InStart(s, base, reserved, a);
    InStart(s, base, reserved, b);
    InStart(s, base, reserved, c);
  }

  lemma StartIs(s: Volume, base: nat, reserved: set<int>, ino: int, bn: nat, k: int)
    requires TreesOk(s, base, reserved) && k in Range(s, base, ino, 2, bn, bn + 1)
    ensures k in BitOf(s, base, Node(ino, 0, bn)) + BitOf(s, base, Node(ino, 1, bn)) + BitOf(s, base, Node(ino, 2, bn))
  {
    hide TreesOk;
    BitIsNamed(s, base, reserved, k);
    OneOfThree(s.owner[base + k], ino, bn);
    hide NodeOk;
  }

  lemma OneOfThree(n: Node, ino: int, bn: nat)
    requires InRange(n, ino, 2, bn, bn + 1)
    ensures n == Node(ino, 0, bn) || n == Node(ino, 1, bn) || n == Node(ino, 2, bn)
  {
  }

  lemma NeedCounts(ino: int, bn: nat)
    requires bn < 66058
    ensures NodeOk(Node(ino, 0, bn))
    ensures Need(2, bn) == 1 + (if NodeOk(Node(ino, 1, bn)) then 1 else 0) + (if NodeOk(Node(ino, 2, bn)) then 1 else 0)
  {
  }

  lemma {:induction false} CountUpTo(s: Volume, base: nat, reserved: set<int>, ino: int, n: nat)
    requires TreesOk(s, base, reserved) && ino in s.nb && n <= s.nb[ino] <= 66058
    ensures |Range(s, base, ino, 2, 0, n)| == TreeBlocks(n)
  {
    hide TreesOk, Range;
    if n == 0 {
      NoneYet(s, base, ino, 2, 0, {}, 0);
      assert {} + Range(s, base, ino, 2, 0, 0) == Range(s, base, ino, 2, 0, 0);
    } else {
      CountUpTo(s, base, reserved, ino, n - 1);
      StartsAt(s, base, reserved, ino, n - 1);
      RangeSplit(s, base, ino, 2, 0, n - 1, n);
      TreeBlocksStep(n - 1);
    }
  }

  lemma BitBelowEnd(s: Volume, base: nat, reserved: set<int>, ino: int, k: int)
    requires TreesOk(s, base, reserved) && ino in s.nb
    ensures k in FileBits(s, base, ino) <==> k in Range(s, base, ino, 2, 0, s.nb[ino])
  {
    hide TreesOk;
    if base + k in s.owner { BitIsNamed(s, base, reserved, k); }
  }

  /** A dense file of `n` data blocks holds exactly TreeBlocks(n) bits. */
  lemma FileHolds(s: Volume, base: nat, reserved: set<int>, ino: int)
    requires TreesOk(s, base, reserved) && ino in s.nb
    ensures |FileBits(s, base, ino)| == TreeBlocks(s.nb[ino])
  {
    assert s.nb[ino] <= 66058;
    hide TreesOk, FileBits, Range;
    CountUpTo(s, base, reserved, ino, s.nb[ino]);
    forall k: int ensures k in FileBits(s, base, ino) <==> k in Range(s, base, ino, 2, 0, s.nb[ino]) {
      BitBelowEnd(s, base, reserved, ino, k);
    }
    assert FileBits(s, base, ino) == Range(s, base, ino, 2, 0, s.nb[ino]);
  }

  // ---------- inode_free_data ----------

  /** What releasing a file's data promises. */
  ghost predicate DataReleased(s: Volume, t: Volume, base: nat, reserved: set<int>, ino: int)
    requires ino in s.nb
  {
    && TreesOk(t, base, reserved)
    && t.used == s.used - FileBits(s, base, ino) && |t.used| == |s.used| - TreeBlocks(s.nb[ino])
    && t.blocks == s.blocks && t.nb == s.nb[ino := 0]
    && ino in t.inodes && t.inodes == s.inodes[ino := t.inodes[ino]] && t.inodes[ino].size == 0
    && |t.inodes[ino].addrs| == 13 && (forall k :: 0 <= k < 13 ==> t.inodes[ino].addrs[k] == 0)
    && (forall h :: h in s.inodes && h != ino && |s.inodes[h].addrs| == 13 ==> SameFile(s, t, h))
  }

  lemma ReleasedIs(s: Volume, base: nat, reserved: set<int>, ino: int, empty: Inode)
    requires TreesOk(s, base, reserved) && ino in s.inodes && ino in s.nb
    requires empty.size == 0 && |empty.addrs| == 13 && forall k :: 0 <= k < 13 ==> empty.addrs[k] == 0
    ensures DataReleased(s, Freed(s, base, ino, empty), base, reserved, ino)
  {
    hide TreesOk, FileBits;
    FreedIsOk(s, base, reserved, ino, empty);
    FileHolds(s, base, reserved, ino);
    assert FileBits(s, base, ino) <= s.used by { AllInUse(s, base, ino); }
  }

  lemma AllInUse(s: Volume, base: nat, ino: int)
    ensures FileBits(s, base, ino) <= s.used
  {
  }

  /** inode_free_data: exactly the file's own blocks become free, and the file is empty. */
  method FreeData(d: Disk, ino: int, ghost s: Volume)
    requires Bitmap.WellFormed(d.bitmap) && s == d.View() && TreesOk(s, d.base, d.reserved) && ino in s.inodes
             && ino in s.nb
    modifies d
    ensures Bitmap.WellFormed(d.bitmap) && DataReleased(s, d.View(), d.base, d.reserved, ino)
  {
    hide TreesOk, DataReleased, Partly, Bitmap.Used, Range, TopLo;
    StartFreeing(d, ino, s);
    var i := 0;
    while i < 10
      invariant 0 <= i <= 10 && Partly(d, s, ino, i) && d.at == s.at && d.owner == s.owner && d.nb == s.nb
    {
      FreeTop(d, ino, i, 0, s);
      i := i + 1;
    }
    i := 0;
    while i < 2
      invariant 0 <= i <= 2 && Partly(d, s, ino, 10 + i) && d.at == s.at && d.owner == s.owner && d.nb == s.nb
    {
      FreeTop(d, ino, 10 + i, 1, s);
      i := i + 1;
    }
    FreeTop(d, ino, 12, 2, s);
    PartlyMeans(d, s, ino);
    d.inodes := d.inodes[ino := d.inodes[ino].(size := 0)];
    FinishFreeing(d, ino, s);
  }

  lemma PartlyMeans(d: Disk, s: Volume, ino: int)
    requires Partly(d, s, ino, 13)
    ensures Freeing(d, s, Range(s, d.base, ino, 2, 0, TopLo(13)))
    ensures ino in s.inodes && ino in d.inodes && d.inodes == s.inodes[ino := d.inodes[ino]]
    ensures |d.inodes[ino].addrs| == 13 && forall k :: 0 <= k < 13 ==> d.inodes[ino].addrs[k] == 0
  {
  }

  lemma StartFreeing(d: Disk, ino: int, s: Volume)
    requires Bitmap.WellFormed(d.bitmap) && s == d.View() && TreesOk(s, d.base, d.reserved) && ino in s.inodes
    ensures Partly(d, s, ino, 0)
  {
    AddrIs(s, d.base, d.reserved, ino, 0);
    NoneYet(s, d.base, ino, 2, 0, {}, 0);
    assert s.inodes[ino := s.inodes[ino]] == s.inodes;
  }

  ghost method FinishFreeing(d: Disk, ino: int, s: Volume)
    requires TreesOk(s, d.base, d.reserved) && ino in s.nb && d.at == s.at && d.owner == s.owner && d.nb == s.nb
    requires Freeing(d, s, Range(s, d.base, ino, 2, 0, TopLo(13)))
    requires ino in s.inodes && ino in d.inodes && d.inodes == s.inodes[ino := d.inodes[ino]] && d.inodes[ino].size == 0
    requires |d.inodes[ino].addrs| == 13 && forall k :: 0 <= k < 13 ==> d.inodes[ino].addrs[k] == 0
    modifies d`at, d`owner, d`nb
    ensures Bitmap.WellFormed(d.bitmap) && DataReleased(s, d.View(), d.base, d.reserved, ino)
  {
    hide TreesOk, Range, DataReleased, Bitmap.Used;
    ReleasedIs(s, d.base, d.reserved, ino, d.inodes[ino]);
    d.at := NamesWithout(d.at, ino);
    d.owner := OwnersWithout(d.owner, ino);
    d.nb := d.nb[ino := 0];
    assert d.View() == Freed(s, d.base, ino, d.inodes[ino]);
  }

  // ---------- what releasing does not do ----------

  /** Released blocks keep what they hold: the free blocks still read as zero exactly when all blocks of the file do. */
  lemma ReleaseKeepsBlocks(s: Volume, base: nat, reserved: set<int>, ino: int, empty: Inode)
    requires TreesOk(s, base, reserved) && FreeZeroed(s, base)
    ensures FreeZeroed(Freed(s, base, ino, empty), base) <==> AllReadZero(s, ino)
  {
    hide TreesOk, FileBits, ReadsZero;
    var t := Freed(s, base, ino, empty);
    if AllReadZero(s, ino) {
      forall k: int | 0 <= k < 8192 && k !in t.used ensures base + k in t.blocks && ReadsZero(t.blocks[base + k]) {
        FileBitIs(s, base, reserved, ino, k);
        if k in s.used { BitIsNamed(s, base, reserved, k); }
      }
    }
    if FreeZeroed(t, base) {
      forall n | n in s.at && n.ino == ino ensures s.at[n] in s.blocks && ReadsZero(s.blocks[s.at[n]]) {
        NameHasBit(s, base, reserved, n);
        assert base + (s.at[n] - base) == s.at[n];
        FileBitIs(s, base, reserved, ino, s.at[n] - base);
        assert s.at[n] - base !in t.used;
      }
    }
  }

  ghost predicate AllReadZero(s: Volume, ino: int) {
    forall n :: n in s.at && n.ino == ino ==> s.at[n] in s.blocks && ReadsZero(s.blocks[s.at[n]])
  }

  /** The first index block of a file has a stored entry. */
  lemma IndexBlocksStayDirty(s: Volume, base: nat, reserved: set<int>, ino: int)
    requires TreesOk(s, base, reserved) && ino in s.nb && s.nb[ino] > 10
    ensures Node(ino, 1, 10) in s.at && s.at[Node(ino, 1, 10)] in s.blocks
            && !ReadsZero(s.blocks[s.at[Node(ino, 1, 10)]])
  {
    hide TreesOk;
    var n := Node(ino, 1, 10);
    InTree(s, base, reserved, n);
    InTree(s, base, reserved, Child(n, 0));
    TreeNumber(s, base, reserved, Child(n, 0));
    EntryOf(s, base, reserved, n, 0);
  }

  /** A block of a file without index blocks reads as zero when the file's bytes do. */
  lemma ZeroFileBlock(s: Volume, base: nat, reserved: set<int>, n: Node)
    requires TreesOk(s, base, reserved) && n in s.at && n.ino in s.nb && s.nb[n.ino] <= 10
    requires forall i: nat :: ByteAt(s, n.ino, i) == 0
    ensures s.at[n] in s.blocks && ReadsZero(s.blocks[s.at[n]])
  {
    hide TreesOk;
    InTree(s, base, reserved, n);
    Located(s, base, reserved, n.ino, n.lo);
    var b := s.blocks[s.at[n]];
    if !ReadsZero(b) {
      forall j: nat | j < 1024 ensures b.bytes[j] == 0 {
        assert ByteAt(s, n.ino, n.lo * 1024 + j) == 0;
      }
    }
  }

  lemma ZeroBlockBytes(s: Volume, ino: int, i: nat)
    requires AllReadZero(s, ino)
    ensures ByteAt(s, ino, i) == 0
  {
    var n := Node(ino, 0, i / 1024);
    if n in s.at { ZeroByte(s.blocks[s.at[n]], i % 1024); }
  }

  /**
   * Releasing a file keeps all free blocks reading as zero exactly when it has
   * at most ten data blocks and every byte of them is 0.
   */
  lemma ReleaseLeavesBytes(s: Volume, base: nat, reserved: set<int>, ino: int, empty: Inode)
    requires TreesOk(s, base, reserved) && FreeZeroed(s, base) && ino in s.nb
    ensures FreeZeroed(Freed(s, base, ino, empty), base) <==> s.nb[ino] <= 10 && forall i: nat :: ByteAt(s, ino, i) == 0
  {
    hide TreesOk, FreeZeroed, Freed, ReadsZero, ByteAt;
    ReleaseKeepsBlocks(s, base, reserved, ino, empty);
    if AllReadZero(s, ino) {
      if s.nb[ino] > 10 { IndexBlocksStayDirty(s, base, reserved, ino); }
      forall i: nat ensures ByteAt(s, ino, i) == 0 { ZeroBlockBytes(s, ino, i); }
    }
    if s.nb[ino] <= 10 && forall i: nat :: ByteAt(s, ino, i) == 0 {
      forall n | n in s.at && n.ino == ino ensures s.at[n] in s.blocks && ReadsZero(s.blocks[s.at[n]]) {
        ZeroFileBlock(s, base, reserved, n);
      }
    }
  }

  // ---------- the whole bitmap ----------

  /** Blocks of the listed files together. */
  function TotalBlocks(nb: map<int, nat>, inos: seq<int>): nat
    requires forall j :: 0 <= j < |inos| ==> inos[j] in nb
  {
    if inos == [] then 0 else TreeBlocks(nb[inos[0]]) + TotalBlocks(nb, inos[1..])
  }

  ghost function BitsOfFiles(s: Volume, base: nat, inos: seq<int>): set<int> {
    set k: int | k in s.used && base + k in s.owner && s.owner[base + k].ino in inos
  }

  lemma SplitFirst(s: Volume, base: nat, reserved: set<int>, inos: seq<int>)
    requires TreesOk(s, base, reserved) && inos != [] && inos[0] !in inos[1..]
    ensures BitsOfFiles(s, base, inos) == FileBits(s, base, inos[0]) + BitsOfFiles(s, base, inos[1..])
    ensures FileBits(s, base, inos[0]) !! BitsOfFiles(s, base, inos[1..])
  {
    hide TreesOk, FileBits;
    forall k ensures k in FileBits(s, base, inos[0]) <==>
        k in s.used && base + k in s.owner && s.owner[base + k].ino == inos[0] {
      FileBitIs(s, base, reserved, inos[0], k);
    }
  }

  lemma {:induction false} FilesTakeTotal(s: Volume, base: nat, reserved: set<int>, inos: seq<int>)
    requires TreesOk(s, base, reserved) && (forall j :: 0 <= j < |inos| ==> inos[j] in s.nb)
    requires forall i, j :: 0 <= i < j < |inos| ==> inos[i] != inos[j]
    ensures |BitsOfFiles(s, base, inos)| == TotalBlocks(s.nb, inos)
  {
    hide TreesOk, FileBits;
    if inos != [] {
      FilesTakeTotal(s, base, reserved, inos[1..]);
      SplitFirst(s, base, reserved, inos);
      FileHolds(s, base, reserved, inos[0]);
      hide BitsOfFiles;
    }
  }

  lemma FileBitOf(s: Volume, base: nat, inos: seq<int>, k: int)
    ensures k in BitsOfFiles(s, base, inos) <==> k in s.used && base + k in s.owner && s.owner[base + k].ino in inos
  {
  }

  /** A bit is either reserved or one file's. */
  lemma EitherBit(s: Volume, base: nat, reserved: set<int>, inos: seq<int>, k: int)
    requires TreesOk(s, base, reserved) && BitOk(s, base, reserved, k) && forall i :: i in s.nb <==> i in inos
    ensures k in s.used <==> k in reserved || k in BitsOfFiles(s, base, inos)
    ensures !(k in reserved && k in BitsOfFiles(s, base, inos))
  {
    hide TreesOk, BitsOfFiles;
    FileBitOf(s, base, inos, k);
    if base + k in s.owner { BitIsNamed(s, base, reserved, k); }
    hide NodeOk;
  }

  lemma ReservedApart(s: Volume, base: nat, reserved: set<int>, inos: seq<int>)
    requires TreesOk(s, base, reserved) && forall i :: i in s.nb <==> i in inos
    ensures s.used == reserved + BitsOfFiles(s, base, inos) && reserved !! BitsOfFiles(s, base, inos)
  {
    hide TreesOk, Bits, BitOk, BitsOfFiles;
    assert Bits(s, base, reserved) by { TreesHaveBits(s, base, reserved); }
    BitsPointwise(s, base, reserved);
    forall k: int
      ensures k in s.used <==> k in reserved || k in BitsOfFiles(s, base, inos)
      ensures !(k in reserved && k in BitsOfFiles(s, base, inos))
    {
      EitherBit(s, base, reserved, inos, k);
    }
  }

  lemma TreesHaveBits(s: Volume, base: nat, reserved: set<int>)
    requires TreesOk(s, base, reserved)
    ensures Labels(s) && Bits(s, base, reserved)
  {
  }

  /** Exact accounting in every state: the bits in use are the reserved ones and the blocks of all files, each once. */
  lemma BlocksAreConserved(s: Volume, base: nat, reserved: set<int>, inos: seq<int>)
    requires TreesOk(s, base, reserved) && (forall i :: i in s.nb <==> i in inos)
    requires forall j :: 0 <= j < |inos| ==> inos[j] in s.nb
    requires forall i, j :: 0 <= i < j < |inos| ==> inos[i] != inos[j]
    ensures |s.used| == |reserved| + TotalBlocks(s.nb, inos)
  {
    hide TreesOk;
    ReservedApart(s, base, reserved, inos);
    FilesTakeTotal(s, base, reserved, inos);
    hide BitsOfFiles;
  }
}
