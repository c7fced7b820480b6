/**
 * Reading and writing the bytes of a file (kernel/fs/inode.c:267-353): the
 * block trees, read through the stored pointers, are one byte sequence per inode.
 */
module FileData {
  import opened BlockTree
  import opened BlockSteps
  import opened InodeBlocks
  import Bitmap

  // ---------- what a file contains ----------

  function ByteOf(b: Block, i: nat): bv8 {
    if b.Data? && i < |b.bytes| then b.bytes[i] else 0
  }

  function BlockAt(blocks: map<int, Block>, b: int): Block {
    if b in blocks then blocks[b] else Zeroed
  }

  /** Data block `bn` of an inode, found through the pointers stored on disk. */
  function Chase(blocks: map<int, Block>, addrs: seq<int>, bn: nat): int
    requires |addrs| == 13
  {
    if bn < 10 then addrs[bn]
    else if bn < 522 then EntryAt(BlockAt(blocks, addrs[10 + (bn - 10) / 256]), (bn - 10) % 256)
    else EntryAt(BlockAt(blocks, EntryAt(BlockAt(blocks, addrs[12]), (bn - 522) / 256)), (bn - 522) % 256)
  }

  /** The bytes of a file, read through the stored pointers. */
  ghost function Contents(s: Volume, ino: int): seq<bv8>
    requires ino in s.inodes && |s.inodes[ino].addrs| == 13
  {
    seq(s.inodes[ino].size, (i: nat) => ByteOf(BlockAt(s.blocks, Chase(s.blocks, s.inodes[ino].addrs, i / 1024)),
        i % 1024))
  }

  /** Files are dense: exactly the blocks below ceil(size / 1024) are there. */
  ghost predicate Dense(s: Volume) {
    forall i :: i in s.inodes && i in s.nb ==> s.nb[i] == CeilDiv(s.inodes[i].size, 1024)
  }

  ghost predicate FilesOk(s: Volume, base: nat, reserved: set<int>) {
    TreesOk(s, base, reserved) && FreeZeroed(s, base) && Dense(s)
  }

  /** A byte of a file by name; 0 where there is no block. */
  ghost function ByteAt(s: Volume, ino: int, i: nat): bv8 {
    var n := Node(ino, 0, i / 1024);
    if n in s.at then ByteOf(BlockAt(s.blocks, s.at[n]), i % 1024) else 0
  }

  lemma IndexEntry(s: Volume, base: nat, reserved: set<int>, n: Node, j: nat)
    requires TreesOk(s, base, reserved) && n in s.at && NodeOk(n) && 1 <= n.level && j < 256
    ensures EntryAt(BlockAt(s.blocks, s.at[n]), j) == Entry(s, Child(n, j))
  {
    assert BlockOk(s, n, 0, 0, 3);
  }

  lemma InTree(s: Volume, base: nat, reserved: set<int>, n: Node)
    requires TreesOk(s, base, reserved)
    ensures n in s.at <==> NodeOk(n) && n.ino in s.nb && n.lo < s.nb[n.ino]
  {
    assert Dom(s, 0, 0, 3);
    assert n in s.at <==> Has(s, n) || Fresh(n, 0, 0, 3);
  }

  lemma SingleIs(ino: int, bn: nat)
    requires 10 <= bn < 522
    ensures var t := Top(ino, 10 + (bn - 10) / 256);
            NodeOk(t) && t.level == 1 && t.ino == ino && t.lo <= bn && Child(t, (bn - 10) % 256) == Node(ino, 0, bn)
  {
  }

  lemma DoubleIs(ino: int, bn: nat)
    requires 522 <= bn < 66058
    ensures var t := Top(ino, 12);
            NodeOk(t) && t.level == 2 && t.ino == ino && t.lo <= bn && (bn - 522) / 256 < 256
    ensures var c := Child(Top(ino, 12), (bn - 522) / 256);
            NodeOk(c) && c.level == 1 && c.ino == ino && c.lo <= bn && Child(c, (bn - 522) % 256) == Node(ino, 0, bn)
  {
    var q := bn - 522;
    assert q == q / 256 * 256 + q % 256 && (q / 256 * 256) % 256 == 0;
  }

  lemma AddrIs(s: Volume, base: nat, reserved: set<int>, ino: int, i: nat)
    requires TreesOk(s, base, reserved) && ino in s.inodes && i < 13
    ensures |s.inodes[ino].addrs| == 13 && s.inodes[ino].addrs[i] == Entry(s, Top(ino, i))
    ensures ino in s.nb && s.nb[ino] <= 66058
  {
    assert InodeOk(s, ino, 0, 0, 3);
  }

  /** The stored pointers lead to the named blocks: locating is a function of the block index, and injective. */
  lemma ChaseIs(s: Volume, base: nat, reserved: set<int>, ino: int, bn: nat)
    requires TreesOk(s, base, reserved) && ino in s.inodes && ino in s.nb && bn < s.nb[ino]
    ensures |s.inodes[ino].addrs| == 13 && Node(ino, 0, bn) in s.at
    ensures Chase(s.blocks, s.inodes[ino].addrs, bn) == s.at[Node(ino, 0, bn)]
  {
    hide TreesOk, EntryAt, BlockAt;
    AddrIs(s, base, reserved, ino, 12);
    InTree(s, base, reserved, Node(ino, 0, bn));
    if bn < 10 {
      AddrIs(s, base, reserved, ino, bn);
    } else if bn < 522 {
      var i := 10 + (bn - 10) / 256;
      SingleIs(ino, bn);
      AddrIs(s, base, reserved, ino, i);
      InTree(s, base, reserved, Top(ino, i));
      IndexEntry(s, base, reserved, Top(ino, i), (bn - 10) % 256);
      hide Top, Child, NodeOk;
    } else {
      var j := (bn - 522) / 256;
      DoubleIs(ino, bn);
      InTree(s, base, reserved, Top(ino, 12));
      InTree(s, base, reserved, Child(Top(ino, 12), j));
      IndexEntry(s, base, reserved, Top(ino, 12), j);
      IndexEntry(s, base, reserved, Child(Top(ino, 12), j), (bn - 522) % 256);
      hide Top, Child, NodeOk;
    }
  }

  /** A file has a data block for each 1024 bytes of its size begun, and no other. */
  lemma DenseIs(s: Volume, base: nat, reserved: set<int>, ino: int, bn: nat)
    requires FilesOk(s, base, reserved) && ino in s.inodes && bn < 66058
    ensures Node(ino, 0, bn) in s.at <==> bn * 1024 < s.inodes[ino].size
  {
    InTree(s, base, reserved, Node(ino, 0, bn));
    assert ino in s.nb by { AddrIs(s, base, reserved, ino, 0); }
    assert s.nb[ino] == CeilDiv(s.inodes[ino].size, 1024);
    hide FilesOk;
  }

  lemma BlockOfByte(i: nat, size: nat)
    requires i < size
    ensures i / 1024 < CeilDiv(size, 1024)
  {
  }

  /** The bytes of a file, by name. */
  lemma ContentsAt(s: Volume, base: nat, reserved: set<int>, ino: int)
    requires FilesOk(s, base, reserved) && ino in s.inodes
    ensures |s.inodes[ino].addrs| == 13 && |Contents(s, ino)| == s.inodes[ino].size
    ensures forall i: nat :: i < |Contents(s, ino)| ==> Contents(s, ino)[i] == ByteAt(s, ino, i)
  {
    assert InodeOk(s, ino, 0, 0, 3) && ino in s.nb;
    hide TreesOk, FreeZeroed, ByteOf, Chase;
    forall i: nat | i < s.inodes[ino].size ensures Contents(s, ino)[i] == ByteAt(s, ino, i) {
      BlockOfByte(i, s.inodes[ino].size);
      ChaseIs(s, base, reserved, ino, i / 1024);
    }
  }

  // ---------- growing leaves every byte as it was ----------

  lemma GrewKeepsBytes(s: Volume, t: Volume, base: nat, reserved: set<int>, ino: int, bn: nat, h: int, i: nat)
    requires TreesOk(s, base, reserved) && ino in s.nb && ino in s.inodes && bn <= s.nb[ino]
             && Grew(s, t, base, reserved, ino, bn)
    ensures ByteAt(t, h, i) == ByteAt(s, h, i)
  {
    hide TreesOk, FreeZeroed, ByteOf, OthersKept, Need;
    var n := Node(h, 0, i / 1024);
    InTree(s, base, reserved, n);
    InTree(t, base, reserved, n);
    if n in s.at {
      Located(s, base, reserved, h, i / 1024);
    } else if n in t.at {
      assert n == Node(ino, 0, bn) && ReadsZero(t.blocks[t.at[n]]);
      ZeroByte(t.blocks[t.at[n]], i % 1024);
    }
  }

  lemma ZeroByte(b: Block, i: nat)
    requires ReadsZero(b)
    ensures ByteOf(b, i) == 0
  {
  }

  // ---------- storing bytes ----------

  ghost function DataStored(s: Volume, n: Node, bytes: seq<bv8>): Volume
    requires n in s.at
  {
    s.(blocks := s.blocks[s.at[n] := Data(bytes)])
  }

  lemma StoredBlockOk(s: Volume, n: Node, bytes: seq<bv8>, m: Node)
    requires n in s.at && n.level == 0 && |bytes| == 1024 && m in s.at && BlockOk(s, m, 0, 0, 3)
    requires s.at[m] == s.at[n] ==> m == n
    ensures BlockOk(DataStored(s, n, bytes), m, 0, 0, 3)
  {
  }

  lemma OneBlockEach(s: Volume, base: nat, reserved: set<int>, n: Node, m: Node)
    requires TreesOk(s, base, reserved) && n in s.at && m in s.at && s.at[n] == s.at[m]
    ensures n == m
  {
    assert Labels(s);
  }

  lemma SameAddrs(s: Volume, t: Volume, i: int)
    requires i in s.inodes && InodeOk(s, i, 0, 0, 3) && t.inodes == s.inodes && t.at == s.at
    ensures InodeOk(t, i, 0, 0, 3)
  {
  }

  lemma SameNames(s: Volume, t: Volume)
    requires Dom(s, 0, 0, 3) && t.at == s.at && t.nb == s.nb
    ensures Dom(t, 0, 0, 3)
  {
    assert forall m :: Has(s, m) <==> Has(t, m);
  }

  lemma StoredElsewhere(s: Volume, n: Node, bytes: seq<bv8>)
    requires Labels(s) && n in s.at
    ensures OthersKept(s, DataStored(s, n, bytes))
  {
  }

  lemma StoredIsOk(s: Volume, base: nat, reserved: set<int>, n: Node, bytes: seq<bv8>)
    requires TreesOk(s, base, reserved) && FreeZeroed(s, base) && n in s.at && n.level == 0 && |bytes| == 1024
    ensures TreesOk(DataStored(s, n, bytes), base, reserved) && FreeZeroed(DataStored(s, n, bytes), base)
    ensures OthersKept(s, DataStored(s, n, bytes))
  {
    hide TreesOk, Dom, Labels, Bits, BlockOk, InodeOk, FreeZeroed, OthersKept;
    var t := DataStored(s, n, bytes);
    TreesAre(s, base, reserved);
    forall m | m in t.at ensures BlockOk(t, m, 0, 0, 3) {
      if s.at[m] == s.at[n] { OneBlockEach(s, base, reserved, n, m); }
      StoredBlockOk(s, n, bytes, m);
    }
    forall i | i in t.inodes ensures InodeOk(t, i, 0, 0, 3) {
      SameAddrs(s, t, i);
    }
    SameNames(s, t);
    SameOwners(s, t, base, reserved);
    TreesAre(t, base, reserved);
    StoredElsewhere(s, n, bytes);
    StaysZeroed(s, t, base, reserved);
  }

  lemma StoredBytes(s: Volume, base: nat, reserved: set<int>, n: Node, bytes: seq<bv8>, h: int, i: nat)
    requires TreesOk(s, base, reserved) && n in s.at && n.level == 0 && |bytes| == 1024
    ensures ByteAt(DataStored(s, n, bytes), h, i) == if Node(h, 0, i / 1024) == n then bytes[i % 1024]
            else ByteAt(s, h, i)
  {
    hide TreesOk;
    var m := Node(h, 0, i / 1024);
    if m in s.at && s.at[m] == s.at[n] { OneBlockEach(s, base, reserved, m, n); }
  }

  /** One block's worth of a write at `offset`: those bytes of `ino` change, no other byte of any file. */
  ghost predicate ChunkBytes(s: Volume, t: Volume, ino: int, offset: nat, piece: seq<bv8>) {
    forall h: int, i: nat :: ByteAt(t, h, i) ==
      if h == ino && offset <= i < offset + |piece| then piece[i - offset] else ByteAt(s, h, i)
  }

  ghost predicate Chunk(s: Volume, t: Volume, base: nat, reserved: set<int>, ino: int, offset: nat, piece: seq<bv8>)
    requires ino in s.inodes && ino in s.nb
  {
    && TreesOk(t, base, reserved) && FreeZeroed(t, base)
    && t.nb == s.nb[ino := if offset / 1024 == s.nb[ino] then s.nb[ino] + 1 else s.nb[ino]]
    && ino in t.inodes && t.inodes == s.inodes[ino := t.inodes[ino]] && t.inodes[ino].size == s.inodes[ino].size
    && |t.used| == |s.used| + (if offset / 1024 == s.nb[ino] then Need(2, s.nb[ino]) else 0)
    && s.used <= t.used && (forall b :: b in s.blocks && b !in t.owner ==> b in t.blocks && t.blocks[b] == s.blocks[b])
    && (forall b :: b in s.owner ==> b in t.owner)
    && ChunkBytes(s, t, ino, offset, piece)
  }

  lemma OwnersKept(s: Volume, t: Volume, base: nat, reserved: set<int>)
    requires TreesOk(s, base, reserved) && TreesOk(t, base, reserved)
    requires forall n :: n in s.at ==> n in t.at && t.at[n] == s.at[n]
    ensures forall b :: b in s.owner ==> b in t.owner
  {
    assert Labels(s) && Labels(t);
    hide TreesOk, Labels, Bits, Dom, BlockOk, InodeOk;
    forall b | b in s.owner ensures b in t.owner {
      OwnerIsNamed(s, t, b);
    }
  }

  lemma OwnerIsNamed(s: Volume, t: Volume, b: int)
    requires Labels(s) && Labels(t) && b in s.owner
    requires forall n :: n in s.at ==> n in t.at && t.at[n] == s.at[n]
    ensures b in t.owner
  {
    assert s.owner[b] in s.at;
  }

  /** A block with `piece` put at `bo`. */
  predicate Spliced(old1: Block, bytes: seq<bv8>, bo: nat, piece: seq<bv8>) {
    |bytes| == 1024 && bo + |piece| <= 1024 &&
    forall i :: 0 <= i < 1024 ==> bytes[i] == if bo <= i < bo + |piece| then piece[i - bo] else ByteOf(old1, i)
  }

  lemma InBlock(offset: nat, len: nat, i: nat)
    requires offset % 1024 + len <= 1024
    ensures offset <= i < offset + len <==> i / 1024 == offset / 1024 && offset % 1024 <= i % 1024 < offset % 1024 + len
    ensures i / 1024 == offset / 1024 ==> i - offset == i % 1024 - offset % 1024
  {
  }

  lemma ChunkIs(s: Volume, s1: Volume, base: nat, reserved: set<int>, ino: int, offset: nat, piece: seq<bv8>,
      bytes: seq<bv8>)
    requires MayGrow(s, base, reserved, ino, offset / 1024) && Grew(s, s1, base, reserved, ino, offset / 1024)
    requires var n := Node(ino, 0, offset / 1024);
             n in s1.at && Spliced(BlockAt(s1.blocks, s1.at[n]), bytes, offset % 1024, piece)
    ensures Chunk(s, DataStored(s1, Node(ino, 0, offset / 1024), bytes), base, reserved, ino, offset, piece)
  {
    hide TreesOk, FreeZeroed, Need, ByteOf;
    var n := Node(ino, 0, offset / 1024);
    var t := DataStored(s1, n, bytes);
    StoredIsOk(s1, base, reserved, n, bytes);
    OwnersKept(s, s1, base, reserved);
    forall h: int, i: nat
      ensures ByteAt(t, h, i) == if h == ino
              && offset <= i < offset + |piece| then piece[i - offset] else ByteAt(s, h, i)
    {
      GrewKeepsBytes(s, s1, base, reserved, ino, offset / 1024, h, i);
      StoredBytes(s1, base, reserved, n, bytes, h, i);
      InBlock(offset, |piece|, i);
    }
  }

  /** A block's data area as bytes. */
  method ReadBytes(b: Block) returns (bytes: seq<bv8>)
    requires b.Data? ==> |b.bytes| == 1024
    ensures |bytes| == 1024 && forall i :: 0 <= i < 1024 ==> bytes[i] == ByteOf(b, i)
  {
    bytes := if b.Data? then b.bytes else seq(1024, _ => 0);
  }

  method WriteChunk(d: Disk, ino: int, offset: nat, piece: seq<bv8>, ghost s: Volume)
    requires Bitmap.WellFormed(d.bitmap) && s == d.View() && MayGrow(s, d.base, d.reserved, ino, offset / 1024)
    requires offset % 1024 + |piece| <= 1024
    modifies d
    ensures Bitmap.WellFormed(d.bitmap) && Chunk(s, d.View(), d.base, d.reserved, ino, offset, piece)
  {
    hide Grew, ChunkBytes, Bitmap.Used, ByteOf, TreesOk, FreeZeroed, Need;
    var b := d.LocateBlock(ino, offset / 1024, s);
    ghost var s1 := d.View();
    ghost var n := Node(ino, 0, offset / 1024);
    LocatedData(s, s1, d.base, d.reserved, ino, offset / 1024);
    var bo := offset % 1024;
    var bytes := ReadBytes(d.blocks[b]);
    var new1 := bytes[..bo] + piece + bytes[bo + |piece|..];
    assert Spliced(d.blocks[b], new1, bo, piece);
    ChunkIs(s, s1, d.base, d.reserved, ino, offset, piece, new1);
    d.blocks := d.blocks[b := Data(new1)];
    assert d.View() == DataStored(s1, n, new1);
  }

  lemma LocatedData(s: Volume, t: Volume, base: nat, reserved: set<int>, ino: int, bn: nat)
    requires ino in s.nb && ino in s.inodes && Grew(s, t, base, reserved, ino, bn)
    ensures Node(ino, 0, bn) in t.at && t.at[Node(ino, 0, bn)] in t.blocks
    ensures DataOk(t.blocks[t.at[Node(ino, 0, bn)]])
  {
    hide TreesOk;
    Located(t, base, reserved, ino, bn);
  }

  // ---------- the write loop ----------

  function Max(a: nat, b: nat): nat {
    if a < b then b else a
  }

  /** After `piece` was written at `offset` of `ino`, before the size is brought up to date. */
  ghost predicate Written(s: Volume, t: Volume, base: nat, reserved: set<int>, ino: int, offset: nat, piece: seq<bv8>) {
    && ino in s.inodes && ino in s.nb
    && TreesOk(t, base, reserved) && FreeZeroed(t, base)
    && t.nb == s.nb[ino := Max(s.nb[ino], CeilDiv(offset + |piece|, 1024))]
    && ino in t.inodes && t.inodes == s.inodes[ino := t.inodes[ino]] && t.inodes[ino].size == s.inodes[ino].size
    && |t.used| == |s.used| + TreeBlocks(Max(s.nb[ino], CeilDiv(offset + |piece|, 1024))) - TreeBlocks(s.nb[ino])
    && s.used <= t.used && (forall b :: b in s.blocks && b !in t.owner ==> b in t.blocks && t.blocks[b] == s.blocks[b])
    && ChunkBytes(s, t, ino, offset, piece)
  }

  /** There are blocks for a write that ends at `end`. */
  ghost predicate Room(s: Volume, ino: int, end: nat)
    requires ino in s.nb
  {
    |s.used| + TreeBlocks(Max(s.nb[ino], CeilDiv(end, 1024))) - TreeBlocks(s.nb[ino]) <= 8192
  }

  lemma {:induction false} TreeBlocksMono(a: nat, b: nat)
    requires a <= b <= 66058
    ensures TreeBlocks(a) <= TreeBlocks(b)
    decreases b - a
  {
    if a < b {
      TreeBlocksStep(a);
      TreeBlocksMono(a + 1, b);
    }
  }

  /** Block arithmetic of one round: its block is one of the file's or the next one. */
  lemma RoundIs(n0: nat, offset: nat, at: nat, w: nat)
    requires CeilDiv(offset, 1024) <= n0 && offset <= at && 0 < w && at % 1024 + w <= 1024 && at + w <= 67643392
    ensures at / 1024 <= Max(n0, CeilDiv(at, 1024)) && at / 1024 < 66058
    ensures Max(n0, CeilDiv(at + w, 1024)) ==
            (if at / 1024 == Max(n0, CeilDiv(at, 1024)) then Max(n0, CeilDiv(at, 1024)) + 1
                else Max(n0, CeilDiv(at, 1024)))
  {
  }

  lemma CeilMono(a: nat, b: nat)
    requires a <= b <= 67643392
    ensures CeilDiv(a, 1024) <= CeilDiv(b, 1024) <= 66058
  {
  }

  lemma MayWrite(s: Volume, t: Volume, base: nat, reserved: set<int>, ino: int, offset: nat, piece: seq<bv8>, w: nat,
      end: nat)
    requires Written(s, t, base, reserved, ino, offset, piece) && CeilDiv(offset, 1024) <= s.nb[ino] <= 66058
    requires 0 < w && (offset + |piece|) % 1024 + w <= 1024 && offset + |piece| + w <= end <= 67643392
             && Room(s, ino, end)
    ensures MayGrow(t, base, reserved, ino, (offset + |piece|) / 1024)
  {
    hide TreesOk, FreeZeroed, ChunkBytes;
    var n0, at := s.nb[ino], offset + |piece|;
    RoundIs(n0, offset, at, w);
    CeilMono(at + w, end);
    var m := Max(n0, CeilDiv(at, 1024));
    if at / 1024 == m {
      TreeBlocksStep(m);
      TreeBlocksMono(m + 1, Max(n0, CeilDiv(end, 1024)));
    }
    hide CeilDiv, TreeBlocks, Need;
  }

  lemma ChunkBytesJoin(s: Volume, t: Volume, u: Volume, ino: int, offset: nat, a: seq<bv8>, b: seq<bv8>)
    requires ChunkBytes(s, t, ino, offset, a) && ChunkBytes(t, u, ino, offset + |a|, b)
    ensures ChunkBytes(s, u, ino, offset, a + b)
  {
    hide ByteAt;
  }

  lemma Join(s: Volume, t: Volume, u: Volume, base: nat, reserved: set<int>, ino: int, offset: nat, a: seq<bv8>,
      b: seq<bv8>)
    requires Written(s, t, base, reserved, ino, offset, a) && CeilDiv(offset, 1024) <= s.nb[ino] <= 66058
    requires |b| > 0 && (offset + |a|) % 1024 + |b| <= 1024 && offset + |a| + |b| <= 67643392
    requires Chunk(t, u, base, reserved, ino, offset + |a|, b)
    ensures Written(s, u, base, reserved, ino, offset, a + b)
  {
    hide TreesOk, FreeZeroed, ChunkBytes;
    var n0, at := s.nb[ino], offset + |a|;
    RoundIs(n0, offset, at, |b|);
    assert |a + b| == |a| + |b|;
    var m := Max(n0, CeilDiv(at, 1024));
    if at / 1024 == m {
      TreeBlocksStep(m);
    }
    hide CeilDiv, TreeBlocks, Need;
    ChunkBytesJoin(s, t, u, ino, offset, a, b);
  }

  lemma NothingWritten(s: Volume, base: nat, reserved: set<int>, ino: int, offset: nat)
    requires FilesOk(s, base, reserved) && ino in s.inodes && offset <= s.inodes[ino].size
    ensures ino in s.nb && CeilDiv(offset, 1024) <= s.nb[ino] <= 66058
    ensures Written(s, s, base, reserved, ino, offset, [])
  {
    assert ino in s.nb && s.nb[ino] <= 66058;
    hide TreesOk, FreeZeroed, TreeBlocks;
    CeilLe(offset, s.inodes[ino].size);
    hide CeilDiv;
    assert ChunkBytes(s, s, ino, offset, []);
    assert s.nb[ino := s.nb[ino]] == s.nb;
    assert s.inodes[ino := s.inodes[ino]] == s.inodes;
  }

  lemma CeilLe(a: nat, b: nat)
    requires a <= b
    ensures CeilDiv(a, 1024) <= CeilDiv(b, 1024)
  {
  }

  /** One round of the write loop. */
  method WriteRound(d: Disk, ino: int, offset: nat, src: seq<bv8>, total: nat, ghost start: nat, ghost s0: Volume)
    returns (n: nat)
    requires Bitmap.WellFormed(d.bitmap) && total < |src| && offset == start + total && start + |src| <= 67643392
    requires Written(s0, d.View(), d.base, d.reserved, ino, start, src[..total])
    requires CeilDiv(start, 1024) <= s0.nb[ino] <= 66058 && Room(s0, ino, start + |src|)
    modifies d
    ensures Bitmap.WellFormed(d.bitmap) && 0 < n && total + n <= |src|
    ensures Written(s0, d.View(), d.base, d.reserved, ino, start, src[..total + n])
  {
    hide Written, Chunk, MayGrow, Room, CeilDiv, Bitmap.Used;
    ghost var t := d.View();
    var toWrite := 1024 - offset % 1024;
    if toWrite > |src| - total {
      toWrite := |src| - total;
    }
    MayWrite(s0, t, d.base, d.reserved, ino, start, src[..total], toWrite, start + |src|);
    WriteChunk(d, ino, offset, src[total..total + toWrite], t);
    Join(s0, t, d.View(), d.base, d.reserved, ino, start, src[..total], src[total..total + toWrite]);
    assert src[..total] + src[total..total + toWrite] == src[..total + toWrite];
    n := toWrite;
  }

  // ---------- the whole write ----------

  /** A byte sequence with `src` put at `offset`, growing at the end if need be. */
  function Splice(file: seq<bv8>, offset: nat, src: seq<bv8>): seq<bv8>
    requires offset <= |file|
  {
    file[..offset] + src + (if offset + |src| < |file| then file[offset + |src|..] else [])
  }

  ghost function Sized(s: Volume, ino: int, size: nat): Volume
    requires ino in s.inodes
  {
    s.(inodes := s.inodes[ino := s.inodes[ino].(size := size)])
  }

  lemma SizedAddrs(s: Volume, ino: int, size: nat, i: int)
    requires ino in s.inodes && i in s.inodes && InodeOk(s, i, 0, 0, 3)
    ensures InodeOk(Sized(s, ino, size), i, 0, 0, 3)
  {
  }

  lemma SameBlocks(s: Volume, t: Volume, n: Node)
    requires n in s.at && BlockOk(s, n, 0, 0, 3) && t.at == s.at && t.blocks == s.blocks
    ensures BlockOk(t, n, 0, 0, 3)
  {
  }

  lemma SizedIsOk(s: Volume, base: nat, reserved: set<int>, ino: int, size: nat)
    requires TreesOk(s, base, reserved) && FreeZeroed(s, base) && ino in s.inodes
    ensures TreesOk(Sized(s, ino, size), base, reserved) && FreeZeroed(Sized(s, ino, size), base)
  {
    hide TreesOk, Dom, Labels, Bits, BlockOk, InodeOk, FreeZeroed;
    var t := Sized(s, ino, size);
    TreesAre(s, base, reserved);
    forall n | n in t.at ensures BlockOk(t, n, 0, 0, 3) {
      SameBlocks(s, t, n);
    }
    forall i | i in t.inodes ensures InodeOk(t, i, 0, 0, 3) {
      SizedAddrs(s, ino, size, i);
    }
    SameNames(s, t);
    SameOwners(s, t, base, reserved);
    TreesAre(t, base, reserved);
    SameZeroed(s, t, base);
  }

  /** What a write promises: a splice on the file's bytes, nothing else changed, and exact block accounting. */
  ghost predicate WriteDone(s: Volume, t: Volume, base: nat, reserved: set<int>, ino: int, offset: nat, src: seq<bv8>)
    requires FilesOk(s, base, reserved) && ino in s.inodes && offset <= s.inodes[ino].size
  {
    ContentsAt(s, base, reserved, ino);
    && FilesOk(t, base, reserved) && t.inodes.Keys == s.inodes.Keys
    && t.inodes[ino].size == Max(s.inodes[ino].size, offset + |src|)
    && |t.inodes[ino].addrs| == 13 && Contents(t, ino) == Splice(Contents(s, ino), offset, src)
    && (forall h :: h in s.inodes && h != ino ==> t.inodes[h] == s.inodes[h] && SameFile(s, t, h))
    && |t.used| - |s.used| == TreeBlocks(CeilDiv(t.inodes[ino].size, 1024)) - TreeBlocks(CeilDiv(s.inodes[ino].size,
        1024))
    && (forall b :: b in s.blocks && b !in t.owner ==> b in t.blocks && t.blocks[b] == s.blocks[b])
  }

  ghost predicate SameFile(s: Volume, t: Volume, h: int) {
    && h in s.inodes && h in t.inodes && |s.inodes[h].addrs| == 13 && |t.inodes[h].addrs| == 13
    && Contents(t, h) == Contents(s, h)
  }

  lemma SameFileIs(s: Volume, t: Volume, base: nat, reserved: set<int>, h: int)
    requires FilesOk(s, base, reserved) && FilesOk(t, base, reserved) && h in s.inodes && h in t.inodes
    requires t.inodes[h].size == s.inodes[h].size && forall i: nat :: ByteAt(t, h, i) == ByteAt(s, h, i)
    ensures SameFile(s, t, h)
  {
    hide FilesOk, ByteAt;
    ContentsAt(s, base, reserved, h);
    ContentsAt(t, base, reserved, h);
    hide Contents;
  }

  lemma SplicedFile(s: Volume, t: Volume, base: nat, reserved: set<int>, ino: int, offset: nat, src: seq<bv8>)
    requires FilesOk(s, base, reserved) && FilesOk(t, base, reserved) && ino in s.inodes && ino in t.inodes
    requires offset <= s.inodes[ino].size && t.inodes[ino].size == Max(s.inodes[ino].size, offset + |src|)
    requires ChunkBytes(s, t, ino, offset, src) && |s.inodes[ino].addrs| == 13 && |t.inodes[ino].addrs| == 13
    ensures |Contents(s, ino)| == s.inodes[ino].size && Contents(t, ino) == Splice(Contents(s, ino), offset, src)
    ensures forall h :: h in s.inodes && h in t.inodes && h != ino && t.inodes[h].size == s.inodes[h].size ==>
            SameFile(s, t, h)
  {
    hide FilesOk, ByteAt;
    ContentsAt(s, base, reserved, ino);
    ContentsAt(t, base, reserved, ino);
    forall h | h in s.inodes && h in t.inodes && h != ino && t.inodes[h].size == s.inodes[h].size
      ensures SameFile(s, t, h)
    {
      SameFileIs(s, t, base, reserved, h);
    }
    hide Contents, SameFile;
    var old1, new1 := Contents(s, ino), Contents(t, ino);
    BytesAreSpliced(old1, new1, offset, src);
  }

  lemma BytesAreSpliced(old1: seq<bv8>, new1: seq<bv8>, offset: nat, src: seq<bv8>)
    requires offset <= |old1| && |new1| == Max(|old1|, offset + |src|)
    requires forall i: nat :: i < |new1| ==>
      new1[i] == if offset <= i < offset + |src| then src[i - offset] else if i < |old1| then old1[i] else new1[i]
    ensures new1 == Splice(old1, offset, src)
  {
  }

  lemma WrittenIsOk(s: Volume, t: Volume, base: nat, reserved: set<int>, ino: int, offset: nat, src: seq<bv8>)
    requires FilesOk(s, base, reserved) && ino in s.inodes && offset <= s.inodes[ino].size
    requires Written(s, t, base, reserved, ino, offset, src)
    ensures FilesOk(Sized(t, ino, Max(s.inodes[ino].size, offset + |src|)), base, reserved)
    ensures s.nb[ino] == CeilDiv(s.inodes[ino].size, 1024)
    ensures |s.inodes[ino].addrs| == 13 && |t.inodes[ino].addrs| == 13
  {
    hide TreesOk, FreeZeroed, ChunkBytes;
    SizedIsOk(t, base, reserved, ino, Max(s.inodes[ino].size, offset + |src|));
    AddrIs(s, base, reserved, ino, 0);
    AddrIs(t, base, reserved, ino, 0);
    MaxOfCeil(s.inodes[ino].size, offset + |src|);
    TreesHaveNb(t, base, reserved);
    hide CeilDiv, TreeBlocks;
  }

  lemma WrittenFrame(s: Volume, t: Volume, base: nat, reserved: set<int>, ino: int, offset: nat, src: seq<bv8>)
    requires Written(s, t, base, reserved, ino, offset, src)
    ensures ino in s.inodes && ino in s.nb && ino in t.inodes && t.inodes == s.inodes[ino := t.inodes[ino]]
    ensures |t.used| == |s.used| + TreeBlocks(Max(s.nb[ino], CeilDiv(offset + |src|, 1024))) - TreeBlocks(s.nb[ino])
    ensures (forall b :: b in s.blocks && b !in t.owner ==> b in t.blocks && t.blocks[b] == s.blocks[b])
    ensures ChunkBytes(s, t, ino, offset, src)
  {
  }

  lemma WrittenMeans(s: Volume, t: Volume, base: nat, reserved: set<int>, ino: int, offset: nat, src: seq<bv8>)
    requires FilesOk(s, base, reserved) && ino in s.inodes && offset <= s.inodes[ino].size
    requires Written(s, t, base, reserved, ino, offset, src)
    ensures WriteDone(s, Sized(t, ino, Max(s.inodes[ino].size, offset + |src|)), base, reserved, ino, offset, src)
  {
    hide FilesOk, Written, TreeBlocks, Splice, SameFile, ChunkBytes, Contents, CeilDiv;
    var size := Max(s.inodes[ino].size, offset + |src|);
    WrittenIsOk(s, t, base, reserved, ino, offset, src);
    WrittenFrame(s, t, base, reserved, ino, offset, src);
    MaxOfCeil(s.inodes[ino].size, offset + |src|);
    SizedBytes(s, t, ino, offset, src, size);
    SplicedFile(s, Sized(t, ino, size), base, reserved, ino, offset, src);
  }

  lemma SizedBytes(s: Volume, t: Volume, ino: int, offset: nat, src: seq<bv8>, size: nat)
    requires ChunkBytes(s, t, ino, offset, src) && ino in t.inodes
    ensures ChunkBytes(s, Sized(t, ino, size), ino, offset, src)
  {
    assert forall h, i: nat :: ByteAt(Sized(t, ino, size), h, i) == ByteAt(t, h, i);
  }

  lemma TreesHaveNb(s: Volume, base: nat, reserved: set<int>)
    requires TreesOk(s, base, reserved)
    ensures s.inodes.Keys == s.nb.Keys
  {
  }

  lemma MaxOfCeil(a: nat, b: nat)
    ensures Max(CeilDiv(a, 1024), CeilDiv(b, 1024)) == CeilDiv(Max(a, b), 1024)
  {
  }

  /** inode_write_data on a dense file, with enough free, zeroed blocks. */
  method WriteData(d: Disk, ino: int, offset0: nat, src: seq<bv8>, ghost s: Volume) returns (total: nat)
    requires Bitmap.WellFormed(d.bitmap) && s == d.View() && FilesOk(s, d.base, d.reserved)
    requires ino in s.inodes && ino in s.nb && offset0 <= s.inodes[ino].size && offset0 + |src| < 0x1_0000_0000
    requires offset0 + |src| <= 67643392 ==> Room(s, ino, offset0 + |src|)
    modifies d
    ensures Bitmap.WellFormed(d.bitmap)
    ensures total == if offset0 + |src| > 67643392 then 0 else |src|
    ensures offset0 + |src| > 67643392 ==> d.View() == s
    ensures offset0 + |src| <= 67643392 ==> WriteDone(s, d.View(), d.base, d.reserved, ino, offset0, src)
    ensures offset0 + |src| <= 67643392 ==> BytesWritten(s, d.View(), ino, offset0, src)
  {
    hide TreesOk, FreeZeroed, Dense, WriteDone, Written, Room, Bitmap.Used, CeilDiv, BytesWritten;
    total := 0;
    var len := |src|;
    if offset0 + len > 67643392 {
      return;
    }
    NothingWritten(s, d.base, d.reserved, ino, offset0);
    var offset := offset0;
    while total < len
      invariant total <= len && offset == offset0 + total
      invariant Bitmap.WellFormed(d.bitmap) && Written(s, d.View(), d.base, d.reserved, ino, offset0, src[..total])
    {
      var n := WriteRound(d, ino, offset, src, total, offset0, s);
      total := total + n;
      offset := offset + n;
    }
    assert src[..total] == src;
    SetSize(d, ino, offset, offset0, src, s);
    WrittenBytes(s, d.View(), d.base, d.reserved, ino, offset0, src);
  }

  /** A write, byte by byte: the range holds `src`, everything else what it held, and the size is the larger end. */
  ghost predicate BytesWritten(s: Volume, t: Volume, ino: int, offset: nat, src: seq<bv8>)
    requires ino in s.inodes
  {
    && ino in t.inodes && |s.inodes[ino].addrs| == 13 && |t.inodes[ino].addrs| == 13
    && |Contents(s, ino)| == s.inodes[ino].size >= offset && |Contents(t, ino)| == t.inodes[ino].size
    && t.inodes[ino].size == (if offset + |src| < s.inodes[ino].size then s.inodes[ino].size else offset + |src|)
    && (forall i: nat :: i < |Contents(t, ino)| ==>
          Contents(t, ino)[i] == if offset <= i < offset + |src| then src[i - offset] else Contents(s, ino)[i])
    && (forall h :: h in s.inodes && h != ino && |s.inodes[h].addrs| == 13 ==>
          h in t.inodes && t.inodes[h] == s.inodes[h] && Contents(t, h) == Contents(s, h))
  }

  lemma WrittenBytes(s: Volume, t: Volume, base: nat, reserved: set<int>, ino: int, offset: nat, src: seq<bv8>)
    requires FilesOk(s, base, reserved) && ino in s.inodes && offset <= s.inodes[ino].size
    requires WriteDone(s, t, base, reserved, ino, offset, src)
    ensures BytesWritten(s, t, ino, offset, src)
  {
    ContentsAt(s, base, reserved, ino);
    WrittenFile(s, t, base, reserved, ino, offset, src);
    hide FilesOk, Contents, TreeBlocks, WriteDone, SameFile, Splice;
    SpliceIs(Contents(s, ino), offset, src);
  }

  lemma WrittenFile(s: Volume, t: Volume, base: nat, reserved: set<int>, ino: int, offset: nat, src: seq<bv8>)
    requires FilesOk(s, base, reserved) && ino in s.inodes && offset <= s.inodes[ino].size
    requires WriteDone(s, t, base, reserved, ino, offset, src)
    ensures ino in t.inodes && |s.inodes[ino].addrs| == 13 && |t.inodes[ino].addrs| == 13
    ensures |Contents(s, ino)| == s.inodes[ino].size && Contents(t, ino) == Splice(Contents(s, ino), offset, src)
    ensures t.inodes[ino].size == Max(s.inodes[ino].size, offset + |src|)
    ensures forall h :: h in s.inodes && h != ino && |s.inodes[h].addrs| == 13 ==>
      h in t.inodes && t.inodes[h] == s.inodes[h] && Contents(t, h) == Contents(s, h)
  {
    ContentsAt(s, base, reserved, ino);
    hide FilesOk, Contents, TreeBlocks, Splice;
    forall h | h in s.inodes && h != ino ensures t.inodes[h] == s.inodes[h] && SameFile(s, t, h) {
    }
  }

  lemma SpliceIs(file: seq<bv8>, offset: nat, src: seq<bv8>)
    requires offset <= |file|
    ensures |Splice(file, offset, src)| == if offset + |src| < |file| then |file| else offset + |src|
    ensures forall i: nat :: i < |Splice(file, offset, src)| ==>
      Splice(file, offset, src)[i] == if offset <= i < offset + |src| then src[i - offset] else file[i]
  {
  }

  /** The end of the write: the size grows to the end of the range. */
  method SetSize(d: Disk, ino: int, offset: nat, ghost start: nat, ghost src: seq<bv8>, ghost s: Volume)
    requires Bitmap.WellFormed(d.bitmap) && FilesOk(s, d.base, d.reserved) && ino in s.inodes
             && start <= s.inodes[ino].size
    requires Written(s, d.View(), d.base, d.reserved, ino, start, src) && offset == start + |src|
    modifies d
    ensures Bitmap.WellFormed(d.bitmap) && WriteDone(s, d.View(), d.base, d.reserved, ino, start, src)
  {
    hide TreesOk, FreeZeroed, Dense, ChunkBytes, Bitmap.Used, WriteDone, CeilDiv, TreeBlocks;
    ghost var t := d.View();
    WrittenMeans(s, t, d.base, d.reserved, ino, start, src);
    if offset > d.inodes[ino].size {
      d.inodes := d.inodes[ino := d.inodes[ino].(size := offset)];
    } else {
      assert t.inodes[ino := t.inodes[ino].(size := t.inodes[ino].size)] == t.inodes;
    }
    assert d.View() == Sized(t, ino, Max(s.inodes[ino].size, start + |src|));
  }

  // ---------- the read ----------

  /** What a read of `len` bytes at `offset` returns: the bytes from there on, up to `len` or the end of the file. */
  ghost predicate IsRead(file: seq<bv8>, offset: nat, len: nat, out: seq<bv8>) {
    && |out| == (if offset >= |file| then 0 else if len < |file| - offset then len else |file| - offset)
    && forall i: nat :: i < |out| ==> out[i] == file[offset + i]
  }

  ghost predicate ReadSoFar(s: Volume, ino: int, offset: nat, out: seq<bv8>) {
    forall i: nat :: i < |out| ==> out[i] == ByteAt(s, ino, offset + i)
  }

  lemma BlocksOfSize(s: Volume, base: nat, reserved: set<int>, ino: int, offset: nat)
    requires FilesOk(s, base, reserved) && ino in s.inodes && offset < s.inodes[ino].size
    ensures ino in s.nb && offset / 1024 < s.nb[ino] && MayGrow(s, base, reserved, ino, offset / 1024)
  {
    BlockOfByte(offset, s.inodes[ino].size);
    assert ino in s.nb && s.nb[ino] <= 66058;
  }

  lemma ReadMore(s: Volume, ino: int, offset: nat, out: seq<bv8>, b: Block, bytes: seq<bv8>, bo: nat, n: nat)
    requires ReadSoFar(s, ino, offset, out) && bo == (offset + |out|) % 1024 && bo + n <= 1024 && |bytes| == 1024
    requires var m := Node(ino, 0, (offset + |out|) / 1024); m in s.at && b == BlockAt(s.blocks, s.at[m])
    requires forall i :: 0 <= i < 1024 ==> bytes[i] == ByteOf(b, i)
    ensures ReadSoFar(s, ino, offset, out + bytes[bo..bo + n])
  {
    hide ByteOf;
    var o2 := out + bytes[bo..bo + n];
    forall i: nat | |out| <= i < |o2| ensures o2[i] == ByteAt(s, ino, offset + i) {
      InBlock(offset + |out|, n, offset + i);
    }
  }

  method ReadRound(d: Disk, ino: int, offset: nat, len: nat, out: seq<bv8>, ghost start: nat, ghost s: Volume)
    returns (piece: seq<bv8>)
    requires Bitmap.WellFormed(d.bitmap) && s == d.View() && FilesOk(s, d.base, d.reserved) && ino in s.inodes
    requires offset == start + |out| && |out| < len && start + len <= s.inodes[ino].size
             && ReadSoFar(s, ino, start, out)
    modifies d
    ensures Bitmap.WellFormed(d.bitmap) && d.View() == s
    ensures 0 < |piece| <= len - |out| && ReadSoFar(s, ino, start, out + piece)
  {
    hide FilesOk, MayGrow, Grew, Bitmap.Used, ReadSoFar, ByteOf;
    BlocksOfSize(s, d.base, d.reserved, ino, offset);
    var bo := offset % 1024;
    var b := d.LocateBlock(ino, offset / 1024, s);
    LocatedData(s, s, d.base, d.reserved, ino, offset / 1024);
    var toRead := 1024 - bo;
    if toRead > len - |out| {
      toRead := len - |out|;
    }
    var bytes := ReadBytes(d.blocks[b]);
    ReadMore(s, ino, start, out, d.blocks[b], bytes, bo, toRead);
    piece := bytes[bo..bo + toRead];
  }

  lemma ReadIsSlice(s: Volume, base: nat, reserved: set<int>, ino: int, offset: nat, len: nat, out: seq<bv8>)
    requires FilesOk(s, base, reserved) && ino in s.inodes && offset + len <= s.inodes[ino].size && |out| == len
    requires ReadSoFar(s, ino, offset, out)
    ensures |s.inodes[ino].addrs| == 13 && |Contents(s, ino)| == s.inodes[ino].size
    ensures out == Contents(s, ino)[offset..offset + len]
  {
    hide FilesOk, ByteAt;
    ContentsAt(s, base, reserved, ino);
    hide Contents;
  }

  /** inode_read_data: the clipped range of the file; nothing is allocated and nothing changes. */
  method ReadData(d: Disk, ino: int, offset0: nat, len0: nat, ghost s: Volume) returns (out: seq<bv8>)
    requires Bitmap.WellFormed(d.bitmap) && s == d.View() && FilesOk(s, d.base, d.reserved) && ino in s.inodes
    requires offset0 + len0 < 0x1_0000_0000
    modifies d
    ensures Bitmap.WellFormed(d.bitmap) && d.View() == s
    ensures |s.inodes[ino].addrs| == 13 && IsRead(Contents(s, ino), offset0, len0, out)
    ensures |Contents(s, ino)| == s.inodes[ino].size
    ensures |out| == var left := s.inodes[ino].size - offset0; if left <= 0 then 0 else if len0 < left then len0
            else left
    ensures forall i: nat :: i < |out| ==> out[i] == Contents(s, ino)[offset0 + i]
  {
    out := [];
    ContentsAt(s, d.base, d.reserved, ino);
    if offset0 >= d.inodes[ino].size {
      return;
    }
    var len := len0;
    if offset0 + len > d.inodes[ino].size {
      len := d.inodes[ino].size - offset0;
    }
    var offset := offset0;
    while |out| < len
      invariant |out| <= len && offset == offset0 + |out|
      invariant Bitmap.WellFormed(d.bitmap) && d.View() == s && ReadSoFar(s, ino, offset0, out)
    {
      var piece := ReadRound(d, ino, offset, len, out, offset0, s);
      out := out + piece;
      offset := offset + |piece|;
    }
    ReadIsSlice(s, d.base, d.reserved, ino, offset0, len, out);
  }

  /** Reading back what was written gives it back, and the rest of the file reads as before. */
  lemma ReadYourWrite(file: seq<bv8>, offset: nat, src: seq<bv8>, o: nat, n: nat, out: seq<bv8>)
    requires offset <= |file| && IsRead(Splice(file, offset, src), o, n, out)
    ensures o == offset && n == |src| ==> out == src
    ensures o + n <= offset || o >= offset + |src| ==> IsRead(file, o, n, out)
  {
    SpliceIs(file, offset, src);
  }

  // ---------- runs of writes ----------

  /** The image builder's disk: every file empty, only the reserved bits set, every other block zero. */
  ghost predicate FreshImage(s: Volume, base: nat, reserved: set<int>) {
    && s.at == map[] && s.owner == map[] && s.nb.Keys == s.inodes.Keys
    && s.used == reserved && 0 in reserved && (forall k :: k in reserved ==> 0 <= k < 8192)
    && (forall i :: i in s.inodes ==> s.nb[i] == 0 && s.inodes[i].size == 0 && |s.inodes[i].addrs| == 13)
    && (forall i, j :: i in s.inodes && 0 <= j < |s.inodes[i].addrs| ==> s.inodes[i].addrs[j] == 0)
    && (forall b :: base <= b < base + 8192 && b - base !in reserved ==> b in s.blocks && ReadsZero(s.blocks[b]))
  }

  /** The initial image is where runs start. */
  lemma FreshVolume(s: Volume, base: nat, reserved: set<int>, ino: int)
    requires FreshImage(s, base, reserved)
    ensures FilesOk(s, base, reserved)
    ensures ino in s.inodes ==> |s.inodes[ino].addrs| == 13 && Contents(s, ino) == []
  {
    hide ReadsZero;
    forall k: int | 0 <= k < 8192 && k !in s.used ensures base + k in s.blocks && ReadsZero(s.blocks[base + k]) {
      assert base + k - base !in reserved;
    }
    forall i | i in s.inodes ensures InodeOk(s, i, 0, 0, 3) {
      assert |s.inodes[i].addrs| == 13;
    }
    assert Dom(s, 0, 0, 3) && Labels(s) && Bits(s, base, reserved);
  }

  datatype Op = Op(ino: int, offset: nat, src: seq<bv8>)

  /** A dense write within the largest file size. */
  ghost predicate Fits(s: Volume, base: nat, reserved: set<int>, op: Op) {
    && FilesOk(s, base, reserved) && op.ino in s.inodes
    && op.offset <= s.inodes[op.ino].size && op.offset + |op.src| <= 67643392
  }

  ghost predicate WriteStep(s: Volume, t: Volume, base: nat, reserved: set<int>, op: Op) {
    Fits(s, base, reserved, op) && WriteDone(s, t, base, reserved, op.ino, op.offset, op.src)
  }

  /** A file after a run of writes to all files, on plain bytes. */
  function Replay(file: seq<bv8>, ops: seq<Op>, ino: int): seq<bv8> {
    if ops == [] then file
    else
      var before := Replay(file, ops[..|ops| - 1], ino);
      var op := ops[|ops| - 1];
      if op.ino == ino && op.offset <= |before| then Splice(before, op.offset, op.src) else before
  }

  lemma StepFile(s: Volume, t: Volume, base: nat, reserved: set<int>, op: Op, h: int)
    requires WriteStep(s, t, base, reserved, op) && h in s.inodes
    ensures FilesOk(t, base, reserved) && h in t.inodes
    ensures |s.inodes[h].addrs| == 13 && |t.inodes[h].addrs| == 13
    ensures Contents(t, h) == if h == op.ino then Splice(Contents(s, h), op.offset, op.src) else Contents(s, h)
    ensures h == op.ino ==> op.offset <= |Contents(s, h)|
  {
    hide FilesOk, Splice;
    ContentsAt(s, base, reserved, op.ino);
    ContentsAt(s, base, reserved, h);
    assert h != op.ino ==> SameFile(s, t, h);
    hide Contents;
  }

  /** After any run of dense writes every file holds what the same writes leave on plain byte sequences. */
  lemma {:induction false} WritesRefineSplices(vs: seq<Volume>, ops: seq<Op>, base: nat, reserved: set<int>, n: nat,
      h: int)
    requires |vs| == |ops| + 1 && n <= |ops| && FilesOk(vs[0], base, reserved) && h in vs[0].inodes
    requires forall i :: 0 <= i < |ops| ==> WriteStep(vs[i], vs[i + 1], base, reserved, ops[i])
    ensures FilesOk(vs[n], base, reserved) && h in vs[n].inodes
    ensures |vs[0].inodes[h].addrs| == 13 && |vs[n].inodes[h].addrs| == 13
    ensures Contents(vs[n], h) == Replay(Contents(vs[0], h), ops[..n], h)
  {
    hide FilesOk, WriteStep, Contents, Splice;
    if n == 0 {
      ContentsAt(vs[0], base, reserved, h);
      assert ops[..0] == [];
    } else {
      WritesRefineSplices(vs, ops, base, reserved, n - 1, h);
      assert WriteStep(vs[n - 1], vs[n - 1 + 1], base, reserved, ops[n - 1]);
      StepFile(vs[n - 1], vs[n], base, reserved, ops[n - 1], h);
      assert ops[..n][..n - 1] == ops[..n - 1];
    }
  }
}
