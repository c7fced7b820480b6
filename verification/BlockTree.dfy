/**
 * The block trees of kernel/fs/inode.c, on values: 10 direct pointers, two
 * single-indirect and one double-indirect pointer per inode.
 *
 * A tree block is named by its inode, its level (0 for data) and the first
 * data block index it covers. `at` maps names to block numbers; the invariants
 * tie it to what is stored in the inodes and in the index blocks.
 */
module BlockTree {

  /** A block on disk. A zeroed block can be read as bytes and as entries alike. */
  datatype Block = Zeroed | Data(bytes: seq<bv8>) | Index(entries: seq<int>)

  /** A block of which every byte, and so every entry, reads as zero. */
  predicate ReadsZero(b: Block) {
    match b
    case Zeroed => true
    case Data(bytes) => |bytes| == 1024 && forall i :: 0 <= i < 1024 ==> bytes[i] == 0
    case Index(entries) => |entries| == 256 && forall j :: 0 <= j < 256 ==> entries[j] == 0
  }

  datatype Inode = Inode(size: nat, addrs: seq<int>)

  datatype Node = Node(ino: int, level: nat, lo: nat)

  /** Everything the block layer consists of, plus the names. */
  datatype Volume = Volume(blocks: map<int, Block>, used: set<int>, inodes: map<int, Inode>,
                           at: map<Node, int>, owner: map<int, Node>, nb: map<int, nat>)

  // ---------- names ----------

  /** Data blocks covered by a tree block of this level: the `size` argument of locate_block. */
  function Span(level: nat): nat {
    if level == 0 then 1 else if level == 1 then 256 else 65536
  }

  predicate NodeOk(n: Node) {
    && n.level <= 2
    && n.lo < 66058
    && (n.level == 1 ==> n.lo == 10 || n.lo == 266 || (n.lo >= 522 && (n.lo - 522) % 256 == 0))
    && (n.level == 2 ==> n.lo == 522)
  }

  /** The name of the block that address slot `i` of an inode points to. */
  function Top(ino: int, i: nat): Node {
    if i < 10 then Node(ino, 0, i) else if i == 10 then Node(ino, 1, 10) else if i == 11 then Node(ino, 1, 266)
    else Node(ino, 2, 522)
  }

  function Child(n: Node, j: nat): Node
    requires 1 <= n.level <= 2
  {
    Node(n.ino, n.level - 1, n.lo + (if n.level == 1 then j else j * 256))
  }

  lemma TopOk(ino: int, i: nat)
    requires i < 13
    ensures NodeOk(Top(ino, i))
  {
  }

  lemma ChildOk(n: Node, j: nat)
    requires NodeOk(n) && 1 <= n.level && j < 256
    ensures NodeOk(Child(n, j)) && Child(n, j).lo >= n.lo
  {
  }

  /** A tree block is reached from exactly one place. */
  lemma OneParent(n: Node, j: nat, m: Node, k: nat)
    requires NodeOk(n) && NodeOk(m) && 1 <= n.level && 1 <= m.level && j < 256 && k < 256 && Child(n, j) == Child(m, k)
    ensures n == m && j == k
  {
  }

  lemma TopIsNoChild(ino: int, i: nat, n: Node, j: nat)
    requires i < 13 && NodeOk(n) && 1 <= n.level && j < 256
    ensures Child(n, j) != Top(ino, i)
  {
  }

  lemma TopsDiffer(ino: int, i: nat, k: nat)
    requires i < 13 && k < 13 && Top(ino, i) == Top(ino, k)
    ensures i == k
  {
  }

  // ---------- the invariant ----------

  /** Entry value of a name: its block number, or 0 when there is no such block. */
  ghost function Entry(s: Volume, n: Node): int {
    if n in s.at then s.at[n] else 0
  }

  ghost predicate Has(s: Volume, n: Node) {
    NodeOk(n) && n.ino in s.nb && n.lo < s.nb[n.ino]
  }

  /** A block in the making: it starts at the index being located, at level `x` or above. */
  ghost predicate Fresh(n: Node, ino: int, bn: nat, x: nat) {
    NodeOk(n) && n.ino == ino && n.lo == bn && n.level >= x
  }

  ghost predicate Dom(s: Volume, ino: int, bn: nat, x: nat) {
    forall n :: n in s.at <==> Has(s, n) || Fresh(n, ino, bn, x)
  }

  ghost predicate Labels(s: Volume) {
    && (forall n :: n in s.at ==> s.at[n] in s.owner && s.owner[s.at[n]] == n)
    && (forall b :: b in s.owner ==> s.owner[b] in s.at && s.at[s.owner[b]] == b)
  }

  /** The bits in use are the reserved ones (bit 0, directory blocks) and those of the trees. */
  ghost predicate Bits(s: Volume, base: nat, reserved: set<int>) {
    && 0 in reserved
    && (forall k :: k in s.used ==> 0 <= k < 8192)
    && (forall k :: k in s.used <==> k in reserved || base + k in s.owner)
    && (forall k :: k in reserved ==> base + k !in s.owner)
    && (forall b :: b in s.owner ==> b - base in s.used)
  }

  /** Free blocks read as zero. */
  ghost predicate FreeZeroed(s: Volume, base: nat) {
    forall k: int :: 0 <= k < 8192 && k !in s.used ==> base + k in s.blocks && ReadsZero(s.blocks[base + k])
  }

  ghost predicate DataOk(b: Block) {
    ReadsZero(b) || (b.Data? && |b.bytes| == 1024)
  }

  function EntryAt(b: Block, j: nat): int {
    if b.Index? && j < |b.entries| then b.entries[j] else 0
  }

  /** A data block holds bytes; an index block holds the entries of its children, pending ones excepted. */
  ghost predicate BlockOk(s: Volume, n: Node, ino: int, bn: nat, y: nat)
    requires n in s.at
  {
    && s.at[n] in s.blocks
    && (if n.level == 0 then DataOk(s.blocks[s.at[n]])
        else
          && 1 <= n.level <= 2
          && (ReadsZero(s.blocks[s.at[n]]) || (s.blocks[s.at[n]].Index? && |s.blocks[s.at[n]].entries| == 256))
          && forall j :: 0 <= j < 256 ==>
               Fresh(Child(n, j), ino, bn, y) || EntryAt(s.blocks[s.at[n]], j) == Entry(s, Child(n, j)))
  }

  ghost predicate InodeOk(s: Volume, i: int, ino: int, bn: nat, y: nat)
    requires i in s.inodes
  {
    && |s.inodes[i].addrs| == 13
    && forall k :: 0 <= k < 13 ==> Fresh(Top(i, k), ino, bn, y) || s.inodes[i].addrs[k] == Entry(s, Top(i, k))
  }

  /**
   * The trees while block `bn` of `ino` is being located: blocks of level `x`
   * and above on its path are there, and those of level `y` and above may not
   * be linked from their parents yet.
   */
  ghost predicate Shape(s: Volume, base: nat, reserved: set<int>, ino: int, bn: nat, x: nat, y: nat) {
    && Dom(s, ino, bn, x) && Labels(s) && Bits(s, base, reserved)
    && (forall n :: n in s.at ==> BlockOk(s, n, ino, bn, y))
    && s.inodes.Keys == s.nb.Keys
    && (forall i :: i in s.inodes ==> InodeOk(s, i, ino, bn, y))
    && (forall i :: i in s.nb ==> s.nb[i] <= 66058)
  }

  /** The trees between operations: no pending block (level 3 does not exist). */
  ghost predicate TreesOk(s: Volume, base: nat, reserved: set<int>) {
    Shape(s, base, reserved, 0, 0, 3, 3)
  }

  /** The invariant is its parts. */
  lemma TreesAre(s: Volume, base: nat, reserved: set<int>)
    ensures TreesOk(s, base, reserved) <==>
      && Dom(s, 0, 0, 3) && Labels(s) && Bits(s, base, reserved)
      && (forall n :: n in s.at ==> BlockOk(s, n, 0, 0, 3))
      && s.inodes.Keys == s.nb.Keys
      && (forall i :: i in s.inodes ==> InodeOk(s, i, 0, 0, 3))
      && (forall i :: i in s.nb ==> s.nb[i] <= 66058)
  {
    hide Dom, Labels, Bits, BlockOk, InodeOk;
  }

  /** Between operations no block is pending, whichever one is named. */
  lemma NonePending(s: Volume, base: nat, reserved: set<int>, ino: int, bn: nat)
    ensures TreesOk(s, base, reserved) <==> Shape(s, base, reserved, ino, bn, 3, 3)
  {
    assert forall n :: !Fresh(n, ino, bn, 3) && !Fresh(n, 0, 0, 3);
    assert Dom(s, ino, bn, 3) <==> Dom(s, 0, 0, 3);
    assert forall n :: n in s.at ==> (BlockOk(s, n, ino, bn, 3) <==> BlockOk(s, n, 0, 0, 3));
    assert forall i :: i in s.inodes ==> (InodeOk(s, i, ino, bn, 3) <==> InodeOk(s, i, 0, 0, 3));
    hide Dom, BlockOk, InodeOk, Labels, Bits, Fresh;
  }

  lemma LabelIs(s: Volume, base: nat, reserved: set<int>, n: Node)
    requires Labels(s) && Bits(s, base, reserved) && n in s.at
    ensures s.at[n] in s.owner && s.owner[s.at[n]] == n
    ensures 0 < s.at[n] - base < 8192 && s.at[n] - base in s.used && s.at[n] - base !in reserved
  {
    assert s.at[n] in s.owner && s.owner[s.at[n]] == n;
    hide Labels;
    assert s.at[n] == base + (s.at[n] - base);
  }

  /** No two tree blocks share a disk block, all lie in the data area above bit 0, and their bits are set. */
  lemma TreesAreDisjoint(s: Volume, base: nat, reserved: set<int>, n: Node, m: Node)
    requires TreesOk(s, base, reserved) && n in s.at && m in s.at
    ensures s.at[n] == s.at[m] <==> n == m
    ensures base < s.at[n] < base + 8192 && s.at[n] - base in s.used && s.at[n] - base !in reserved
  {
    hide Dom, BlockOk, InodeOk, Labels, Bits;
    LabelIs(s, base, reserved, n);
    LabelIs(s, base, reserved, m);
  }

  // ---------- how many blocks a file has ----------

  function CeilDiv(a: nat, b: nat): nat
    requires b > 0
  {
    (a + b - 1) / b
  }

  /** Data and index blocks of a dense file of `n` data blocks. */
  function TreeBlocks(n: nat): nat {
    n + (if n > 10 then 1 else 0) + (if n > 266 then 1 else 0)
    + (if n > 522 then 1 + CeilDiv(n - 522, 256) else 0)
  }

  function Ok01(level: nat, lo: nat): nat {
    if NodeOk(Node(0, level, lo)) then 1 else 0
  }

  /** Blocks of level at most `level` that start at index `bn`. */
  function Need(level: nat, bn: nat): nat {
    Ok01(0, bn) + (if level >= 1 then Ok01(1, bn) else 0) + (if level >= 2 then Ok01(2, bn) else 0)
  }

  /** Appending data block `bn` adds the blocks that start there. */
  lemma TreeBlocksStep(bn: nat)
    requires bn < 66058
    ensures TreeBlocks(bn + 1) == TreeBlocks(bn) + Need(2, bn)
  {
    if bn >= 522 {
      var q := bn - 522;
      assert CeilDiv(q + 1, 256) == CeilDiv(q, 256) + (if q % 256 == 0 then 1 else 0);
    }
  }
}
