/**
 * Sv39 page tables built in physical pages (kernel/mem/vmem.c).
 *
 * A space is named by its root page. `Walk` follows the words stored in the
 * pages; the ghost map `tbl` of `Memory` names every table page by the space,
 * level and range it serves, so that distinctness of tables is one fact about
 * `use` and every invariant speaks about one table at a time.
 */
module VMem {
  import opened Sv39
  import opened PhysMem

  // ---------- the walk, as the hardware does it ----------

  /** The word in slot `i` of table page `a`; 0 when `a` is not a table. */
  ghost function Slot(pages: map<int, Page>, a: int, i: nat): uint64 {
    if a in pages && pages[a].Table? && i < |pages[a].ptes|
        && 0 <= pages[a].ptes[i] < TWO64 then pages[a].ptes[i] else 0
  }

  /** The table that slot `i` of table `a` points to; 0 when the slot is invalid. */
  ghost function Below(pages: map<int, Page>, a: int, i: nat): int {
    if IsValid(Slot(pages, a, i)) then PteToPa(Slot(pages, a, i)) else 0
  }

  /** The lowest-level table serving page index `vpn`; 0 when the walk stops early. */
  ghost function LeafTable(pages: map<int, Page>, root: int, vpn: nat): int {
    var mid := Below(pages, root, Digit(vpn, 2));
    if mid == 0 then 0 else Below(pages, mid, Digit(vpn, 1))
  }

  /** The leaf word of page index `vpn` in space `root`; 0 when there is none. */
  ghost function Walk(pages: map<int, Page>, root: int, vpn: nat): uint64 {
    Slot(pages, LeafTable(pages, root, vpn), Digit(vpn, 0))
  }

  /** The walk, spelled out: three words, at the three index fields of the address. */
  lemma WalkIs(pages: map<int, Page>, root: int, va: nat)
    requires va < VA_MAX && 0 !in pages
    ensures var w2 := Slot(pages, root, va / 0x4000_0000 % 512);
      var w1 := Slot(pages, w2 / 1024 * 4096 % TWO64, va / 0x20_0000 % 512);
      var w0 := Slot(pages, w1 / 1024 * 4096 % TWO64, va / 0x1000 % 512);
      Walk(pages, root, va / 4096) == if w2 % 2 == 1 && w1 % 2 == 1 then w0 else 0
  {
    VaDigits(va);
  }

  // ---------- names of tables ----------

  ghost predicate KeyOk(k: Key) {
    && k.level <= 2
    && k.lo < VPN_MAX
    && (k.level == 0 ==> k.lo % 512 == 0)
    && (k.level == 1 ==> k.lo % 262144 == 0)
    && (k.level == 2 ==> k.lo == 0)
  }

  ghost function RootKey(root: int): Key {
    Key(root, 2, 0)
  }

  /** The table of `level` that serves `vpn`. */
  ghost function KeyAt(root: int, level: nat, vpn: nat): (k: Key)
    requires level <= 2 && vpn < VPN_MAX
    ensures KeyOk(k)
  {
    Key(root, level, if level == 2 then 0 else if level == 1 then vpn / 262144 * 262144 else vpn / 512 * 512)
  }

  ghost function Child(k: Key, i: nat): Key
    requires 1 <= k.level <= 2
  {
    Key(k.root, k.level - 1, k.lo + i * (if k.level == 2 then 262144 else 512))
  }

  lemma ChildAt(root: int, level: nat, vpn: nat)
    requires 1 <= level <= 2 && vpn < VPN_MAX
    ensures Child(KeyAt(root, level, vpn), Digit(vpn, level)) == KeyAt(root, level - 1, vpn)
  {
    assert vpn / 262144 == vpn / 512 / 512;
    DigitsOf(vpn);
  }

  /** The child relation is injective, and a child's range starts inside its parent's. */
  lemma ChildIs(k: Key, i: nat, c: Key)
    requires KeyOk(k) && KeyOk(c) && 1 <= k.level && i < 512 && Child(k, i) == c
    ensures k == KeyAt(c.root, k.level, c.lo) && i == Digit(c.lo, k.level)
  {
    assert c.lo / 262144 == c.lo / 512 / 512;
  }

  // ---------- the tree invariant ----------

  /** One interior slot agrees with the table names: valid exactly when the child exists, and then points to it. */
  ghost predicate SlotOk(pages: map<int, Page>, tbl: map<Key, int>, k: Key, i: nat)
    requires 1 <= k.level <= 2 && k in tbl
  {
    var w := Slot(pages, tbl[k], i);
    var c := Child(k, i);
    if c in tbl then IsValid(w) && !IsLeaf(w) && PteToPa(w) == tbl[c] else !IsValid(w)
  }

  ghost predicate TableOk(pages: map<int, Page>, use: map<int, Use>, tbl: map<Key, int>, k: Key)
    requires k in tbl
  {
    && KeyOk(k)
    && tbl[k] in pages && pages[tbl[k]].Table?
    && tbl[k] in use && use[tbl[k]] == TableOf(k)
    && (k.level == 2 ==> tbl[k] == k.root)
    && (k.level < 2 ==> KeyAt(k.root, k.level + 1, k.lo) in tbl)
    && (k.level > 0 ==> forall i :: 0 <= i < 512 ==> SlotOk(pages, tbl, k, i))
  }

  /** The interior tables of all spaces are three-level trees of distinct pages. */
  ghost predicate TreeOk(pages: map<int, Page>, use: map<int, Use>, tbl: map<Key, int>) {
    && (forall k :: k in tbl ==> TableOk(pages, use, tbl, k))
    && (forall a :: a in use && use[a].TableOf? ==> use[a].key in tbl && tbl[use[a].key] == a)
  }

  /** Everything the walk code relies on. */
  ghost predicate Ok(m: Memory)
    reads m
  {
    m.Pools() && TreeOk(m.pages, m.use, m.tbl)
  }

  lemma TableAt(pages: map<int, Page>, use: map<int, Use>, tbl: map<Key, int>, k: Key)
    requires TreeOk(pages, use, tbl) && k in tbl
    ensures TableOk(pages, use, tbl, k)
    ensures tbl[k] in pages && pages[tbl[k]].Table? && tbl[k] in use && use[tbl[k]] == TableOf(k)
  {
  }

  lemma TablesAreDistinct(pages: map<int, Page>, use: map<int, Use>, tbl: map<Key, int>, k: Key, c: Key)
    requires TreeOk(pages, use, tbl) && k in tbl && c in tbl && tbl[k] == tbl[c]
    ensures k == c
  {
    assert TableOk(pages, use, tbl, k) && TableOk(pages, use, tbl, c);
  }

  lemma TableApart(pages: map<int, Page>, use: map<int, Use>, tbl: map<Key, int>, k: Key, h: Key, a: int)
    requires TreeOk(pages, use, tbl) && k in tbl && h in tbl && k != h && a in use && use[a] == Held
    ensures tbl[h] in pages && tbl[h] != tbl[k] && tbl[h] != a
  {
    assert TableOk(pages, use, tbl, k) && TableOk(pages, use, tbl, h);
  }

  /** The three-level walk and the table names agree: the walk ends in the named level-0 table or nowhere. */
  lemma WalkIsNamed(pages: map<int, Page>, use: map<int, Use>, tbl: map<Key, int>, root: int, vpn: nat)
    requires TreeOk(pages, use, tbl) && PagesOk(pages) && RootKey(root) in tbl && vpn < VPN_MAX
    ensures KeyAt(root, 0, vpn) in tbl ==> KeyAt(root, 1, vpn) in tbl
    ensures Below(pages, root, Digit(vpn, 2)) == (if KeyAt(root, 1, vpn) in tbl then tbl[KeyAt(root, 1, vpn)] else 0)
    ensures LeafTable(pages, root, vpn) == (if KeyAt(root, 0, vpn) in tbl then tbl[KeyAt(root, 0, vpn)] else 0)
  {
    var k2, k1, k0 := KeyAt(root, 2, vpn), KeyAt(root, 1, vpn), KeyAt(root, 0, vpn);
    ChildAt(root, 2, vpn);
    assert TableOk(pages, use, tbl, k2) && SlotOk(pages, tbl, k2, Digit(vpn, 2));
    ChildAt(root, 1, vpn);
    if k1 in tbl {
      assert TableOk(pages, use, tbl, k1) && SlotOk(pages, tbl, k1, Digit(vpn, 1));
      assert AddressOk(tbl[k1]);
    }
    if k0 in tbl {
      assert TableOk(pages, use, tbl, k0);
      assert KeyAt(root, 1, k0.lo) == k1 by {
        assert k0.lo / 262144 == k0.lo / 512 / 512;
        assert vpn / 262144 == vpn / 512 / 512;
      }
    }
  }

  // ---------- what single stores do ----------

  /** Every page index of every space translates as before. */
  ghost predicate SameWalks(pages: map<int, Page>, pages': map<int, Page>, tbl: map<Key, int>) {
    forall r, v: nat :: RootKey(r) in tbl && v < VPN_MAX ==> Walk(pages', r, v) == Walk(pages, r, v)
  }

  /** Only page index `vpn` of space `root` changes, to the word `w`. */
  ghost predicate OneWalk(pages: map<int, Page>, pages': map<int, Page>, tbl: map<Key, int>,
                          root: int, vpn: nat, w: uint64) {
    forall r, v: nat :: RootKey(r) in tbl && v < VPN_MAX ==>
      Walk(pages', r, v) == if r == root && v == vpn then w else Walk(pages, r, v)
  }

  const ZEROS: seq<int> := seq(512, _ => 0)

  /** Two tree states whose level-0 table for `vpn` is the same page with the same word translate it alike. */
  lemma SameLeafSlot(pages: map<int, Page>, use: map<int, Use>, tbl: map<Key, int>,
                     pages': map<int, Page>, use': map<int, Use>, tbl': map<Key, int>, root: int, vpn: nat)
    requires TreeOk(pages, use, tbl) && PagesOk(pages) && TreeOk(pages', use', tbl') && PagesOk(pages')
    requires RootKey(root) in tbl && RootKey(root) in tbl' && vpn < VPN_MAX
    requires KeyAt(root, 0, vpn) in tbl ==> KeyAt(root, 0, vpn) in tbl'
    requires KeyAt(root, 0, vpn) in tbl ==>
      var t := tbl[KeyAt(root, 0, vpn)];
      tbl'[KeyAt(root, 0, vpn)] == t && Slot(pages', t, Digit(vpn, 0)) == Slot(pages, t, Digit(vpn, 0))
    requires KeyAt(root, 0, vpn) in tbl' && KeyAt(root, 0, vpn) !in tbl ==>
      Slot(pages', tbl'[KeyAt(root, 0, vpn)], Digit(vpn, 0)) == 0
    ensures Walk(pages', root, vpn) == Walk(pages, root, vpn)
  {
    WalkIsNamed(pages, use, tbl, root, vpn);
    WalkIsNamed(pages', use', tbl', root, vpn);
    NullIsNoPage(pages);
    NullIsNoPage(pages');
  }

  lemma NullIsNoPage(pages: map<int, Page>)
    requires PagesOk(pages)
    ensures 0 !in pages
  {
  }

  /** Pages that are no tables can change without any table noticing. */
  lemma OtherPagesKeep(pages: map<int, Page>, pages': map<int, Page>, use: map<int, Use>, use': map<int, Use>,
                       tbl: map<Key, int>)
    requires TreeOk(pages, use, tbl) && PagesOk(pages) && PagesOk(pages')
    requires forall a :: a in use && use[a].TableOf? ==>
      a in use' && use'[a] == use[a] && (a in pages ==> a in pages' && pages'[a] == pages[a])
    requires forall a :: a in use' && use'[a].TableOf? ==> a in use && use[a] == use'[a]
    ensures TreeOk(pages', use', tbl)
    ensures SameWalks(pages, pages', tbl)
  {
    forall k | k in tbl ensures TableOk(pages', use', tbl, k) {
      assert TableOk(pages, use, tbl, k);
      if k.level > 0 {
        forall i | 0 <= i < 512 ensures SlotOk(pages', tbl, k, i) {
          assert SlotOk(pages, tbl, k, i);
        }
      }
    }
    forall r, v: nat | RootKey(r) in tbl && v < VPN_MAX ensures Walk(pages', r, v) == Walk(pages, r, v) {
      SameLeafSlot(pages, use, tbl, pages', use', tbl, r, v);
    }
  }

  ghost predicate IsZeroTable(p: Page) {
    p.Table? && |p.ptes| == 512 && forall i :: 0 <= i < 512 ==> p.ptes[i] == 0
  }

  /** Slot `i` of table `k` is empty, `a` becomes a zeroed table, and the slot points to it. */
  ghost predicate Adds(pages: map<int, Page>, use: map<int, Use>, tbl: map<Key, int>, k: Key, i: nat, a: int,
                       pages': map<int, Page>, use': map<int, Use>, tbl': map<Key, int>) {
    && TreeOk(pages, use, tbl) && PagesOk(pages)
    && k in tbl && KeyOk(k) && k.level > 0 && i < 512 && KeyOk(Child(k, i)) && Child(k, i) !in tbl
    && KeyAt(k.root, k.level, Child(k, i).lo) == k
    && a in pages && a in use && use[a] == Held
    && tbl[k] in pages && pages[tbl[k]].Table? && |pages[tbl[k]].ptes| == 512 && AddressOk(a)
    && a in pages' && pages' == pages[a := pages'[a]][tbl[k] := Table(pages[tbl[k]].ptes[i := MakePte(a, 0)])]
    && IsZeroTable(pages'[a])
    && use' == use[a := TableOf(Child(k, i))]
    && tbl' == tbl[Child(k, i) := a]
  }

  lemma AddedIsEmpty(pages: map<int, Page>, use: map<int, Use>, tbl: map<Key, int>, k: Key, i: nat, a: int,
                     pages': map<int, Page>, use': map<int, Use>, tbl': map<Key, int>, j: nat)
    requires Adds(pages, use, tbl, k, i, a, pages', use', tbl') && Child(k, i).level > 0 && j < 512
    ensures Child(k, i) in tbl' && SlotOk(pages', tbl', Child(k, i), j)
  {
    var c := Child(k, i);
    if Child(c, j) in tbl {
      TableAt(pages, use, tbl, Child(c, j));
      ChildIs(c, j, Child(c, j));
    }
    TableAt(pages, use, tbl, k);
    hide TreeOk, TableOk, KeyOk, KeyAt, PagesOk;
  }

  /** Slots of different tables, or different slots of one, have different children. */
  lemma ChildrenDiffer(h: Key, j: nat, k: Key, i: nat)
    requires KeyOk(h) && KeyOk(k) && 1 <= h.level && 1 <= k.level && j < 512 && i < 512 && KeyOk(Child(k, i))
    requires Child(h, j) == Child(k, i)
    ensures h == k && j == i
  {
    ChildIs(h, j, Child(k, i));
    ChildIs(k, i, Child(k, i));
  }

  lemma AddedSlot(pages: map<int, Page>, use: map<int, Use>, tbl: map<Key, int>, k: Key, i: nat, a: int,
                  pages': map<int, Page>, use': map<int, Use>, tbl': map<Key, int>, h: Key, j: nat)
    requires Adds(pages, use, tbl, k, i, a, pages', use', tbl') && h in tbl && j < 512
    ensures Slot(pages', tbl[h], j) == if h == k && j == i then MakePte(a, 0) else Slot(pages, tbl[h], j)
  {
    hide TreeOk, TableOk, KeyOk, KeyAt, PagesOk, MakePte, IsZeroTable, Child, AddressOk;
    TableAt(pages, use, tbl, h);
    if h != k && tbl[h] == tbl[k] { TablesAreDistinct(pages, use, tbl, h, k); }
  }

  lemma AddedElsewhere(pages: map<int, Page>, use: map<int, Use>, tbl: map<Key, int>, k: Key, i: nat, a: int,
                       pages': map<int, Page>, use': map<int, Use>, tbl': map<Key, int>, h: Key, j: nat)
    requires Adds(pages, use, tbl, k, i, a, pages', use', tbl') && h in tbl && h != Child(k, i) && KeyOk(h)
             && h.level > 0
    requires j < 512
    ensures h in tbl' && SlotOk(pages', tbl', h, j)
  {
    hide TreeOk, TableOk, KeyOk, KeyAt, PagesOk, MakePte, IsZeroTable, Child, Slot, PteToPa, IsValid, IsLeaf;
    LevelOk(h);
    LevelOk(k);
    AddedSlot(pages, use, tbl, k, i, a, pages', use', tbl', h, j);
    SlotAt(pages, use, tbl, h, j);
    if Child(h, j) == Child(k, i) { ChildrenDiffer(h, j, k, i); }
    LinkWord(a);
  }

  /** The word that a table is linked with. */
  lemma LinkWord(a: uint64)
    requires a % 4096 == 0
    ensures IsValid(MakePte(a, 0)) && !IsLeaf(MakePte(a, 0)) && PteToPa(MakePte(a, 0)) == a
  {
    PteRoundTrip(a, 0);
  }

  lemma SlotAt(pages: map<int, Page>, use: map<int, Use>, tbl: map<Key, int>, h: Key, j: nat)
    requires TreeOk(pages, use, tbl) && h in tbl && h.level > 0 && j < 512
    ensures h.level <= 2 && SlotOk(pages, tbl, h, j)
  {
    assert TableOk(pages, use, tbl, h);
  }

  lemma LevelOk(h: Key)
    requires KeyOk(h)
    ensures h.level <= 2
  {
  }

  lemma AddedTable(pages: map<int, Page>, use: map<int, Use>, tbl: map<Key, int>, k: Key, i: nat, a: int,
                   pages': map<int, Page>, use': map<int, Use>, tbl': map<Key, int>, h: Key)
    requires Adds(pages, use, tbl, k, i, a, pages', use', tbl') && h in tbl'
    ensures TableOk(pages', use', tbl', h)
  {
    hide TreeOk, PagesOk, SlotOk, MakePte;
    TableAt(pages, use, tbl, k);
    if h == Child(k, i) {
      if h.level > 0 {
        forall j | 0 <= j < 512 ensures SlotOk(pages', tbl', h, j) {
          AddedIsEmpty(pages, use, tbl, k, i, a, pages', use', tbl', j);
        }
      }
    } else {
      TableAt(pages, use, tbl, h);
      if h.level > 0 {
        forall j | 0 <= j < 512 ensures SlotOk(pages', tbl', h, j) {
          AddedElsewhere(pages, use, tbl, k, i, a, pages', use', tbl', h, j);
        }
      }
    }
  }

  lemma TablePut(pages: map<int, Page>, a: int, p: Page, b: int, i: nat, w: uint64)
    requires PagesOk(pages) && a in pages && b in pages && pages[b].Table? && i < |pages[b].ptes| && IsZeroTable(p)
    ensures PagesOk(pages[a := p][b := Table(pages[b].ptes[i := w])])
  {
    assert PageOk(pages[b]);
  }

  lemma AddedPages(pages: map<int, Page>, use: map<int, Use>, tbl: map<Key, int>, k: Key, i: nat, a: int,
                   pages': map<int, Page>, use': map<int, Use>, tbl': map<Key, int>)
    requires Adds(pages, use, tbl, k, i, a, pages', use', tbl')
    ensures PagesOk(pages')
    ensures forall b :: b in use' && use'[b].TableOf? ==> use'[b].key in tbl' && tbl'[use'[b].key] == b
  {
    TablePut(pages, a, pages'[a], tbl[k], i, MakePte(a, 0));
    TableAt(pages, use, tbl, k);
    hide TableOk, KeyOk, KeyAt, Child, PagesOk, IsZeroTable;
  }

  /** A fresh zeroed table linked into an empty interior slot translates nothing new. */
  lemma AddTable(pages: map<int, Page>, use: map<int, Use>, tbl: map<Key, int>, k: Key, i: nat, a: int,
                 pages': map<int, Page>, use': map<int, Use>, tbl': map<Key, int>)
    requires TreeOk(pages, use, tbl) && PagesOk(pages)
    requires k in tbl && k.level > 0 && i < 512 && KeyOk(Child(k, i)) && Child(k, i) !in tbl
    requires KeyAt(k.root, k.level, Child(k, i).lo) == k
    requires a in pages && a in use && use[a] == Held
    requires pages[tbl[k]].Table? && |pages[tbl[k]].ptes| == 512
    requires pages' == pages[a := Table(ZEROS)][tbl[k] := Table(pages[tbl[k]].ptes[i := MakePte(a, 0)])]
    requires use' == use[a := TableOf(Child(k, i))]
    requires tbl' == tbl[Child(k, i) := a]
    ensures TreeOk(pages', use', tbl')
    ensures PagesOk(pages')
  {
    TableAt(pages, use, tbl, k);
    assert AddressOk(a) && a != tbl[k];
    assert pages' == pages[a := pages'[a]][tbl[k] := Table(pages[tbl[k]].ptes[i := MakePte(a, 0)])];
    assert IsZeroTable(pages'[a]);
    assert Adds(pages, use, tbl, k, i, a, pages', use', tbl') by { hide MakePte, IsZeroTable; }
    hide Adds, TableOk, PagesOk;
    AddedPages(pages, use, tbl, k, i, a, pages', use', tbl');
    forall h | h in tbl' ensures TableOk(pages', use', tbl', h) {
      AddedTable(pages, use, tbl, k, i, a, pages', use', tbl', h);
    }
  }

  /** Growing the tree by zeroed tables, with the old level-0 tables untouched, changes no translation. */
  lemma GrownSameWalks(pages: map<int, Page>, use: map<int, Use>, tbl: map<Key, int>,
                       pages': map<int, Page>, use': map<int, Use>, tbl': map<Key, int>)
    requires TreeOk(pages, use, tbl) && PagesOk(pages) && TreeOk(pages', use', tbl') && PagesOk(pages')
    requires forall h :: h in tbl ==> h in tbl' && tbl'[h] == tbl[h]
    requires forall h :: h in tbl && h.level == 0 ==>
      tbl[h] in pages && tbl[h] in pages' && pages'[tbl[h]] == pages[tbl[h]]
    requires forall h :: h in tbl' && h !in tbl ==> tbl'[h] in pages' && pages'[tbl'[h]] == Table(ZEROS)
    ensures SameWalks(pages, pages', tbl)
  {
    forall r, v: nat | RootKey(r) in tbl && v < VPN_MAX ensures Walk(pages', r, v) == Walk(pages, r, v) {
      SameLeafSlot(pages, use, tbl, pages', use', tbl', r, v);
    }
  }

  /** Storing a word through the pointer the walk yields changes exactly one translation. */
  lemma WriteLeaf(pages: map<int, Page>, use: map<int, Use>, tbl: map<Key, int>, root: int, vpn: nat, w: uint64,
                  pages': map<int, Page>)
    requires TreeOk(pages, use, tbl) && PagesOk(pages) && RootKey(root) in tbl && vpn < VPN_MAX
    requires var t := LeafTable(pages, root, vpn);
      && t in pages && pages[t].Table? && |pages[t].ptes| == 512
      && pages' == pages[t := Table(pages[t].ptes[Digit(vpn, 0) := w])]
    ensures PagesOk(pages')
    ensures TreeOk(pages', use, tbl)
    ensures OneWalk(pages, pages', tbl, root, vpn, w)
  {
    WriteLeafTables(pages, use, tbl, root, vpn, w, pages');
    hide TreeOk, PagesOk, LeafTable, Walk;
    WalkIsNamed(pages, use, tbl, root, vpn);
    NullIsNoPage(pages);
    var k := KeyAt(root, 0, vpn);
    forall r, v: nat | RootKey(r) in tbl && v < VPN_MAX
      ensures Walk(pages', r, v) == if r == root && v == vpn then w else Walk(pages, r, v)
    {
      if r == root && v == vpn {
        WrittenWord(pages, use, tbl, root, vpn, w, pages');
      } else {
        WriteLeafElsewhere(tbl[k], root, vpn, use, tbl, pages, pages', w, r, v);
      }
    }
  }

  lemma WriteLeafTables(pages: map<int, Page>, use: map<int, Use>, tbl: map<Key, int>, root: int, vpn: nat, w: uint64,
                        pages': map<int, Page>)
    requires TreeOk(pages, use, tbl) && PagesOk(pages) && RootKey(root) in tbl && vpn < VPN_MAX
    requires var t := LeafTable(pages, root, vpn);
      && t in pages && pages[t].Table? && |pages[t].ptes| == 512
      && pages' == pages[t := Table(pages[t].ptes[Digit(vpn, 0) := w])]
    ensures PagesOk(pages') && TreeOk(pages', use, tbl)
  {
    WalkIsNamed(pages, use, tbl, root, vpn);
    NullIsNoPage(pages);
    var k := KeyAt(root, 0, vpn);
    TableAt(pages, use, tbl, k);
    hide LeafTable;
    forall h | h in tbl ensures TableOk(pages', use, tbl, h) {
      TableAt(pages, use, tbl, h);
      if h.level > 0 {
        forall j | 0 <= j < 512 ensures SlotOk(pages', tbl, h, j) {
          assert SlotOk(pages, tbl, h, j);
        }
      }
    }
  }

  lemma WrittenWord(pages: map<int, Page>, use: map<int, Use>, tbl: map<Key, int>, root: int, vpn: nat, w: uint64,
                    pages': map<int, Page>)
    requires TreeOk(pages, use, tbl) && PagesOk(pages) && RootKey(root) in tbl && vpn < VPN_MAX
    requires TreeOk(pages', use, tbl) && PagesOk(pages')
    requires var t := LeafTable(pages, root, vpn);
      && t in pages && pages[t].Table? && |pages[t].ptes| == 512
      && pages' == pages[t := Table(pages[t].ptes[Digit(vpn, 0) := w])]
    ensures Walk(pages', root, vpn) == w
  {
    hide TreeOk, PagesOk, LeafTable;
    WalkIsNamed(pages, use, tbl, root, vpn);
    WalkIsNamed(pages', use, tbl, root, vpn);
    NullIsNoPage(pages);
  }

  lemma WriteLeafElsewhere(t: int, root: int, vpn: nat, use: map<int, Use>, tbl: map<Key, int>,
                           pages: map<int, Page>, pages': map<int, Page>, w: uint64, r: int, v: nat)
    requires TreeOk(pages, use, tbl) && PagesOk(pages) && TreeOk(pages', use, tbl) && PagesOk(pages')
    requires vpn < VPN_MAX && KeyAt(root, 0, vpn) in tbl && tbl[KeyAt(root, 0, vpn)] == t
    requires t in pages && pages[t].Table? && |pages[t].ptes| == 512
    requires pages' == pages[t := Table(pages[t].ptes[Digit(vpn, 0) := w])]
    requires RootKey(r) in tbl && v < VPN_MAX && !(r == root && v == vpn)
    ensures Walk(pages', r, v) == Walk(pages, r, v)
  {
    var k := KeyAt(r, 0, v);
    if k in tbl {
      if tbl[k] == t {
        TablesAreDistinct(pages, use, tbl, k, KeyAt(root, 0, vpn));
        assert v == v / 512 * 512 + Digit(v, 0) && vpn == vpn / 512 * 512 + Digit(vpn, 0);
      }
    }
    SameLeafSlot(pages, use, tbl, pages', use, tbl, r, v);
  }

  // ---------- vm_getpte ----------

  /** A pointer to a page-table entry; the two last forms stand for the kernel stopping. */
  datatype PteRef = Null | At(table: int, idx: nat) | OutOfRange | NoTablePage

  /** How many tables the walk for `vpn` lacks. */
  ghost function Missing(pages: map<int, Page>, root: int, vpn: nat): nat {
    if Below(pages, root, Digit(vpn, 2)) == 0 then 2 else if LeafTable(pages, root, vpn) == 0 then 1 else 0
  }

  /**
   * Only tables of `root` changed, and the tables it gained came from the
   * kernel pool; every other page kept its contents and its use.
   */
  ghost predicate Spread(pages: map<int, Page>, use: map<int, Use>, tbl: map<Key, int>,
                         pages': map<int, Page>, use': map<int, Use>, tbl': map<Key, int>, root: int) {
    && pages'.Keys == pages.Keys && use'.Keys == use.Keys
    && (forall k :: k in tbl ==> k in tbl' && tbl'[k] == tbl[k])
    && (forall k :: k in tbl' && k !in tbl ==> k.root == root && k.level < 2)
    && (forall a :: a in use ==>
          use'[a] == use[a] || (use[a] == Free(true) && use'[a].TableOf? && use'[a].key.root == root))
    && (forall a :: a in pages && a in use ==>
          pages'[a] == pages[a] || use[a] == Free(true) || (use[a].TableOf? && use[a].key.root == root))
  }

  /** The tree of `root` may have gained tables, and no translation changed. */
  ghost predicate Grown(pages: map<int, Page>, use: map<int, Use>, tbl: map<Key, int>,
                        pages': map<int, Page>, use': map<int, Use>, tbl': map<Key, int>, root: int) {
    SameWalks(pages, pages', tbl) && Spread(pages, use, tbl, pages', use', tbl', root)
  }

  lemma GrownByLink(pages: map<int, Page>, use: map<int, Use>, tbl: map<Key, int>, k: Key, c: Key, a: int,
                    pages': map<int, Page>, use': map<int, Use>, tbl': map<Key, int>)
    requires TreeOk(pages, use, tbl) && PagesOk(pages) && TreeOk(pages', use', tbl') && PagesOk(pages')
    requires k in tbl && k.level > 0 && c !in tbl && c.root == k.root && c.level < 2
    requires a in pages && a in use && use[a] == Held && use.Keys == pages.Keys
    requires pages'.Keys == pages.Keys && pages'[a] == Table(ZEROS)
    requires forall b :: b in pages && b != a && b != tbl[k] ==> pages'[b] == pages[b]
    requires use' == use[a := TableOf(c)]
    requires tbl' == tbl[c := a]
    ensures Grown(pages, use[a := Free(true)], tbl, pages', use', tbl', k.root)
  {
    hide TreeOk, TableOk, SameWalks;
    TableAt(pages, use, tbl, k);
    forall h | h in tbl && h.level == 0 ensures tbl[h] in pages && pages'[tbl[h]] == pages[tbl[h]] {
      TableApart(pages, use, tbl, k, h, a);
    }
    GrownSameWalks(pages, use, tbl, pages', use', tbl');
  }

  lemma PoolsBasics(pages: map<int, Page>, use: map<int, Use>, kern: Region, kfree: seq<int>, user: Region,
      ufree: seq<int>)
    requires PoolsOk(pages, use, kern, kfree, user, ufree)
    ensures PagesOk(pages) && use.Keys == pages.Keys
  {
  }

  lemma PageAt(pages: map<int, Page>, a: int)
    requires PagesOk(pages) && a in pages
    ensures AddressOk(a) && PageOk(pages[a])
  {
  }

  /** All that linking a held page as table `Child(k, i)` does. */
  lemma Linked(pages: map<int, Page>, use: map<int, Use>, tbl: map<Key, int>, k: Key, i: nat, a: int,
               pages': map<int, Page>, use': map<int, Use>, tbl': map<Key, int>,
               kern: Region, kfree: seq<int>, user: Region, ufree: seq<int>)
    requires PoolsOk(pages, use, kern, kfree, user, ufree)
    requires TreeOk(pages, use[a := Free(true)], tbl)
    requires k in tbl && k.level > 0 && i < 512 && KeyOk(Child(k, i)) && Child(k, i) !in tbl
    requires KeyAt(k.root, k.level, Child(k, i).lo) == k
    requires a in pages && use[a] == Held
    requires tbl[k] in pages && pages[tbl[k]].Table? && |pages[tbl[k]].ptes| == 512
    requires pages' == pages[a := Table(ZEROS)][tbl[k] := Table(pages[tbl[k]].ptes[i := MakePte(a, 0)])]
    requires use' == use[a := TableOf(Child(k, i))]
    requires tbl' == tbl[Child(k, i) := a]
    ensures PoolsOk(pages', use', kern, kfree, user, ufree)
    ensures TreeOk(pages', use', tbl')
    ensures Grown(pages, use[a := Free(true)], tbl, pages', use', tbl', k.root)
  {
    hide SlotOk, TableOk, KeyAt, TreeOk, Grown, PoolsOk, MakePte;
    TableAt(pages, use[a := Free(true)], tbl, k);
    PoolsBasics(pages, use, kern, kfree, user, ufree);
    OtherPagesKeep(pages, pages, use[a := Free(true)], use, tbl);
    AddTable(pages, use, tbl, k, i, a, pages', use', tbl');
    GrownByLink(pages, use, tbl, k, Child(k, i), a, pages', use', tbl');
    OwnedPagesChange(pages, use, pages', use', kern, kfree, user, ufree);
  }

  /**
   * The allocating branch of vm_getpte: a page from the kernel pool is zeroed
   * and linked into slot `i` of table `k`. 0 stands for the NULL that the
   * code goes on to clear.
   */
  method LinkTable(m: Memory, ghost k: Key, pgtbl: int, i: nat) returns (page: int)
    requires Ok(m) && k in m.tbl && m.tbl[k] == pgtbl
    requires k.level > 0 && i < 512 && KeyOk(Child(k, i)) && Child(k, i) !in m.tbl
    requires KeyAt(k.root, k.level, Child(k, i).lo) == k
    modifies m
    ensures Ok(m)
    ensures page == 0 <==> old(m.kern).allocable == 0
    ensures page == 0 ==> unchanged(m)
    ensures page != 0 ==> m.tbl == old(m.tbl)[Child(k, i) := page]
    ensures page != 0 ==> m.kern.allocable == old(m.kern).allocable - 1
    ensures Grown(old(m.pages), old(m.use), old(m.tbl), m.pages, m.use, m.tbl, k.root)
    ensures m.user == old(m.user) && m.ufree == old(m.ufree)
  {
    hide PoolsOk, TreeOk, Grown, KeyAt, Child, TableOk, PagesOk, MakePte;
    TableAt(m.pages, m.use, m.tbl, k);
    PoolsBasics(m.pages, m.use, m.kern, m.kfree, m.user, m.ufree);
    PageAt(m.pages, pgtbl);
    GrownRefl(m.pages, m.use, m.tbl, k.root);
    page := m.Alloc(true);
    if page == 0 {
      return;
    }
    PoolsBasics(m.pages, m.use, m.kern, m.kfree, m.user, m.ufree);
    PageAt(m.pages, page);
    ghost var u0 := m.use;
    assert u0[page := Free(true)] == old(m.use);
    ghost var c := Child(k, i);
    m.pages := m.pages[page := Table(ZEROS)][pgtbl := Table(m.pages[pgtbl].ptes[i := MakePte(page, 0)])];
    m.use := u0[page := TableOf(c)];
    m.tbl := m.tbl[c := page];
    Linked(old(m.pages), u0, old(m.tbl), k, i, page, m.pages, m.use, m.tbl, m.kern, m.kfree, m.user, m.ufree);
  }

  lemma SpreadTrans(p0: map<int, Page>, u0: map<int, Use>, t0: map<Key, int>,
                    p1: map<int, Page>, u1: map<int, Use>, t1: map<Key, int>,
                    p2: map<int, Page>, u2: map<int, Use>, t2: map<Key, int>, root: int)
    requires Spread(p0, u0, t0, p1, u1, t1, root) && Spread(p1, u1, t1, p2, u2, t2, root)
    ensures Spread(p0, u0, t0, p2, u2, t2, root)
  {
  }

  lemma GrownTrans(p0: map<int, Page>, u0: map<int, Use>, t0: map<Key, int>,
                   p1: map<int, Page>, u1: map<int, Use>, t1: map<Key, int>,
                   p2: map<int, Page>, u2: map<int, Use>, t2: map<Key, int>, root: int)
    requires Grown(p0, u0, t0, p1, u1, t1, root) && Grown(p1, u1, t1, p2, u2, t2, root)
    ensures Grown(p0, u0, t0, p2, u2, t2, root)
  {
    forall r, v: nat | RootKey(r) in t0 && v < VPN_MAX ensures Walk(p2, r, v) == Walk(p0, r, v) {
      assert Walk(p1, r, v) == Walk(p0, r, v);
    }
    SpreadTrans(p0, u0, t0, p1, u1, t1, p2, u2, t2, root);
  }

  /** How many of the tables below the root on the way to `vpn` are absent. */
  ghost function Absent(tbl: map<Key, int>, root: int, vpn: nat): nat
    requires vpn < VPN_MAX
  {
    (if KeyAt(root, 1, vpn) in tbl then 0 else 1) + (if KeyAt(root, 0, vpn) in tbl then 0 else 1)
  }

  /** Making the table of `level` counts one down; when one is missing there is one to make. */
  lemma AbsentStep(tbl: map<Key, int>, root: int, vpn: nat, level: nat, page: int)
    requires vpn < VPN_MAX && level < 2 && KeyAt(root, level, vpn) !in tbl
    ensures Absent(tbl, root, vpn) > 0
    ensures Absent(tbl[KeyAt(root, level, vpn) := page], root, vpn) == Absent(tbl, root, vpn) - 1
  {
  }

  lemma MissingIsAbsent(pages: map<int, Page>, use: map<int, Use>, tbl: map<Key, int>, root: int, vpn: nat)
    requires TreeOk(pages, use, tbl) && PagesOk(pages) && RootKey(root) in tbl && vpn < VPN_MAX
    ensures Missing(pages, root, vpn) == Absent(tbl, root, vpn)
  {
    WalkIsNamed(pages, use, tbl, root, vpn);
    NullIsNoPage(pages);
    if KeyAt(root, 1, vpn) in tbl { assert TableOk(pages, use, tbl, KeyAt(root, 1, vpn)); }
    if KeyAt(root, 0, vpn) in tbl { assert TableOk(pages, use, tbl, KeyAt(root, 0, vpn)); }
  }

  lemma LeafTableFound(pages: map<int, Page>, use: map<int, Use>, tbl: map<Key, int>, root: int, vpn: nat)
    requires TreeOk(pages, use, tbl) && PagesOk(pages) && vpn < VPN_MAX
    requires RootKey(root) in tbl && KeyAt(root, 0, vpn) in tbl
    ensures LeafTable(pages, root, vpn) == tbl[KeyAt(root, 0, vpn)]
    ensures tbl[KeyAt(root, 0, vpn)] in pages && pages[tbl[KeyAt(root, 0, vpn)]].Table?
    ensures Absent(tbl, root, vpn) == 0
  {
    WalkIsNamed(pages, use, tbl, root, vpn);
    assert TableOk(pages, use, tbl, KeyAt(root, 0, vpn));
  }

  /** One round of the loop of vm_getpte, when the entry is valid: the named child is where it points. */
  lemma Descend(pages: map<int, Page>, use: map<int, Use>, tbl: map<Key, int>, root: int, level: nat, vpn: nat)
    requires TreeOk(pages, use, tbl) && 1 <= level <= 2 && vpn < VPN_MAX && KeyAt(root, level, vpn) in tbl
    ensures var k := KeyAt(root, level, vpn);
      var i := Digit(vpn, level);
      && tbl[k] in pages && pages[tbl[k]].Table?
      && Child(k, i) == KeyAt(root, level - 1, vpn)
      && KeyAt(root, level, Child(k, i).lo) == k
      && Below(pages, tbl[k], i) == (if Child(k, i) in tbl then tbl[Child(k, i)] else 0)
      && (IsValid(Slot(pages, tbl[k], i)) <==> Child(k, i) in tbl)
  {
    var k := KeyAt(root, level, vpn);
    ChildAt(root, level, vpn);
    assert TableOk(pages, use, tbl, k) && SlotOk(pages, tbl, k, Digit(vpn, level));
    ChildIs(k, Digit(vpn, level), KeyAt(root, level - 1, vpn));
  }

  /** One round of the loop of vm_getpte with `alloc` set: the table below `pgtbl`, or 0 when none can be made. */
  method StepDown(m: Memory, root: int, va: nat, level: nat, pgtbl: int, ghost vpn: nat) returns (next: int)
    requires Ok(m) && va / 4096 == vpn && va < VA_MAX && 1 <= level <= 2
    requires KeyAt(root, level, vpn) in m.tbl && m.tbl[KeyAt(root, level, vpn)] == pgtbl
    modifies m
    ensures Ok(m)
    ensures next == 0 ==> unchanged(m)
    ensures m.user == old(m.user) && m.ufree == old(m.ufree)
    ensures Grown(old(m.pages), old(m.use), old(m.tbl), m.pages, m.use, m.tbl, root)
    ensures var c := KeyAt(root, level - 1, vpn);
      && (next == 0 ==> c !in m.tbl && m.kern.allocable == 0)
      && (next != 0 ==> c in m.tbl && m.tbl[c] == next)
      && (c in old(m.tbl) ==> m.tbl == old(m.tbl) && m.kern == old(m.kern))
      && (c !in old(m.tbl) && next != 0 ==>
            m.tbl == old(m.tbl)[c := next] && m.kern.allocable == old(m.kern).allocable - 1)
  {
    VaDigits(va);
    var idx := VaToVpn(va, level);
    Descend(m.pages, m.use, m.tbl, root, level, vpn);
    assert PageOk(m.pages[pgtbl]);
    var pte := m.pages[pgtbl].ptes[idx];
    if IsValid(pte) {
      next := PteToPa(pte);
      assert AddressOk(next) by { assert TableOk(m.pages, m.use, m.tbl, KeyAt(root, level - 1, vpn)); }
    } else {
      next := LinkTable(m, KeyAt(root, level, vpn), pgtbl, idx);
    }
  }

  /**
   * vm_getpte with `alloc` set. It makes the missing tables, changes no
   * translation, and fails exactly when the kernel pool has too few pages.
   */
  method VmGetPte(m: Memory, root: int, va: nat) returns (r: PteRef)
    requires Ok(m) && RootKey(root) in m.tbl
    modifies m
    ensures Ok(m)
    ensures r == OutOfRange <==> va >= VA_MAX
    ensures r == OutOfRange ==> unchanged(m)
    ensures r != Null
    ensures m.user == old(m.user) && m.ufree == old(m.ufree)
    ensures Grown(old(m.pages), old(m.use), old(m.tbl), m.pages, m.use, m.tbl, root)
    ensures r.At? ==> r == At(LeafTable(m.pages, root, va / 4096), Digit(va / 4096, 0)) && r.table in m.pages
    ensures r == NoTablePage ==> m.kern.allocable == 0
    ensures r == NoTablePage ==> old(m.kern).allocable < Missing(old(m.pages), root, va / 4096)
    ensures r.At? ==> m.kern.allocable == old(m.kern).allocable - Missing(old(m.pages), root, va / 4096)
  {
    if va >= VA_MAX {
      assert Grown(m.pages, m.use, m.tbl, m.pages, m.use, m.tbl, root);
      return OutOfRange;
    }
    ghost var vpn := va / 4096;
    MissingIsAbsent(m.pages, m.use, m.tbl, root, vpn);
    r := WalkAlloc(m, root, va, vpn, m.pages, m.use, m.tbl);
    assert Digit(vpn, 0) == VaToVpn(va, 0) by { VaDigits(va); }
  }

  lemma RootIs(pages: map<int, Page>, use: map<int, Use>, tbl: map<Key, int>, root: int)
    requires TreeOk(pages, use, tbl) && RootKey(root) in tbl
    ensures tbl[RootKey(root)] == root && KeyAt(root, 2, 0) == RootKey(root)
  {
    assert TableOk(pages, use, tbl, RootKey(root));
  }

  /** The loop of vm_getpte with `alloc` set. */
  method WalkAlloc(m: Memory, root: int, va: nat, ghost vpn: nat,
                   ghost p0: map<int, Page>, ghost u0: map<int, Use>, ghost t0: map<Key, int>) returns (r: PteRef)
    requires Ok(m) && p0 == m.pages && u0 == m.use && t0 == m.tbl && RootKey(root) in t0
    requires va / 4096 == vpn && va < VA_MAX
    modifies m
    ensures Ok(m)
    ensures r == NoTablePage || (r == At(LeafTable(m.pages, root, vpn), VaToVpn(va, 0)) && r.table in m.pages)
    ensures m.user == old(m.user) && m.ufree == old(m.ufree)
    ensures Grown(p0, u0, t0, m.pages, m.use, m.tbl, root)
    ensures r == NoTablePage ==> m.kern.allocable == 0 && old(m.kern).allocable < Absent(t0, root, vpn)
    ensures r != NoTablePage ==> m.kern.allocable == old(m.kern).allocable - Absent(t0, root, vpn)
  {
    hide PoolsOk, TreeOk, Grown, Digit, LeafTable, TableOk;
    var pgtbl := root;
    var level := 2;
    RootIs(p0, u0, t0, root);
    GrownRefl(p0, u0, t0, root);
    while level > 0
      invariant level <= 2
      invariant Ok(m) && RootKey(root) in m.tbl
      invariant KeyAt(root, level, vpn) in m.tbl && m.tbl[KeyAt(root, level, vpn)] == pgtbl
      invariant m.user == old(m.user) && m.ufree == old(m.ufree)
      invariant Grown(p0, u0, t0, m.pages, m.use, m.tbl, root)
      invariant m.kern.allocable - Absent(m.tbl, root, vpn) == old(m.kern).allocable - Absent(t0, root, vpn)
    {
      ghost var p1, u1, t1 := m.pages, m.use, m.tbl;
      var next := StepDown(m, root, va, level, pgtbl, vpn);
      if KeyAt(root, level - 1, vpn) !in t1 {
        AbsentStep(t1, root, vpn, level - 1, next);
      }
      GrownTrans(p0, u0, t0, p1, u1, t1, m.pages, m.use, m.tbl, root);
      if next == 0 {
        return NoTablePage;
      }
      pgtbl := next;
      level := level - 1;
    }
    PoolsBasics(m.pages, m.use, m.kern, m.kfree, m.user, m.ufree);
    LeafTableFound(m.pages, m.use, m.tbl, root, vpn);
    return At(pgtbl, VaToVpn(va, 0));
  }

  lemma GrownRefl(pages: map<int, Page>, use: map<int, Use>, tbl: map<Key, int>, root: int)
    ensures Grown(pages, use, tbl, pages, use, tbl, root)
  {
  }

  /** vm_getpte without `alloc`, together with the word that the pointer leads to (0 for NULL). */
  method LookUp(m: Memory, root: int, va: nat) returns (r: PteRef, w: uint64)
    requires Ok(m) && RootKey(root) in m.tbl
    ensures r == OutOfRange <==> va >= VA_MAX
    ensures r.At? || r == Null || r == OutOfRange
    ensures va < VA_MAX ==> w == Walk(m.pages, root, va / 4096)
    ensures r == Null ==> w == 0
    ensures r == Null ==> LeafTable(m.pages, root, va / 4096) == 0
    ensures r.At? ==> r == At(LeafTable(m.pages, root, va / 4096), Digit(va / 4096, 0)) && r.table in m.pages
  {
    if va >= VA_MAX {
      return OutOfRange, 0;
    }
    ghost var vpn := va / 4096;
    VaDigits(va);
    WalkIsNamed(m.pages, m.use, m.tbl, root, vpn);
    NullIsNoPage(m.pages);
    var pgtbl := root;
    var level := 2;
    assert m.tbl[RootKey(root)] == root by { assert TableOk(m.pages, m.use, m.tbl, RootKey(root)); }
    while level > 0
      invariant level <= 2
      invariant KeyAt(root, level, vpn) in m.tbl && m.tbl[KeyAt(root, level, vpn)] == pgtbl
    {
      Descend(m.pages, m.use, m.tbl, root, level, vpn);
      assert PageOk(m.pages[pgtbl]);
      var pte := m.pages[pgtbl].ptes[VaToVpn(va, level)];
      if !IsValid(pte) {
        return Null, 0;
      }
      pgtbl := PteToPa(pte);
      level := level - 1;
    }
    LeafTableFound(m.pages, m.use, m.tbl, root, vpn);
    assert PageOk(m.pages[pgtbl]);
    return At(pgtbl, VaToVpn(va, 0)), m.pages[pgtbl].ptes[VaToVpn(va, 0)];
  }

  // ---------- vm_mappages and vm_unmappages ----------

  /** Number of pages the loops of mappages and unmappages visit. */
  function PageCount(len: nat): nat {
    (len + 4096 - 1) / 4096
  }

  /** A store through a pointer that vm_getpte returned. */
  method WritePte(m: Memory, root: int, ghost vpn: nat, r: PteRef, w: uint64)
    requires Ok(m) && RootKey(root) in m.tbl && vpn < VPN_MAX
    requires r == At(LeafTable(m.pages, root, vpn), Digit(vpn, 0)) && r.table in m.pages
    modifies m`pages
    ensures Ok(m)
    ensures OneWalk(old(m.pages), m.pages, m.tbl, root, vpn, w)
    ensures Spread(old(m.pages), m.use, m.tbl, m.pages, m.use, m.tbl, root)
    ensures forall a :: a in m.pages && a in m.use && !(m.use[a].TableOf? && m.use[a].key.root == root) ==>
      m.pages[a] == old(m.pages)[a]
  {
    WalkIsNamed(m.pages, m.use, m.tbl, root, vpn);
    NullIsNoPage(m.pages);
    assert TableOk(m.pages, m.use, m.tbl, KeyAt(root, 0, vpn));
    assert PageOk(m.pages[r.table]);
    ghost var p0 := m.pages;
    m.pages := m.pages[r.table := Table(m.pages[r.table].ptes[r.idx := w])];
    WriteLeaf(p0, m.use, m.tbl, root, vpn, w, m.pages);
    OwnedPagesChange(p0, m.use, m.pages, m.use, m.kern, m.kfree, m.user, m.ufree);
  }

  /** The page index range [first, first + n) of `root` maps to consecutive frames from `pa`; the rest is as before. */
  ghost predicate Mapped(pages: map<int, Page>, pages': map<int, Page>, tbl: map<Key, int>,
                         root: int, first: nat, n: nat, pa: nat, perm: nat)
    requires perm < 1024 && pa + n * 4096 <= TWO64
  {
    forall r, v: nat :: RootKey(r) in tbl && v < VPN_MAX ==>
      Walk(pages', r, v) ==
        if r == root && first <= v < first + n then MakePte(pa + (v - first) * 4096, perm) else Walk(pages, r, v)
  }

  /** The body of the loop of vm_mappages. */
  method VmMapPage(m: Memory, root: int, va: nat, pa: uint64, perm: nat) returns (ok: bool)
    requires Ok(m) && RootKey(root) in m.tbl && perm < 1024
    modifies m
    ensures Ok(m)
    ensures m.user == old(m.user) && m.ufree == old(m.ufree)
    ensures Spread(old(m.pages), old(m.use), old(m.tbl), m.pages, m.use, m.tbl, root)
    ensures ok ==> va < VA_MAX && OneWalk(old(m.pages), m.pages, old(m.tbl), root, va / 4096, MakePte(pa, perm))
    ensures !ok ==> m.kern.allocable == 0 || va >= VA_MAX
    ensures va < VA_MAX && old(m.kern).allocable >= 2 ==> ok
    ensures m.kern.allocable >= old(m.kern).allocable - 2
    ensures !ok ==> SameWalks(old(m.pages), m.pages, old(m.tbl))
    ensures forall k :: k in old(m.tbl) ==> k in m.tbl
  {
    hide PoolsOk, TreeOk, Walk, Spread, OneWalk, SameWalks, LeafTable, MakePte;
    var pte := VmGetPte(m, root, va);
    SpreadKeys(old(m.pages), old(m.use), old(m.tbl), m.pages, m.use, m.tbl, root);
    if !pte.At? {
      return false;
    }
    ghost var p1, u1, t1 := m.pages, m.use, m.tbl;
    WritePte(m, root, va / 4096, pte, MakePte(pa, perm));
    GrowThenWrite(old(m.pages), p1, m.pages, old(m.tbl), t1, root, va / 4096, MakePte(pa, perm));
    SpreadTrans(old(m.pages), old(m.use), old(m.tbl), p1, u1, t1, m.pages, m.use, m.tbl, root);
    return true;
  }

  lemma SpreadKeys(p0: map<int, Page>, u0: map<int, Use>, t0: map<Key, int>,
                   p1: map<int, Page>, u1: map<int, Use>, t1: map<Key, int>, root: int)
    requires Spread(p0, u0, t0, p1, u1, t1, root)
    ensures forall k :: k in t0 ==> k in t1 && t1[k] == t0[k]
  {
  }

  lemma GrowThenWrite(p0: map<int, Page>, p1: map<int, Page>, p2: map<int, Page>, t0: map<Key, int>, t1: map<Key, int>,
                      root: int, vpn: nat, w: uint64)
    requires SameWalks(p0, p1, t0) && OneWalk(p1, p2, t1, root, vpn, w)
    requires forall k :: k in t0 ==> k in t1
    ensures OneWalk(p0, p2, t0, root, vpn, w)
  {
    forall r, v: nat | RootKey(r) in t0 && v < VPN_MAX
      ensures Walk(p2, r, v) == if r == root && v == vpn then w else Walk(p0, r, v)
    {
      assert Walk(p1, r, v) == Walk(p0, r, v);
    }
  }

  lemma PageStep(va: nat, len: nat, n: nat)
    ensures va + n * 4096 < va + len <==> n < PageCount(len)
    ensures (va + n * 4096) / 4096 == va / 4096 + n
  {
  }

  /** vm_mappages. It stops early only when an address is out of range or the kernel pool is empty. */
  method VmMapPages(m: Memory, root: int, va: nat, pa: nat, len: nat, perm: nat) returns (ok: bool)
    requires Ok(m) && RootKey(root) in m.tbl
    requires perm < 1024 && va + len < TWO64 && pa + PageCount(len) * 4096 <= TWO64
    modifies m
    ensures Ok(m)
    ensures m.user == old(m.user) && m.ufree == old(m.ufree)
    ensures Spread(old(m.pages), old(m.use), old(m.tbl), m.pages, m.use, m.tbl, root)
    ensures ok ==> Mapped(old(m.pages), m.pages, old(m.tbl), root, va / 4096, PageCount(len), pa, perm)
    ensures ok ==> MapsRange(old(m.pages), m.pages, old(m.tbl), root, va, len, pa, perm)
    ensures va + len <= VA_MAX && old(m.kern).allocable >= 2 * PageCount(len) ==> ok
    ensures !ok ==> m.kern.allocable == 0 || va + len > VA_MAX
  {
    hide Ok, Mapped, MapsRange, Walk, Spread, PageCount;
    ok := MapLoop(m, root, va, pa, len, perm, m.pages, m.use, m.tbl);
    if ok { MappedRange(old(m.pages), m.pages, old(m.tbl), root, va, len, pa, perm); }
  }

  /**
   * Every page that begins at a distance below `len` from the page of `va` is
   * mapped to the frame at that distance from `pa`; the rest is as before.
   */
  ghost predicate MapsRange(pages: map<int, Page>, pages': map<int, Page>, tbl: map<Key, int>,
                            root: int, va: nat, len: nat, pa: nat, perm: nat)
    requires perm < 1024
  {
    forall r, v: nat :: RootKey(r) in tbl && v < VPN_MAX ==>
      if r == root && 0 <= (v - va / 4096) * 4096 < len then LeadsTo(Walk(pages', r, v), va, v, pa, perm)
      else Walk(pages', r, v) == Walk(pages, r, v)
  }

  ghost predicate LeadsTo(w: uint64, va: nat, v: nat, pa: nat, perm: nat)
    requires perm < 1024
  {
    var frame := pa + (v - va / 4096) * 4096;
    0 <= frame < TWO64 && w == MakePte(frame, perm)
  }

  lemma MappedRange(pages: map<int, Page>, pages': map<int, Page>, tbl: map<Key, int>,
                    root: int, va: nat, len: nat, pa: nat, perm: nat)
    requires perm < 1024 && pa + PageCount(len) * 4096 <= TWO64
    requires Mapped(pages, pages', tbl, root, va / 4096, PageCount(len), pa, perm)
    ensures MapsRange(pages, pages', tbl, root, va, len, pa, perm)
  {
    hide Walk, MakePte, PageCount;
    forall r, v: nat | RootKey(r) in tbl && v < VPN_MAX
      ensures if r == root && 0 <= (v - va / 4096) * 4096 < len then LeadsTo(Walk(pages', r, v), va, v, pa, perm)
              else Walk(pages', r, v) == Walk(pages, r, v)
    {
      InPages(len, v - va / 4096);
    }
  }

  /** The pages visited are those that begin in the range. */
  lemma InPages(len: nat, n: int)
    ensures 0 <= n * 4096 < len <==> 0 <= n < PageCount(len)
  {
  }

  /** Its loop, with the state at the start named. */
  method MapLoop(m: Memory, root: int, va: nat, pa: nat, len: nat, perm: nat,
                 ghost p0: map<int, Page>, ghost u0: map<int, Use>, ghost t0: map<Key, int>) returns (ok: bool)
    requires Ok(m) && RootKey(root) in t0 && p0 == m.pages && u0 == m.use && t0 == m.tbl
    requires perm < 1024 && va + len < TWO64 && pa + PageCount(len) * 4096 <= TWO64
    modifies m
    ensures Ok(m) && m.user == old(m.user) && m.ufree == old(m.ufree)
    ensures Spread(p0, u0, t0, m.pages, m.use, m.tbl, root)
    ensures ok ==> Mapped(p0, m.pages, t0, root, va / 4096, PageCount(len), pa, perm)
    ensures va + len <= VA_MAX && old(m.kern).allocable >= 2 * PageCount(len) ==> ok
    ensures !ok ==> m.kern.allocable == 0 || va + len > VA_MAX
  {
    hide PoolsOk, TreeOk, Walk, Mapped, Spread, PageCount, MapState;
    var start, end := va, va + len;
    var at := pa;
    ghost var n, count, first := 0, PageCount(len), va / 4096;
    MappedNothing(p0, u0, t0, root, first, pa, perm);
    MapMeans(p0, u0, t0, m.pages, m.use, m.tbl, root, first, 0, pa, perm);
    PageStep(va, len, 0);
    while start < end
      invariant start == va + n * 4096 && at == pa + n * 4096 && n <= count
      invariant start < end <==> n < count
      invariant start / 4096 == first + n
      invariant Ok(m) && m.user == old(m.user) && m.ufree == old(m.ufree)
      invariant MapState(p0, u0, t0, m.pages, m.use, m.tbl, root, first, n, pa, perm)
      invariant m.kern.allocable >= old(m.kern).allocable - 2 * n
      decreases end - start
    {
      ok := MapRound(m, root, start, at, perm, p0, u0, t0, first, n, pa);
      if !ok {
        return false;
      }
      start, at, n := start + 4096, at + 4096, n + 1;
      PageStep(va, len, n);
    }
    MapMeans(p0, u0, t0, m.pages, m.use, m.tbl, root, first, n, pa, perm);
    return true;
  }

  /** What `n` rounds of the loop have done. */
  ghost predicate MapState(p0: map<int, Page>, u0: map<int, Use>, t0: map<Key, int>,
                           p1: map<int, Page>, u1: map<int, Use>, t1: map<Key, int>,
                           root: int, first: nat, n: nat, pa: nat, perm: nat) {
    && perm < 1024 && pa + n * 4096 <= TWO64
    && Spread(p0, u0, t0, p1, u1, t1, root) && Mapped(p0, p1, t0, root, first, n, pa, perm)
    && RootKey(root) in t1 && (forall k :: k in t0 ==> k in t1)
  }

  lemma MapMeans(p0: map<int, Page>, u0: map<int, Use>, t0: map<Key, int>,
                 p1: map<int, Page>, u1: map<int, Use>, t1: map<Key, int>,
                 root: int, first: nat, n: nat, pa: nat, perm: nat)
    requires MapState(p0, u0, t0, p1, u1, t1, root, first, n, pa, perm)
    ensures perm < 1024 && pa + n * 4096 <= TWO64
    ensures Spread(p0, u0, t0, p1, u1, t1, root) && Mapped(p0, p1, t0, root, first, n, pa, perm)
  {
  }

  lemma MappedNothing(p: map<int, Page>, u: map<int, Use>, t: map<Key, int>, root: int, first: nat, pa: nat, perm: nat)
    requires perm < 1024 && pa <= TWO64 && RootKey(root) in t
    ensures MapState(p, u, t, p, u, t, root, first, 0, pa, perm)
  {
    hide Walk;
  }

  /** One round of the loop. */
  method MapRound(m: Memory, root: int, start: nat, at: nat, perm: nat,
                  ghost p0: map<int, Page>, ghost u0: map<int, Use>, ghost t0: map<Key, int>,
                  ghost first: nat, ghost n: nat, ghost pa: nat) returns (ok: bool)
    requires Ok(m) && MapState(p0, u0, t0, m.pages, m.use, m.tbl, root, first, n, pa, perm)
    requires at == pa + n * 4096 && pa + (n + 1) * 4096 <= TWO64 && start / 4096 == first + n
    modifies m
    ensures Ok(m) && m.user == old(m.user) && m.ufree == old(m.ufree)
    ensures ok ==> MapState(p0, u0, t0, m.pages, m.use, m.tbl, root, first, n + 1, pa, perm)
    ensures Spread(p0, u0, t0, m.pages, m.use, m.tbl, root)
    ensures !ok ==> m.kern.allocable == 0 || start >= VA_MAX
    ensures start < VA_MAX && old(m.kern).allocable >= 2 ==> ok
    ensures m.kern.allocable >= old(m.kern).allocable - 2
  {
    hide Mapped, Walk, OneWalk, Spread, SameWalks, PoolsOk, TreeOk, MakePte;
    ghost var p1, u1, t1 := m.pages, m.use, m.tbl;
    ok := VmMapPage(m, root, start, at, perm);
    SpreadTrans(p0, u0, t0, p1, u1, t1, m.pages, m.use, m.tbl, root);
    if ok {
      VpnInRange(start, first + n);
      MapOneMore(p0, p1, m.pages, t0, t1, root, first, n, pa, perm, start / 4096, at);
    }
  }

  lemma VpnInRange(va: nat, v: nat)
    requires va / 4096 == v && va < VA_MAX
    ensures v < VPN_MAX
  {
  }

  lemma MapOneMore(p: map<int, Page>, p0: map<int, Page>, p1: map<int, Page>,
                   tbl: map<Key, int>, tbl': map<Key, int>, root: int, first: nat, n: nat, pa: nat, perm: nat,
                   v: nat, frame: uint64)
    requires perm < 1024 && pa + (n + 1) * 4096 <= TWO64 && v == first + n < VPN_MAX && frame == pa + n * 4096
    requires forall k :: k in tbl ==> k in tbl'
    requires Mapped(p, p0, tbl, root, first, n, pa, perm)
    requires OneWalk(p0, p1, tbl', root, v, MakePte(frame, perm))
    ensures Mapped(p, p1, tbl, root, first, n + 1, pa, perm)
  {
    forall r, u: nat | RootKey(r) in tbl && u < VPN_MAX
      ensures Walk(p1, r, u) ==
        if r == root && first <= u < first + n + 1 then MakePte(pa + (u - first) * 4096, perm) else Walk(p, r, u)
    {
      assert Walk(p1, r, u) == if r == root && u == v then MakePte(frame, perm) else Walk(p0, r, u);
    }
  }

  /** The page index range [first, first + n) of `root` is empty; the rest is as before. */
  ghost predicate Unmapped(pages: map<int, Page>, pages': map<int, Page>, tbl: map<Key, int>, root: int, first: nat,
      n: nat) {
    forall r, v: nat :: RootKey(r) in tbl && v < VPN_MAX ==>
      Walk(pages', r, v) == if r == root && first <= v < first + n then 0 else Walk(pages, r, v)
  }

  lemma UnmapOneMore(p: map<int, Page>, p0: map<int, Page>, p1: map<int, Page>, tbl: map<Key, int>,
                     root: int, first: nat, n: nat, v: nat)
    requires Unmapped(p, p0, tbl, root, first, n) && OneWalk(p0, p1, tbl, root, v, 0) && v == first + n
    ensures Unmapped(p, p1, tbl, root, first, n + 1)
  {
  }

  /** What `n` rounds of the loop have done: that many pages were mapped and are not any more. */
  ghost predicate UnmapState(p0: map<int, Page>, p1: map<int, Page>, tbl: map<Key, int>, root: int, first: nat,
      n: nat) {
    && RootKey(root) in tbl && Unmapped(p0, p1, tbl, root, first, n)
    && forall v: nat :: first <= v < first + n ==> IsValid(Walk(p0, root, v))
  }

  lemma UnmapMeans(p0: map<int, Page>, p1: map<int, Page>, tbl: map<Key, int>, root: int, first: nat, n: nat)
    requires UnmapState(p0, p1, tbl, root, first, n)
    ensures RootKey(root) in tbl && Unmapped(p0, p1, tbl, root, first, n)
    ensures forall v: nat :: first <= v < first + n ==> IsValid(Walk(p0, root, v))
  {
  }

  lemma UnmappedNothing(p: map<int, Page>, tbl: map<Key, int>, root: int, first: nat)
    requires RootKey(root) in tbl
    ensures UnmapState(p, p, tbl, root, first, 0)
  {
    hide Walk;
  }

  /** One round of the loop of vm_unmappages. */
  method UnmapRound(m: Memory, root: int, start: nat, ghost first: nat, ghost n: nat, ghost p0: map<int, Page>)
      returns (ok: bool)
    requires Ok(m) && start < VA_MAX && start / 4096 == first + n && UnmapState(p0, m.pages, m.tbl, root, first, n)
    modifies m`pages
    ensures Ok(m)
    ensures ok <==> IsValid(Walk(p0, root, first + n))
    ensures UnmapState(p0, m.pages, m.tbl, root, first, if ok then n + 1 else n)
  {
    hide PoolsOk, TreeOk, Walk, OneWalk, Spread, LeafTable, IsValid, Unmapped;
    ghost var p1 := m.pages;
    var pte, w := LookUp(m, root, start);
    VpnInRange(start, first + n);
    NotYetUnmapped(p0, p1, m.tbl, root, first, n);
    if pte == Null || !IsValid(w) {
      ZeroWord();
      return false;
    }
    WritePte(m, root, start / 4096, pte, 0);
    UnmapOneMore(p0, p1, m.pages, m.tbl, root, first, n, start / 4096);
    ok := true;
  }

  lemma ZeroWord()
    ensures !IsValid(0)
  {
  }

  lemma NotYetUnmapped(p: map<int, Page>, p': map<int, Page>, tbl: map<Key, int>, root: int, first: nat, n: nat)
    requires Unmapped(p, p', tbl, root, first, n) && RootKey(root) in tbl && first + n < VPN_MAX
    ensures Walk(p', root, first + n) == Walk(p, root, first + n)
  {
  }

  lemma UnmappedIs(p: map<int, Page>, p': map<int, Page>, tbl: map<Key, int>, root: int, first: nat, n: nat, len: nat)
    requires UnmapState(p, p', tbl, root, first, n) && n == PageCount(len)
    ensures forall r, v: nat :: RootKey(r) in tbl && v < VPN_MAX ==>
      Walk(p', r, v) == if r == root && 0 <= (v - first) * 4096 < len then 0 else Walk(p, r, v)
    ensures forall v: nat :: 0 <= (v - first) * 4096 < len ==> IsValid(Walk(p, root, v))
  {
    hide Walk, IsValid, PageCount;
    forall r, v: nat | RootKey(r) in tbl && v < VPN_MAX
      ensures Walk(p', r, v) == if r == root && 0 <= (v - first) * 4096 < len then 0 else Walk(p, r, v)
    {
      InPages(len, v - first);
    }
    forall v: nat | 0 <= (v - first) * 4096 < len ensures IsValid(Walk(p, root, v)) {
      InPages(len, v - first);
    }
  }

  /**
   * vm_unmappages without `freeit`: it clears the whole range when every page
   * of it is mapped, and panics at the first page that is not.
   */
  method VmUnmapPages(m: Memory, root: int, va: nat, len: nat, ghost p0: map<int, Page>)
      returns (ok: bool, ghost n: nat)
    requires Ok(m) && RootKey(root) in m.tbl && p0 == m.pages && va + len <= VA_MAX
    modifies m`pages
    ensures Ok(m) && n <= PageCount(len)
    ensures Unmapped(p0, m.pages, m.tbl, root, va / 4096, n)
    ensures forall v: nat :: va / 4096 <= v < va / 4096 + n ==> IsValid(Walk(p0, root, v))
    ensures ok ==> n == PageCount(len)
    ensures !ok ==> n < PageCount(len) && !IsValid(Walk(p0, root, va / 4096 + n))
    ensures ok <==> forall v: nat :: 0 <= (v - va / 4096) * 4096 < len ==> IsValid(Walk(p0, root, v))
    ensures ok ==> forall r, v: nat :: RootKey(r) in m.tbl && v < VPN_MAX ==>
      Walk(m.pages, r, v) == if r == root && 0 <= (v - va / 4096) * 4096 < len then 0 else Walk(p0, r, v)
  {
    hide PoolsOk, TreeOk, Walk, Unmapped, PageCount, IsValid, UnmapState;
    var start, end := va, va + len;
    n := 0;
    ghost var first, count := va / 4096, PageCount(len);
    UnmappedNothing(p0, m.tbl, root, first);
    PageStep(va, len, 0);
    while start < end
      invariant start == va + n * 4096 && n <= count
      invariant start < end <==> n < count
      invariant start / 4096 == first + n
      invariant Ok(m) && UnmapState(p0, m.pages, m.tbl, root, first, n)
      decreases end - start
    {
      ok := UnmapRound(m, root, start, first, n, p0);
      if !ok {
        UnmapMeans(p0, m.pages, m.tbl, root, first, n);
        InPages(len, n);
        assert 0 <= (first + n - first) * 4096 < len;
        return false, n;
      }
      start, n := start + 4096, n + 1;
      PageStep(va, len, n);
    }
    UnmapMeans(p0, m.pages, m.tbl, root, first, n);
    UnmappedIs(p0, m.pages, m.tbl, root, first, n, len);
    return true, n;
  }
}
