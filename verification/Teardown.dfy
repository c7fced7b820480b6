/** Recursive release of a user page table (kernel/mem/uvm.c). */
module Teardown {
  import opened Sv39
  import opened PhysMem
  import opened VMem
  import opened Frames

  /** Number of pages that one entry of a table of `level` translates. */
  function Unit(level: nat): nat {
    if level == 0 then 1 else if level == 1 then 512 else if level == 2 then 262144 else 134217728
  }

  /** First page index of the range of slot `i`. */
  function ChildLo(k: Key, i: nat): nat {
    k.lo + (if k.level == 0 then i else if k.level == 1 then i * 512 else i * 262144)
  }

  lemma ChildLoStep(k: Key, i: nat)
    requires k.level <= 2
    ensures ChildLo(k, 0) == k.lo && ChildLo(k, i + 1) == ChildLo(k, i) + Unit(k.level)
    ensures ChildLo(k, 512) == k.lo + Unit(k.level + 1)
    ensures i < 512 ==> ChildLo(k, i + 1) <= k.lo + Unit(k.level + 1)
    ensures k.lo <= ChildLo(k, i)
  {
  }

  /** A table of a level below `lv`, or a frame, that space `root` uses for page indices in [lo, hi). */
  ghost predicate Within(u: Use, root: int, lv: nat, lo: nat, hi: nat) {
    match u
    case TableOf(k) => k.root == root && k.level < lv && lo <= k.lo < hi
    case FrameOf(r, v) => r == root && lo <= v < hi
    case _ => false
  }

  ghost function Region(use: map<int, Use>, root: int, lv: nat, lo: nat, hi: nat): set<int> {
    set a | a in use && Within(use[a], root, lv, lo, hi)
  }

  lemma RegionJoin(use: map<int, Use>, root: int, lv: nat, lo: nat, mid: nat, hi: nat)
    requires lo <= mid <= hi
    ensures Region(use, root, lv, lo, mid) + Region(use, root, lv, mid, hi) == Region(use, root, lv, lo, hi)
    ensures Region(use, root, lv, lo, lo) == {}
  {
    var l, r, all := Region(use, root, lv, lo, mid), Region(use, root, lv, mid, hi), Region(use, root, lv, lo, hi);
    forall a ensures a in l + r <==> a in all {
      assert a in l <==> a in use && Within(use[a], root, lv, lo, mid);
    }
    forall a ensures a !in Region(use, root, lv, lo, lo) {}
  }

  /** State 1 is state 0 with the pages of `f` put on the user free list and nothing else touched. */
  ghost predicate Given(p0: map<int, Page>, u0: map<int, Use>, p1: map<int, Page>, u1: map<int, Use>, f: set<int>) {
    && p1.Keys == p0.Keys && u1.Keys == u0.Keys
    && (forall a :: a in u0 ==> u1[a] == if a in f then Free(false) else u0[a])
    && (forall a :: a in p0 && a !in f ==> p1[a] == p0[a])
  }

  lemma GivenAt(p0: map<int, Page>, u0: map<int, Use>, p1: map<int, Page>, u1: map<int, Use>, f: set<int>, a: int)
    requires Given(p0, u0, p1, u1, f) && a in p0 && a !in f
    ensures a in p1 && p1[a] == p0[a]
  {
  }

  /**
   * Every entry of the space is empty or maps a frame of the space: the state
   * once the two special pages are cleared.
   */
  ghost predicate OnlyFrames(pages: map<int, Page>, use: map<int, Use>, root: int) {
    forall v: nat :: v < VPN_MAX ==> !IsValid(Walk(pages, root, v)) || FrameAt(pages, use, root, v)
  }

  /** What the recursion may assume about the state it started from. */
  ghost predicate Start(p0: map<int, Page>, u0: map<int, Use>, t0: map<Key, int>, root: int) {
    && TreeOk(p0, u0, t0) && PagesOk(p0) && FramesOk(p0, u0, t0) && OnlyFrames(p0, u0, root)
    && u0.Keys == p0.Keys && RootKey(root) in t0
  }

  lemma LevelOk(p0: map<int, Page>, u0: map<int, Use>, t0: map<Key, int>, k: Key)
    requires Start(p0, u0, t0, k.root) && k in t0
    ensures k.level <= 2 && t0[k] in u0 && u0[t0[k]] == TableOf(k)
  {
    TableAt(p0, u0, t0, k);
  }

  // ---------- what one slot stands for ----------

  /** Below an absent child there is nothing. */
  lemma NothingBelow(p0: map<int, Page>, u0: map<int, Use>, t0: map<Key, int>, k: Key, i: nat)
    requires Start(p0, u0, t0, k.root) && KeyOk(k) && 1 <= k.level && i < 512 && Child(k, i) !in t0
    ensures Region(u0, k.root, k.level, Child(k, i).lo, Child(k, i).lo + Unit(k.level)) == {}
  {
    var c := Child(k, i);
    forall a | a in u0 && Within(u0[a], k.root, k.level, c.lo, c.lo + Unit(k.level)) ensures false {
      if u0[a].TableOf? {
        var d := u0[a].key;
        assert TableOk(p0, u0, t0, d);
        AncestorIs(k, i, d.level, d.lo);
      } else {
        assert OwnerOk(p0, u0, t0, a);
        FrameNeedsTables(p0, u0, t0, k.root, u0[a].vpn);
        AncestorIs(k, i, 0, u0[a].vpn);
      }
    }
  }

  /** A table name inside the range of child `i` is that child or lies below it. */
  lemma AncestorIs(k: Key, i: nat, level: nat, lo: nat)
    requires KeyOk(k) && 1 <= k.level && i < 512 && level < k.level && lo < VPN_MAX
    requires Child(k, i).lo <= lo < Child(k, i).lo + Unit(k.level)
    ensures KeyAt(k.root, k.level - 1, lo) == Child(k, i)
  {
  }

  lemma FrameNeedsTables(p0: map<int, Page>, u0: map<int, Use>, t0: map<Key, int>, root: int, v: nat)
    requires TreeOk(p0, u0, t0) && PagesOk(p0) && RootKey(root) in t0 && v < VPN_MAX && IsValid(Walk(p0, root, v))
    ensures KeyAt(root, 0, v) in t0 && KeyAt(root, 1, v) in t0
  {
    WalkIsNamed(p0, u0, t0, root, v);
    NullIsNoPage(p0);
    ZeroIsInvalid();
  }

  lemma LeafDigits(k: Key, i: nat)
    requires KeyOk(k) && k.level == 0 && i < 512
    ensures k.lo + i < VPN_MAX && KeyAt(k.root, 0, k.lo + i) == k && Digit(k.lo + i, 0) == i
  {
  }

  /** The single page that a valid slot of a level-0 table stands for. */
  lemma FrameSlot(p0: map<int, Page>, u0: map<int, Use>, t0: map<Key, int>, k: Key, i: nat)
    requires Start(p0, u0, t0, k.root) && k in t0 && k.level == 0 && i < 512
    ensures var w := Slot(p0, t0[k], i);
      if IsValid(w) then IsLeaf(w) && Region(u0, k.root, 0, k.lo + i, k.lo + i + 1) == {PteToPa(w)}
      else Region(u0, k.root, 0, k.lo + i, k.lo + i + 1) == {}
  {
    var v := k.lo + i;
    var w := Slot(p0, t0[k], i);
    assert TableOk(p0, u0, t0, k);
    LeafDigits(k, i);
    WalkIsNamed(p0, u0, t0, k.root, v);
    assert w == Walk(p0, k.root, v);
    hide IsValid, IsLeaf, PteToPa, TreeOk, Walk, Slot, Digit, TableOk;
    assert IsValid(w) ==> FrameAt(p0, u0, k.root, v);
    forall a | a in u0 && Within(u0[a], k.root, 0, v, v + 1) ensures IsValid(w) && a == PteToPa(w) {
      assert OwnerOk(p0, u0, t0, a);
    }
  }

  // ---------- the recursion ----------

  /**
   * destroy_pgtbl: the pages freed are exactly the tables and frames that the
   * space keeps in the range of this table, each once. The `level` argument
   * of the code is never tested; the recursion ends because the level of the
   * table, known only to the proof, falls.
   */
  method DestroyPgtbl(m: Memory, pgtbl: int, level: int, ghost k: Key, ghost height: nat, ghost f: set<int>,
                      ghost p0: map<int, Page>, ghost u0: map<int, Use>, ghost t0: map<Key, int>)
    requires Start(p0, u0, t0, k.root) && k in t0 && t0[k] == pgtbl && height == k.level + 1
    requires m.Pools() && Given(p0, u0, m.pages, m.use, f)
    requires f !! Region(u0, k.root, height, k.lo, k.lo + Unit(height))
    modifies m
    ensures m.Pools() && m.tbl == old(m.tbl) && m.kern == old(m.kern)
    ensures Given(p0, u0, m.pages, m.use, f + Region(u0, k.root, height, k.lo, k.lo + Unit(height)))
    decreases k.level, 1
  {
    hide PoolsOk, Start, Region, Unit, Given, ChildLo;
    ghost var cur := k.lo;
    LevelOk(p0, u0, t0, k);
    ChildLoStep(k, 0);
    RegionJoin(u0, k.root, k.level, k.lo, k.lo, k.lo);
    assert f + Region(u0, k.root, k.level, k.lo, k.lo) == f;
    for i := 0 to 512
      invariant m.Pools() && m.tbl == old(m.tbl) && m.kern == old(m.kern)
      invariant cur == ChildLo(k, i)
      invariant Given(p0, u0, m.pages, m.use, f + Region(u0, k.root, k.level, k.lo, cur))
    {
      DestroySlot(m, pgtbl, i, level, k, height, cur, f, p0, u0, t0);
      ChildLoStep(k, i);
      cur := cur + Unit(k.level);
    }
    FinishTable(m, pgtbl, k, height, cur, f, p0, u0, t0);
  }

  /** The last step of destroy_pgtbl: the table page itself. */
  method FinishTable(m: Memory, pgtbl: int, ghost k: Key, ghost height: nat, ghost hi: nat, ghost f: set<int>,
                     ghost p0: map<int, Page>, ghost u0: map<int, Use>, ghost t0: map<Key, int>)
    requires Start(p0, u0, t0, k.root) && k in t0 && t0[k] == pgtbl && k.level <= 2 && m.Pools()
    requires height == k.level + 1 && hi == k.lo + Unit(height)
    requires Given(p0, u0, m.pages, m.use, f + Region(u0, k.root, k.level, k.lo, hi))
    requires f !! Region(u0, k.root, height, k.lo, k.lo + Unit(height))
    modifies m
    ensures m.Pools() && m.tbl == old(m.tbl) && m.kern == old(m.kern)
    ensures Given(p0, u0, m.pages, m.use, f + Region(u0, k.root, height, k.lo, k.lo + Unit(height)))
  {
    hide PoolsOk, Start, Region, Unit, Given;
    WholeRegion(p0, u0, t0, k);
    ghost var g := f + Region(u0, k.root, k.level, k.lo, hi);
    assert g + {pgtbl} == f + Region(u0, k.root, height, k.lo, k.lo + Unit(height));
    FreeTable(m, pgtbl, g, p0, u0);
  }

  lemma ChildRegion(k: Key, i: nat, cur: nat)
    requires k.level <= 2 && cur == ChildLo(k, i)
    ensures k.level > 0 ==> Child(k, i) == Key(k.root, k.level - 1, cur)
  {
  }

  method FreeTable(m: Memory, a: int, ghost f: set<int>, ghost p0: map<int, Page>, ghost u0: map<int, Use>)
    requires m.Pools() && Given(p0, u0, m.pages, m.use, f) && a in u0 && a !in f && !u0[a].Free?
    modifies m
    ensures m.Pools() && m.tbl == old(m.tbl) && m.kern == old(m.kern)
    ensures Given(p0, u0, m.pages, m.use, f + {a})
  {
    assert m.use.Keys == m.pages.Keys;
    hide PoolsOk;
    m.Release(a, false);
  }

  /** The body of the loop of destroy_pgtbl: what slot `i` stands for is freed, and nothing else. */
  method DestroySlot(m: Memory, pgtbl: int, i: nat, level: int, ghost k: Key, ghost height: nat, ghost cur: nat,
      ghost f: set<int>,
                     ghost p0: map<int, Page>, ghost u0: map<int, Use>, ghost t0: map<Key, int>)
    requires Start(p0, u0, t0, k.root) && k in t0 && t0[k] == pgtbl && i < 512
    requires k.level <= 2 && height == k.level + 1 && cur == ChildLo(k, i)
    requires m.Pools() && Given(p0, u0, m.pages, m.use, f + Region(u0, k.root, k.level, k.lo, cur))
    requires f !! Region(u0, k.root, height, k.lo, k.lo + Unit(height))
    modifies m
    ensures m.Pools() && m.tbl == old(m.tbl) && m.kern == old(m.kern)
    ensures Given(p0, u0, m.pages, m.use, f + Region(u0, k.root, k.level, k.lo, cur + Unit(k.level)))
    decreases k.level, 0
  {
    hide PoolsOk, Start, Region, Unit, IsValid, IsLeaf, PteToPa, Given, ChildLo;
    SlotFacts(p0, u0, t0, k, i, cur, f);
    ChildLoStep(k, i);
    ghost var g := f + Region(u0, k.root, k.level, k.lo, cur);
    ghost var here := Region(u0, k.root, k.level, cur, cur + Unit(k.level));
    RegionJoin(u0, k.root, k.level, k.lo, cur, cur + Unit(k.level));
    assert g + here == f + Region(u0, k.root, k.level, k.lo, cur + Unit(k.level));
    GivenAt(p0, u0, m.pages, m.use, g, pgtbl);
    var pte := m.pages[pgtbl].ptes[i];
    if IsValid(pte) && !IsLeaf(pte) {
      DestroyPgtbl(m, PteToPa(pte), level - 1, Key(k.root, k.level - 1, cur), k.level, g, p0, u0, t0);
    } else if IsValid(pte) {
      FreeTable(m, PteToPa(pte), g, p0, u0);
    } else {
      assert g + here == g;
    }
  }

  lemma SlotFacts(p0: map<int, Page>, u0: map<int, Use>, t0: map<Key, int>, k: Key, i: nat, cur: nat, f: set<int>)
    requires Start(p0, u0, t0, k.root) && k in t0 && i < 512 && k.level <= 2 && cur == ChildLo(k, i)
    requires f !! Region(u0, k.root, k.level + 1, k.lo, k.lo + Unit(k.level + 1))
    ensures t0[k] in p0 && p0[t0[k]].Table? && |p0[t0[k]].ptes| == 512
    ensures t0[k] !in f + Region(u0, k.root, k.level, k.lo, cur)
    ensures 0 <= p0[t0[k]].ptes[i] < TWO64
    ensures var w := p0[t0[k]].ptes[i];
      var here := Region(u0, k.root, k.level, cur, cur + Unit(k.level));
      && here !! f + Region(u0, k.root, k.level, k.lo, cur)
      && (!IsValid(w) ==> here == {})
      && (IsValid(w) && IsLeaf(w) ==> here == {PteToPa(w)} && PteToPa(w) in u0 && u0[PteToPa(w)].FrameOf?)
      && (IsValid(w) && !IsLeaf(w) ==>
            k.level > 0 && Key(k.root, k.level - 1, cur) in t0 && t0[Key(k.root, k.level - 1, cur)] == PteToPa(w))
  {
    assert TableOk(p0, u0, t0, k);
    assert t0[k] in p0 && AddressOk(t0[k]) && PageOk(p0[t0[k]]);
    var w := p0[t0[k]].ptes[i];
    assert w == Slot(p0, t0[k], i);
    RegionsApart(u0, k, i, cur, f);
    ChildRegion(k, i, cur);
    WholeRegion(p0, u0, t0, k);
    if k.level == 0 {
      FrameSlot(p0, u0, t0, k, i);
      if IsValid(w) {
        assert PteToPa(w) in Region(u0, k.root, 0, k.lo + i, k.lo + i + 1);
      }
    } else {
      assert SlotOk(p0, t0, k, i);
      if Child(k, i) !in t0 {
        NothingBelow(p0, u0, t0, k, i);
      }
    }
  }

  lemma RegionsApart(u0: map<int, Use>, k: Key, i: nat, cur: nat, f: set<int>)
    requires k.level <= 2 && i < 512 && cur == ChildLo(k, i)
    requires f !! Region(u0, k.root, k.level + 1, k.lo, k.lo + Unit(k.level + 1))
    ensures Region(u0, k.root, k.level, cur, cur + Unit(k.level)) !! f + Region(u0, k.root, k.level, k.lo, cur)
  {
    ChildLoStep(k, i);
    var whole := Region(u0, k.root, k.level + 1, k.lo, k.lo + Unit(k.level + 1));
    var n := Unit(k.level);
    hide Unit, ChildLo;
    forall a | a in Region(u0, k.root, k.level, cur, cur + n)
        ensures a in whole && a !in Region(u0, k.root, k.level, k.lo, cur) {}
  }

  /** Once all slots are done, what remains of the table's region is the table itself. */
  lemma WholeRegion(p0: map<int, Page>, u0: map<int, Use>, t0: map<Key, int>, k: Key)
    requires Start(p0, u0, t0, k.root) && k in t0 && k.level <= 2
    ensures Region(u0, k.root, k.level + 1, k.lo, k.lo + Unit(k.level + 1))
            == Region(u0, k.root, k.level, k.lo, k.lo + Unit(k.level + 1)) + {t0[k]}
    ensures t0[k] in u0 && t0[k] !in Region(u0, k.root, k.level, k.lo, k.lo + Unit(k.level + 1))
    ensures u0[t0[k]] == TableOf(k) && t0[k] in Region(u0, k.root, k.level + 1, k.lo, k.lo + Unit(k.level + 1))
  {
    assert TableOk(p0, u0, t0, k);
    assert Unit(k.level + 1) > 0;
    var whole, part := Region(u0, k.root, k.level + 1, k.lo, k.lo + Unit(k.level + 1)),
                       Region(u0, k.root, k.level, k.lo, k.lo + Unit(k.level + 1));
    assert !Within(u0[t0[k]], k.root, k.level, k.lo, k.lo + Unit(k.level + 1));
    assert t0[k] !in part;
    forall a ensures a in whole <==> a in part + {t0[k]} {
      if a in whole && u0[a].TableOf? && u0[a].key.level == k.level {
        var d := u0[a].key;
        assert TableOk(p0, u0, t0, d);
        SameLevelSameKey(k, d);
      }
    }
  }

  lemma SameLevelSameKey(k: Key, d: Key)
    requires KeyOk(k) && KeyOk(d) && d.root == k.root && d.level == k.level && k.lo <= d.lo < k.lo + Unit(k.level + 1)
    ensures d == k
  {
  }

  // ---------- the whole space ----------

  /** The pages that space `root` owns: its tables and its frames. */
  ghost predicate Owns(u: Use, root: int) {
    match u
    case TableOf(k) => k.root == root
    case FrameOf(r, _) => r == root
    case _ => false
  }

  ghost function OwnedBy(use: map<int, Use>, root: int): set<int> {
    set a | a in use && Owns(use[a], root)
  }

  ghost function Without(tbl: map<Key, int>, root: int): map<Key, int> {
    map k | k in tbl && k.root != root :: tbl[k]
  }

  lemma RegionIsAll(p0: map<int, Page>, u0: map<int, Use>, t0: map<Key, int>, root: int)
    requires TreeOk(p0, u0, t0) && FramesOk(p0, u0, t0)
    ensures Region(u0, root, 3, 0, 0 + Unit(3)) == OwnedBy(u0, root)
  {
    forall a | a in u0 && Owns(u0[a], root) ensures Within(u0[a], root, 3, 0, 0 + Unit(3)) {
      if u0[a].TableOf? {
        assert TableOk(p0, u0, t0, u0[a].key);
      } else {
        assert OwnerOk(p0, u0, t0, a);
      }
    }
    forall a ensures a in Region(u0, root, 3, 0, 0 + Unit(3)) <==> a in OwnedBy(u0, root) {}
  }

  /** With the space gone, the other spaces are as before. */
  lemma OthersStay(p0: map<int, Page>, u0: map<int, Use>, t0: map<Key, int>, p1: map<int, Page>, u1: map<int, Use>,
      root: int)
    requires TreeOk(p0, u0, t0) && FramesOk(p0, u0, t0) && PagesOk(p0) && PagesOk(p1) && u0.Keys == p0.Keys
    requires Given(p0, u0, p1, u1, OwnedBy(u0, root))
    ensures TreeOk(p1, u1, Without(t0, root)) && FramesOk(p1, u1, Without(t0, root))
    ensures SameWalks(p0, p1, Without(t0, root))
  {
    hide TreeOk, Walk, FramesOk, PagesOk, Given;
    var t1 := Without(t0, root);
    OtherTree(p0, u0, t0, p1, u1, root);
    forall r, v: nat | RootKey(r) in t1 && v < VPN_MAX ensures Walk(p1, r, v) == Walk(p0, r, v) {
      OtherWalk(p0, u0, t0, p1, u1, t1, r, v);
    }
    FramesStay(p0, u0, t0, p1, u1, t1, root);
  }

  lemma OtherTree(p0: map<int, Page>, u0: map<int, Use>, t0: map<Key, int>, p1: map<int, Page>, u1: map<int, Use>,
      root: int)
    requires TreeOk(p0, u0, t0) && u0.Keys == p0.Keys && Given(p0, u0, p1, u1, OwnedBy(u0, root))
    ensures TreeOk(p1, u1, Without(t0, root))
    ensures forall k :: k in Without(t0, root) ==>
              k in t0 && t0[k] in p0 && t0[k] in p1 && Without(t0, root)[k] == t0[k] && p1[t0[k]] == p0[t0[k]]
  {
    var t1 := Without(t0, root);
    OtherLabels(p0, u0, t0, p1, u1, root);
    hide TableOk, Given;
    forall k | k in t1 ensures TableOk(p1, u1, t1, k) && t0[k] in p1 && p1[t1[k]] == p0[t0[k]] {
      OtherTable(p0, u0, t0, p1, u1, root, k);
    }
  }

  lemma OtherLabels(p0: map<int, Page>, u0: map<int, Use>, t0: map<Key, int>, p1: map<int, Page>, u1: map<int, Use>,
      root: int)
    requires TreeOk(p0, u0, t0) && u0.Keys == p0.Keys && Given(p0, u0, p1, u1, OwnedBy(u0, root))
    ensures forall a :: a in u1 && u1[a].TableOf? ==>
              u1[a].key in Without(t0, root) && Without(t0, root)[u1[a].key] == a
  {
    hide TableOk;
    forall a | a in u1 && u1[a].TableOf? ensures u1[a].key in Without(t0, root) && Without(t0, root)[u1[a].key] == a {
      assert u1[a] == u0[a];
    }
  }

  lemma OtherTable(p0: map<int, Page>, u0: map<int, Use>, t0: map<Key, int>, p1: map<int, Page>, u1: map<int, Use>,
                   root: int, k: Key)
    requires TreeOk(p0, u0, t0) && Given(p0, u0, p1, u1, OwnedBy(u0, root)) && k in t0 && k.root != root
    ensures k in Without(t0, root) && Without(t0, root)[k] == t0[k]
    ensures TableOk(p1, u1, Without(t0, root), k) && t0[k] in p0 && p1[t0[k]] == p0[t0[k]]
  {
    var t1 := Without(t0, root);
    assert TableOk(p0, u0, t0, k);
    assert u0[t0[k]] == TableOf(k) && !Owns(u0[t0[k]], root);
    if k.level > 0 {
      forall i | 0 <= i < 512 ensures SlotOk(p1, t1, k, i) {
        assert SlotOk(p0, t0, k, i);
      }
    }
  }

  lemma OtherWalk(p0: map<int, Page>, u0: map<int, Use>, t0: map<Key, int>,
                  p1: map<int, Page>, u1: map<int, Use>, t1: map<Key, int>, r: int, v: nat)
    requires TreeOk(p0, u0, t0) && PagesOk(p0) && TreeOk(p1, u1, t1) && PagesOk(p1)
    requires RootKey(r) in t1 && RootKey(r) in t0 && v < VPN_MAX
    requires KeyAt(r, 0, v) in t0 <==> KeyAt(r, 0, v) in t1
    requires KeyAt(r, 0, v) in t1 ==> t1[KeyAt(r, 0, v)] == t0[KeyAt(r, 0, v)]
                                      && t1[KeyAt(r, 0, v)] in p1 && t1[KeyAt(r, 0, v)] in p0
                                      && p1[t1[KeyAt(r, 0, v)]] == p0[t1[KeyAt(r, 0, v)]]
    ensures Walk(p1, r, v) == Walk(p0, r, v)
  {
    WalkIsNamed(p0, u0, t0, r, v);
    WalkIsNamed(p1, u1, t1, r, v);
    NullIsNoPage(p0);
    NullIsNoPage(p1);
  }

  lemma FramesStay(p0: map<int, Page>, u0: map<int, Use>, t0: map<Key, int>,
                   p1: map<int, Page>, u1: map<int, Use>, t1: map<Key, int>, root: int)
    requires FramesOk(p0, u0, t0) && Given(p0, u0, p1, u1, OwnedBy(u0, root)) && t1 == Without(t0, root)
    requires u0.Keys == p0.Keys && SameWalks(p0, p1, t1)
    ensures FramesOk(p1, u1, t1)
  {
    hide IsValid, IsLeaf, PteToPa, Walk;
    forall r, v: nat | RootKey(r) in t1 && v < TRAPFRAME_VPN && Walk(p1, r, v) != 0
      ensures FrameAt(p1, u1, r, v)
    {
      assert Walk(p1, r, v) == Walk(p0, r, v);
      assert FrameAt(p0, u0, r, v);
      assert PteToPa(Walk(p0, r, v)) !in OwnedBy(u0, root);
    }
    forall a | a in u1 && u1[a].FrameOf? ensures OwnerOk(p1, u1, t1, a) {
      assert a !in OwnedBy(u0, root);
      assert OwnerOk(p0, u0, t0, a);
    }
  }

  /** Clearing one of the two special entries. */
  method ClearSpecial(m: Memory, root: int, va: nat, ghost vpn: nat)
    requires UserOk(m) && RootKey(root) in m.tbl && va / 4096 == vpn && TRAPFRAME_VPN <= vpn < VPN_MAX && va < VA_MAX
    modifies m`pages
    ensures UserOk(m)
    ensures !IsValid(Walk(m.pages, root, vpn))
    ensures forall r, v: nat :: RootKey(r) in m.tbl && v < VPN_MAX && !(r == root && v == vpn) ==>
      Walk(m.pages, r, v) == Walk(old(m.pages), r, v)
    ensures m.pages.Keys == old(m.pages).Keys
    ensures forall a :: a in m.pages && a in m.use && !Owns(m.use[a], root) ==> m.pages[a] == old(m.pages)[a]
  {
    ZeroIsInvalid();
    hide PoolsOk, TreeOk, IsValid, IsLeaf, PteToPa, Walk;
    var pte, w := LookUp(m, root, va);
    if pte.At? && IsValid(w) {
      ghost var p0 := m.pages;
      WritePte(m, root, vpn, pte, 0);
      SpecialCleared(p0, m.use, m.tbl, m.pages, root, vpn);
    }
  }

  lemma SpecialCleared(p0: map<int, Page>, use: map<int, Use>, tbl: map<Key, int>, p1: map<int, Page>, root: int,
      vpn: nat)
    requires FramesOk(p0, use, tbl) && OneWalk(p0, p1, tbl, root, vpn, 0) && TRAPFRAME_VPN <= vpn
    requires Spread(p0, use, tbl, p1, use, tbl, root)
    ensures FramesOk(p1, use, tbl)
  {
    hide IsValid, IsLeaf, PteToPa, Walk;
    forall r, v: nat | RootKey(r) in tbl && v < TRAPFRAME_VPN && Walk(p1, r, v) != 0 ensures FrameAt(p1, use, r, v) {
      assert Walk(p1, r, v) == Walk(p0, r, v);
      assert FrameAt(p0, use, r, v);
    }
    forall a | a in use && use[a].FrameOf? ensures OwnerOk(p1, use, tbl, a) {
      assert OwnerOk(p0, use, tbl, a);
    }
  }

  /**
   * uvm_destroy_pgtbl: every table page and every leaf frame of the space,
   * trampoline and trapframe excepted, comes back to the user pool, once; no
   * other page changes use, and every other space is untouched.
   */
  method UvmDestroyPgtbl(m: Memory, root: int, level: int)
    requires UserOk(m) && RootKey(root) in m.tbl
    modifies m
    ensures UserOk(m) && m.tbl == Without(old(m.tbl), root)
    ensures m.use.Keys == old(m.use).Keys
    ensures forall a :: a in m.use ==> m.use[a] == if Owns(old(m.use)[a], root) then Free(false) else old(m.use)[a]
    ensures forall a :: a in m.use && a in m.pages && !Owns(old(m.use)[a], root) ==> m.pages[a] == old(m.pages)[a]
    ensures forall k :: k in old(m.tbl) ==>
      if k.root == root then k !in m.tbl && old(m.tbl)[k] in m.use && m.use[old(m.tbl)[k]] == Free(false)
      else k in m.tbl && m.tbl[k] == old(m.tbl)[k]
    ensures forall v: nat :: v < VPN_MAX - 2 && IsValid(Walk(old(m.pages), root, v)) ==>
      PteToPa(Walk(old(m.pages), root, v)) in m.use && m.use[PteToPa(Walk(old(m.pages), root, v))] == Free(false)
    ensures forall a :: a in m.use && m.use[a] != old(m.use)[a] ==>
      IsTable(old(m.tbl), root, a) || IsFrame(old(m.pages), root, a)
    ensures SameWalks(old(m.pages), m.pages, m.tbl)
    ensures m.kern == old(m.kern)
  {
    hide PoolsOk, TreeOk, FramesOk, Walk, Given, Start, PagesOk, IsValid, Owns, PteToPa, IsTable, IsFrame;
    ClearSpecial(m, root, TRAMPOLINE, VPN_MAX - 1);
    ghost var pa := m.pages;
    ClearSpecial(m, root, TRAPFRAME, VPN_MAX - 2);
    ghost var p0, u0, t0 := m.pages, m.use, m.tbl;
    PoolsBasics(p0, u0, m.kern, m.kfree, m.user, m.ufree);
    BothCleared(old(m.pages), pa, p0, u0, t0, root);
    ReleaseAll(m, root, level);
    OthersKeepPages(old(m.pages), u0, p0, m.pages, m.use, root);
    SameWalksVia(old(m.pages), p0, m.pages, m.tbl);
    Destroyed(old(m.pages), old(m.use), old(m.tbl), m.use, m.tbl, root);
  }

  ghost predicate IsTable(tbl: map<Key, int>, root: int, a: int) {
    exists k :: k in tbl && k.root == root && tbl[k] == a
  }

  /** A mapped page below the trapframe has frame `a`. */
  ghost predicate IsFrame(pages: map<int, Page>, root: int, a: int) {
    exists v: nat :: v < VPN_MAX - 2 && IsValid(Walk(pages, root, v)) && PteToPa(Walk(pages, root, v)) == a
  }

  /** The pages of a space are its tables and the frames of its mapped pages below the trapframe. */
  lemma WhatIsOwned(pages: map<int, Page>, use: map<int, Use>, tbl: map<Key, int>, root: int)
    requires TreeOk(pages, use, tbl) && FramesOk(pages, use, tbl) && RootKey(root) in tbl && use.Keys == pages.Keys
    ensures forall k :: k in tbl && k.root == root ==> tbl[k] in use && Owns(use[tbl[k]], root)
    ensures forall v: nat :: v < VPN_MAX - 2 && IsValid(Walk(pages, root, v)) ==>
      PteToPa(Walk(pages, root, v)) in use && Owns(use[PteToPa(Walk(pages, root, v))], root)
    ensures forall a :: a in use && Owns(use[a], root) ==>
      IsTable(tbl, root, a) || IsFrame(pages, root, a)
  {
    ZeroIsInvalid();
    hide IsValid, PteToPa, IsLeaf, Walk;
    forall k | k in tbl && k.root == root ensures tbl[k] in use && Owns(use[tbl[k]], root) {
      TableAt(pages, use, tbl, k);
    }
    forall v: nat | v < VPN_MAX - 2 && IsValid(Walk(pages, root, v))
      ensures PteToPa(Walk(pages, root, v)) in use && Owns(use[PteToPa(Walk(pages, root, v))], root)
    {
      assert FrameAt(pages, use, root, v);
    }
    forall a | a in use && Owns(use[a], root)
      ensures IsTable(tbl, root, a) || IsFrame(pages, root, a)
    {
      if use[a].TableOf? {
        assert use[a].key in tbl && tbl[use[a].key] == a;
      } else {
        assert OwnerOk(pages, use, tbl, a);
      }
    }
  }

  lemma WithoutIs(tbl: map<Key, int>, root: int, k: Key)
    ensures k in Without(tbl, root) <==> k in tbl && k.root != root
    ensures k in Without(tbl, root) ==> Without(tbl, root)[k] == tbl[k]
  {
  }

  /** So those, and only those, have come back. */
  lemma Destroyed(p0: map<int, Page>, u0: map<int, Use>, t0: map<Key, int>, u1: map<int, Use>, t1: map<Key, int>,
                  root: int)
    requires TreeOk(p0, u0, t0) && FramesOk(p0, u0, t0) && RootKey(root) in t0 && u0.Keys == p0.Keys == u1.Keys
    requires t1 == Without(t0, root) && forall a :: a in u1 ==>
             u1[a] == if Owns(u0[a], root) then Free(false) else u0[a]
    ensures forall k :: k in t0 ==>
      if k.root == root then k !in t1 && t0[k] in u1 && u1[t0[k]] == Free(false) else k in t1 && t1[k] == t0[k]
    ensures forall v: nat :: v < VPN_MAX - 2 && IsValid(Walk(p0, root, v)) ==>
      PteToPa(Walk(p0, root, v)) in u1 && u1[PteToPa(Walk(p0, root, v))] == Free(false)
    ensures forall a :: a in u1 && u1[a] != u0[a] ==> IsTable(t0, root, a) || IsFrame(p0, root, a)
  {
    hide TreeOk, FramesOk, Walk, PteToPa, IsValid, Owns, IsTable, IsFrame, Without;
    WhatIsOwned(p0, u0, t0, root);
    forall a | a in u1 && Owns(u0[a], root) ensures u1[a] == Free(false) {
    }
    forall k | k in t0
      ensures if k.root == root then k !in t1 && t0[k] in u1 && u1[t0[k]] == Free(false) else k in t1 && t1[k] == t0[k]
    {
      WithoutIs(t0, root, k);
      if k.root == root {
        assert t0[k] in u1 && Owns(u0[t0[k]], root);
      }
    }
    forall v: nat | v < VPN_MAX - 2 && IsValid(Walk(p0, root, v))
      ensures PteToPa(Walk(p0, root, v)) in u1 && u1[PteToPa(Walk(p0, root, v))] == Free(false)
    {
      assert PteToPa(Walk(p0, root, v)) in u0;
    }
  }

  lemma OthersKeepPages(p: map<int, Page>, u0: map<int, Use>, p0: map<int, Page>, p1: map<int, Page>, u1: map<int, Use>,
      root: int)
    requires Given(p0, u0, p1, u1, OwnedBy(u0, root)) && p0.Keys == p.Keys && u0.Keys == p0.Keys
    requires forall a :: a in p0 && a in u0 && !Owns(u0[a], root) ==> p0[a] == p[a]
    ensures u1.Keys == u0.Keys && p1.Keys == p.Keys
    ensures forall a :: a in u1 ==> u1[a] == if Owns(u0[a], root) then Free(false) else u0[a]
    ensures forall a :: a in u1 && a in p1 && !Owns(u0[a], root) ==> p1[a] == p[a]
  {
    hide Owns;
  }

  lemma SameWalksVia(p: map<int, Page>, p0: map<int, Page>, p1: map<int, Page>, tbl: map<Key, int>)
    requires forall r, v: nat :: RootKey(r) in tbl && v < VPN_MAX ==> Walk(p0, r, v) == Walk(p, r, v)
    requires SameWalks(p0, p1, tbl)
    ensures SameWalks(p, p1, tbl)
  {
    forall r, v: nat | RootKey(r) in tbl && v < VPN_MAX ensures Walk(p1, r, v) == Walk(p, r, v) {
      assert Walk(p0, r, v) == Walk(p, r, v);
    }
  }

  method ReleaseAll(m: Memory, root: int, level: int)
    requires UserOk(m) && Start(m.pages, m.use, m.tbl, root) && m.tbl[RootKey(root)] == root
    modifies m
    ensures UserOk(m) && m.tbl == Without(old(m.tbl), root)
    ensures Given(old(m.pages), old(m.use), m.pages, m.use, OwnedBy(old(m.use), root))
    ensures SameWalks(old(m.pages), m.pages, m.tbl)
    ensures m.kern == old(m.kern)
  {
    ghost var p0, u0, t0 := m.pages, m.use, m.tbl;
    RegionIsAll(p0, u0, t0, root);
    GivenNothing(p0, u0, Region(u0, root, 3, 0, 0 + Unit(3)));
    assert PagesOk(p0) && u0.Keys == p0.Keys;
    hide TreeOk, FramesOk, SameWalks;
    DestroyPgtbl(m, root, level, RootKey(root), 3, {}, p0, u0, t0);
    assert PagesOk(m.pages);
    OthersStay(p0, u0, t0, m.pages, m.use, root);
    DropTables(m, root);
  }

  ghost method DropTables(m: Memory, root: int)
    requires m.Pools() && TreeOk(m.pages, m.use, Without(m.tbl, root)) && FramesOk(m.pages, m.use, Without(m.tbl, root))
    modifies m`tbl
    ensures UserOk(m) && m.tbl == Without(old(m.tbl), root)
  {
    hide PoolsOk, TreeOk, FramesOk;
    m.tbl := Without(m.tbl, root);
  }

  lemma GivenNothing(pages: map<int, Page>, use: map<int, Use>, s: set<int>)
    ensures Given(pages, use, pages, use, {})
    ensures {} + s == s && {} !! s
  {
  }

  lemma BothCleared(p: map<int, Page>, pa: map<int, Page>, p0: map<int, Page>, use: map<int, Use>,
      tbl: map<Key, int>, root: int)
    requires TreeOk(p0, use, tbl) && FramesOk(p0, use, tbl) && PagesOk(p0) && use.Keys == p0.Keys
             && RootKey(root) in tbl
    requires !IsValid(Walk(pa, root, VPN_MAX - 1)) && !IsValid(Walk(p0, root, VPN_MAX - 2))
    requires forall r, v: nat :: RootKey(r) in tbl && v < VPN_MAX && !(r == root && v == VPN_MAX - 1) ==>
             Walk(pa, r, v) == Walk(p, r, v)
    requires forall r, v: nat :: RootKey(r) in tbl && v < VPN_MAX && !(r == root && v == VPN_MAX - 2) ==>
             Walk(p0, r, v) == Walk(pa, r, v)
    ensures Start(p0, use, tbl, root) && tbl[RootKey(root)] == root
    ensures forall r, v: nat :: RootKey(r) in tbl && r != root && v < VPN_MAX ==> Walk(p0, r, v) == Walk(p, r, v)
  {
    assert TableOk(p0, use, tbl, RootKey(root));
    ZeroIsInvalid();
    hide TreeOk, IsLeaf, PteToPa, IsValid;
    forall v: nat | v < VPN_MAX ensures !IsValid(Walk(p0, root, v)) || FrameAt(p0, use, root, v) {
      if v == VPN_MAX - 1 {
        assert Walk(p0, root, v) == Walk(pa, root, v);
      }
    }
    forall r, v: nat | RootKey(r) in tbl && r != root && v < VPN_MAX ensures Walk(p0, r, v) == Walk(p, r, v) {
      assert Walk(p0, r, v) == Walk(pa, r, v);
    }
  }
}
