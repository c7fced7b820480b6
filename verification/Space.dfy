/** Making a user space (proc_pgtbl_init in kernel/proc/proc.c). */
module Space {
  import opened Sv39
  import opened PhysMem
  import opened VMem
  import opened Frames

  /** A zeroed page becomes the root of a new space; no other page changes. */
  ghost predicate RootAdded(p0: map<int, Page>, u0: map<int, Use>, t0: map<Key, int>, a: int,
                            p1: map<int, Page>, u1: map<int, Use>, t1: map<Key, int>) {
    && TreeOk(p0, u0, t0) && PagesOk(p0) && u0.Keys == p0.Keys
    && a in u0 && u0[a] == Held && RootKey(a) !in t0
    && a in p1 && p1 == p0[a := p1[a]] && u1 == u0[a := TableOf(RootKey(a))] && t1 == t0[RootKey(a) := a]
    && p1[a].Table? && |p1[a].ptes| == 512 && forall i :: 0 <= i < 512 ==> p1[a].ptes[i] == 0
  }

  lemma AddRootTable(p0: map<int, Page>, u0: map<int, Use>, t0: map<Key, int>, a: int,
                     p1: map<int, Page>, u1: map<int, Use>, t1: map<Key, int>, h: Key)
    requires RootAdded(p0, u0, t0, a, p1, u1, t1) && h in t1
    ensures TableOk(p1, u1, t1, h)
  {
    if h == RootKey(a) {
      forall i | 0 <= i < 512 ensures SlotOk(p1, t1, h, i) {
        if Child(h, i) in t0 { RootFirst(p0, u0, t0, Child(h, i)); }
        assert Child(h, i) !in t0;
      }
    } else {
      TableAt(p0, u0, t0, h);
      if h.level > 0 {
        forall i | 0 <= i < 512 ensures SlotOk(p1, t1, h, i) {
          assert SlotOk(p0, t0, h, i);
        }
      }
    }
  }

  lemma AddRootTree(p0: map<int, Page>, u0: map<int, Use>, t0: map<Key, int>, a: int,
                    p1: map<int, Page>, u1: map<int, Use>, t1: map<Key, int>)
    requires RootAdded(p0, u0, t0, a, p1, u1, t1)
    ensures TreeOk(p1, u1, t1) && PagesOk(p1)
  {
    hide TableOk;
    forall h | h in t1 ensures TableOk(p1, u1, t1, h) {
      AddRootTable(p0, u0, t0, a, p1, u1, t1, h);
    }
  }

  lemma AddRoot(p0: map<int, Page>, u0: map<int, Use>, t0: map<Key, int>, a: int,
                p1: map<int, Page>, u1: map<int, Use>, t1: map<Key, int>)
    requires RootAdded(p0, u0, t0, a, p1, u1, t1)
    ensures TreeOk(p1, u1, t1) && PagesOk(p1)
    ensures SameWalks(p0, p1, t0)
    ensures forall v: nat :: v < VPN_MAX ==> Walk(p1, a, v) == 0
  {
    hide TreeOk, TableOk, Walk, PagesOk, LeafTable;
    AddRootTree(p0, u0, t0, a, p1, u1, t1);
    forall r, v: nat | RootKey(r) in t0 && v < VPN_MAX ensures Walk(p1, r, v) == Walk(p0, r, v) {
      AddRootWalk(p0, u0, t0, a, p1, u1, t1, r, v);
    }
    forall v: nat | v < VPN_MAX ensures Walk(p1, a, v) == 0 {
      NewRootWalk(p0, u0, t0, a, p1, u1, t1, v);
    }
  }

  lemma AddRootWalk(p0: map<int, Page>, u0: map<int, Use>, t0: map<Key, int>, a: int,
                    p1: map<int, Page>, u1: map<int, Use>, t1: map<Key, int>, r: int, v: nat)
    requires RootAdded(p0, u0, t0, a, p1, u1, t1) && TreeOk(p1, u1, t1) && PagesOk(p1)
    requires RootKey(r) in t0 && v < VPN_MAX
    ensures Walk(p1, r, v) == Walk(p0, r, v)
  {
    hide TreeOk, PagesOk, Walk;
    if KeyAt(r, 0, v) in t0 { TableAt(p0, u0, t0, KeyAt(r, 0, v)); }
    SameLeafSlot(p0, u0, t0, p1, u1, t1, r, v);
  }

  lemma NewRootWalk(p0: map<int, Page>, u0: map<int, Use>, t0: map<Key, int>, a: int,
                    p1: map<int, Page>, u1: map<int, Use>, t1: map<Key, int>, v: nat)
    requires RootAdded(p0, u0, t0, a, p1, u1, t1) && TreeOk(p1, u1, t1) && PagesOk(p1) && v < VPN_MAX
    ensures Walk(p1, a, v) == 0
  {
    WalkIsNamed(p1, u1, t1, a, v);
    NullIsNoPage(p1);
    if KeyAt(a, 0, v) in t0 { RootFirst(p0, u0, t0, KeyAt(a, 0, v)); }
  }

  /** No table without its root. */
  lemma RootFirst(p0: map<int, Page>, u0: map<int, Use>, t0: map<Key, int>, k: Key)
    requires TreeOk(p0, u0, t0) && k in t0
    ensures RootKey(k.root) in t0
  {
    assert TableOk(p0, u0, t0, k);
    if k.level < 2 {
      var up := KeyAt(k.root, k.level + 1, k.lo);
      assert TableOk(p0, u0, t0, up);
      if up.level < 2 {
        assert KeyAt(up.root, up.level + 1, up.lo) == RootKey(k.root);
      }
    }
  }

  lemma RootAddedFrames(p0: map<int, Page>, u0: map<int, Use>, t0: map<Key, int>, a: int,
                        p1: map<int, Page>, u1: map<int, Use>, t1: map<Key, int>)
    requires FramesOk(p0, u0, t0) && SameWalks(p0, p1, t0) && u0.Keys == p0.Keys && a in u0 && u0[a] == Held
    requires forall v: nat :: v < VPN_MAX ==> Walk(p1, a, v) == 0
    requires p1 == p0[a := Table(ZEROS)] && u1 == u0[a := TableOf(RootKey(a))] && t1 == t0[RootKey(a) := a]
    ensures FramesOk(p1, u1, t1)
  {
    hide IsValid, IsLeaf, PteToPa, Walk;
    forall r, v: nat | RootKey(r) in t1 && v < TRAPFRAME_VPN && Walk(p1, r, v) != 0 ensures FrameAt(p1, u1, r, v) {
      assert r != a && RootKey(r) in t0;
      assert Walk(p1, r, v) == Walk(p0, r, v);
      assert FrameAt(p0, u0, r, v);
    }
    forall b | b in u1 && u1[b].FrameOf? ensures OwnerOk(p1, u1, t1, b) {
      assert OwnerOk(p0, u0, t0, b);
    }
  }

  lemma NoTableHere(p0: map<int, Page>, u0: map<int, Use>, t0: map<Key, int>, a: int)
    requires TreeOk(p0, u0, t0) && a in u0 && u0[a] == Held
    ensures RootKey(a) !in t0
  {
    assert RootKey(a) in t0 ==> TableOk(p0, u0, t0, RootKey(a));
  }

  /** Mapping a page at or above the trapframe involves no frame. */
  lemma SpecialMapped(p0: map<int, Page>, u0: map<int, Use>, t0: map<Key, int>,
                      p1: map<int, Page>, u1: map<int, Use>, t1: map<Key, int>, root: int, vpn: nat, w: uint64)
    requires FramesOk(p0, u0, t0) && OneWalk(p0, p1, t0, root, vpn, w) && TRAPFRAME_VPN <= vpn
    requires Spread(p0, u0, t0, p1, u1, t1, root) && u0.Keys == p0.Keys
    ensures FramesOk(p1, u1, t1)
  {
    hide IsValid, IsLeaf, PteToPa, Walk;
    forall r, v: nat | RootKey(r) in t1 && v < TRAPFRAME_VPN && Walk(p1, r, v) != 0 ensures FrameAt(p1, u1, r, v) {
      assert RootKey(r) in t0;
      assert Walk(p1, r, v) == Walk(p0, r, v);
      assert FrameAt(p0, u0, r, v);
    }
    forall a | a in u1 && u1[a].FrameOf? ensures OwnerOk(p1, u1, t1, a) {
      assert u1[a] == u0[a];
      assert OwnerOk(p0, u0, t0, a);
    }
  }

  /** pmem_alloc and memset of the root page; 0 when the kernel pool is empty. */
  method NewRoot(m: Memory) returns (root: int)
    requires UserOk(m)
    modifies m
    ensures UserOk(m)
    ensures root == 0 <==> old(m.kern).allocable == 0
    ensures root == 0 ==> unchanged(m)
    ensures root != 0 ==>
      && RootKey(root) !in old(m.tbl) && m.tbl == old(m.tbl)[RootKey(root) := root]
      && SameWalks(old(m.pages), m.pages, old(m.tbl))
      && (forall v: nat :: v < VPN_MAX ==> Walk(m.pages, root, v) == 0)
      && m.use == old(m.use)[root := TableOf(RootKey(root))]
      && m.kern.allocable == old(m.kern).allocable - 1 && m.user == old(m.user)
  {
    hide PoolsOk, TreeOk, FramesOk, SameWalks, Walk, PagesOk;
    PoolsBasics(m.pages, m.use, m.kern, m.kfree, m.user, m.ufree);
    root := m.Alloc(true);
    if root == 0 {
      return;
    }
    ghost var p0, u0, t0 := m.pages, m.use, m.tbl;
    PoolsBasics(m.pages, m.use, m.kern, m.kfree, m.user, m.ufree);
    HeldPagesChange(p0, old(m.use), t0, p0, u0);
    NoTableHere(p0, u0, t0, root);
    InstallRoot(m, root);
  }

  method InstallRoot(m: Memory, root: int)
    requires UserOk(m) && root in m.use && m.use[root] == Held && RootKey(root) !in m.tbl
    modifies m
    ensures UserOk(m)
    ensures m.tbl == old(m.tbl)[RootKey(root) := root] && m.use == old(m.use)[root := TableOf(RootKey(root))]
    ensures SameWalks(old(m.pages), m.pages, old(m.tbl))
    ensures forall v: nat :: v < VPN_MAX ==> Walk(m.pages, root, v) == 0
    ensures m.kern == old(m.kern) && m.user == old(m.user) && m.ufree == old(m.ufree)
  {
    ghost var p0, u0, t0 := m.pages, m.use, m.tbl;
    ghost var p1, u1, t1 := p0[root := Table(ZEROS)], u0[root := TableOf(RootKey(root))], t0[RootKey(root) := root];
    assert u0.Keys == p0.Keys;
    AddRoot(p0, u0, t0, root, p1, u1, t1);
    RootAddedFrames(p0, u0, t0, root, p1, u1, t1);
    OwnedPagesChange(p0, u0, p1, u1, m.kern, m.kfree, m.user, m.ufree);
    hide PoolsOk, TreeOk, FramesOk, SameWalks, Walk;
    m.pages := m.pages[root := Table(ZEROS)];
    m.use := u1;
    m.tbl := t1;
  }

  /**
   * proc_pgtbl_init: a new space that maps the trampoline and the trapframe
   * and nothing below them; every other space keeps its translations.
   */
  method ProcPgtblInit(m: Memory, trampoline: uint64, trapframe: uint64) returns (root: int, ok: bool)
    requires UserOk(m)
    modifies m
    ensures UserOk(m)
    ensures !ok ==> m.kern.allocable == 0
    ensures ok ==>
      && RootKey(root) in m.tbl && RootKey(root) !in old(m.tbl)
      && (forall v: nat :: v < TRAPFRAME_VPN ==> Walk(m.pages, root, v) == 0)
      && Walk(m.pages, root, 0x3FF_FFFF) == MakePte(trampoline, 10)
      && Walk(m.pages, root, 0x3FF_FFFE) == MakePte(trapframe, 6)
      && SameWalks(old(m.pages), m.pages, old(m.tbl))
  {
    root := NewRoot(m);
    if root == 0 {
      return root, false;
    }
    ghost var p1, t1 := m.pages, m.tbl;
    ok := MapSpecial(m, root, TRAMPOLINE, VPN_MAX - 1, trampoline, PTE_R + PTE_X);
    if !ok {
      return;
    }
    ghost var p2, t2 := m.pages, m.tbl;
    ok := MapSpecial(m, root, TRAPFRAME, VPN_MAX - 2, trapframe, PTE_R + PTE_W);
    if ok {
      TwoMapped(old(m.pages), p1, p2, m.pages, old(m.tbl), t1, t2, root, MakePte(trampoline, PTE_R + PTE_X),
                MakePte(trapframe, PTE_R + PTE_W));
    }
  }

  lemma TwoMapped(p0: map<int, Page>, p1: map<int, Page>, p2: map<int, Page>, p3: map<int, Page>,
                  t0: map<Key, int>, t1: map<Key, int>, t2: map<Key, int>, root: int, w1: uint64, w2: uint64)
    requires SameWalks(p0, p1, t0) && RootKey(root) !in t0 && t1 == t0[RootKey(root) := root]
    requires forall v: nat :: v < VPN_MAX ==> Walk(p1, root, v) == 0
    requires forall k :: k in t1 ==> k in t2
    requires OneWalk(p1, p2, t1, root, VPN_MAX - 1, w1) && OneWalk(p2, p3, t2, root, VPN_MAX - 2, w2)
    ensures SameWalks(p0, p3, t0)
    ensures forall v: nat :: v < TRAPFRAME_VPN ==> Walk(p3, root, v) == 0
    ensures Walk(p3, root, VPN_MAX - 1) == w1 && Walk(p3, root, VPN_MAX - 2) == w2
  {
    forall r, v: nat | RootKey(r) in t1 && v < VPN_MAX
      ensures Walk(p3, r, v) == if r == root && v == VPN_MAX - 2 then w2 else if r == root
              && v == VPN_MAX - 1 then w1 else Walk(p1, r, v)
    {
      assert RootKey(r) in t2;
      assert Walk(p2, r, v) == if r == root && v == VPN_MAX - 1 then w1 else Walk(p1, r, v);
    }
    forall r, v: nat | RootKey(r) in t0 && v < VPN_MAX ensures Walk(p3, r, v) == Walk(p0, r, v) {
      assert Walk(p1, r, v) == Walk(p0, r, v);
    }
  }

  method MapSpecial(m: Memory, root: int, va: nat, ghost vpn: nat, pa: uint64, perm: nat) returns (ok: bool)
    requires UserOk(m) && RootKey(root) in m.tbl && va / 4096 == vpn && TRAPFRAME_VPN <= vpn && va < VA_MAX
             && perm < 1024
    modifies m
    ensures UserOk(m)
    ensures forall k :: k in old(m.tbl) ==> k in m.tbl
    ensures ok ==> OneWalk(old(m.pages), m.pages, old(m.tbl), root, vpn, MakePte(pa, perm))
    ensures !ok ==> m.kern.allocable == 0
  {
    assert m.use.Keys == m.pages.Keys;
    hide PoolsOk, TreeOk, FramesOk, OneWalk, SameWalks, Walk, MakePte;
    ok := VmMapPage(m, root, va, pa, perm);
    if ok {
      SpecialMapped(old(m.pages), old(m.use), old(m.tbl), m.pages, m.use, m.tbl, root, vpn, MakePte(pa, perm));
    } else {
      TablesGained(old(m.pages), old(m.use), old(m.tbl), m.pages, m.use, m.tbl, root);
    }
  }

  lemma TablesGained(p0: map<int, Page>, u0: map<int, Use>, t0: map<Key, int>,
                     p1: map<int, Page>, u1: map<int, Use>, t1: map<Key, int>, root: int)
    requires FramesOk(p0, u0, t0) && SameWalks(p0, p1, t0) && Spread(p0, u0, t0, p1, u1, t1, root) && u0.Keys == p0.Keys
    ensures FramesOk(p1, u1, t1)
  {
    hide IsValid, IsLeaf, PteToPa, Walk;
    forall r, v: nat | RootKey(r) in t1 && v < TRAPFRAME_VPN && Walk(p1, r, v) != 0 ensures FrameAt(p1, u1, r, v) {
      assert RootKey(r) in t0;
      assert Walk(p1, r, v) == Walk(p0, r, v);
      assert FrameAt(p0, u0, r, v);
    }
    forall a | a in u1 && u1[a].FrameOf? ensures OwnerOk(p1, u1, t1, a) {
      assert u1[a] == u0[a];
      assert OwnerOk(p0, u0, t0, a);
    }
  }
}
