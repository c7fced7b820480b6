/**
 * Frames of user spaces: which data page belongs to which mapping, and the two
 * single-page steps that kernel/mem/uvm.c is made of.
 */
module Frames {
  import opened Sv39
  import opened PhysMem
  import opened VMem

  // ---------- which frames a space owns ----------

  /** Page `v` of space `r` is mapped: its frame is a data page owned by exactly this mapping. */
  ghost predicate FrameAt(pages: map<int, Page>, use: map<int, Use>, r: int, v: nat) {
    var w := Walk(pages, r, v);
    var a := PteToPa(w);
    IsValid(w) && IsLeaf(w) && a in pages && pages[a].Bytes? && a in use && use[a] == FrameOf(r, v)
  }

  ghost predicate OwnerOk(pages: map<int, Page>, use: map<int, Use>, tbl: map<Key, int>, a: int)
    requires a in use && use[a].FrameOf?
  {
    var r, v := use[a].root, use[a].vpn;
    RootKey(r) in tbl && v < TRAPFRAME_VPN && IsValid(Walk(pages, r, v)) && PteToPa(Walk(pages, r, v)) == a
  }

  /**
   * Below the trapframe, mappings and frames correspond one to one, over all
   * spaces. The trampoline and trapframe pages above are shared or belong to
   * the process, not to the space.
   */
  ghost predicate FramesOk(pages: map<int, Page>, use: map<int, Use>, tbl: map<Key, int>) {
    && (forall r, v: nat :: RootKey(r) in tbl && v < TRAPFRAME_VPN ==>
          Walk(pages, r, v) == 0 || FrameAt(pages, use, r, v))
    && (forall a :: a in use && use[a].FrameOf? ==> OwnerOk(pages, use, tbl, a))
  }

  ghost predicate UserOk(m: Memory)
    reads m
  {
    Ok(m) && FramesOk(m.pages, m.use, m.tbl)
  }

  /** Memory as pmem_init leaves it has no space and no frame. */
  lemma FreshMemory(m: Memory)
    requires m.Pools() && m.tbl == map[] && forall a :: a in m.use ==> m.use[a].Free?
    ensures UserOk(m)
  {
  }

  /** Distinct mapped pages, of one space or of two, have distinct frames, and no frame is a table or free. */
  lemma FramesAreDistinct(pages: map<int, Page>, use: map<int, Use>, tbl: map<Key, int>, r: int, v: nat, s: int, u: nat)
    requires FramesOk(pages, use, tbl)
    requires RootKey(r) in tbl && RootKey(s) in tbl && v < TRAPFRAME_VPN && u < TRAPFRAME_VPN
    requires IsValid(Walk(pages, r, v)) && IsValid(Walk(pages, s, u))
    ensures PteToPa(Walk(pages, r, v)) == PteToPa(Walk(pages, s, u)) <==> r == s && v == u
    ensures PteToPa(Walk(pages, r, v)) in use
    ensures !use[PteToPa(Walk(pages, r, v))].TableOf? && !use[PteToPa(Walk(pages, r, v))].Free?
  {
    assert FrameAt(pages, use, r, v) && FrameAt(pages, use, s, u);
  }

  /** Page `vpn` gets `a` for its frame; a frame it had before is nobody's any more, and not free. */
  ghost function Reframed(use: map<int, Use>, root: int, vpn: nat, a: int): (u: map<int, Use>)
    ensures u.Keys == use.Keys
  {
    map x | x in use :: if x == a then FrameOf(root, vpn) else if use[x] == FrameOf(root, vpn) then Held else use[x]
  }

  /** A held data page that is mapped becomes the frame of that page. */
  lemma FrameAdded(p0: map<int, Page>, u0: map<int, Use>, t0: map<Key, int>,
                   p1: map<int, Page>, u1: map<int, Use>, t1: map<Key, int>,
                   root: int, vpn: nat, a: uint64, perm: nat)
    requires FramesOk(p0, u0, t0) && Spread(p0, u0, t0, p1, u1, t1, root) && u0.Keys == p0.Keys
    requires RootKey(root) in t0 && vpn < TRAPFRAME_VPN && perm < 1024 && HasAccess(perm)
    requires OneWalk(p0, p1, t0, root, vpn, MakePte(a, perm))
    requires a in p0 && p0[a].Bytes? && u0[a] == Held && a % 4096 == 0
    ensures FramesOk(p1, Reframed(u1, root, vpn, a), t1)
  {
    hide IsValid, IsLeaf, PteToPa, Walk, MakePte, HasAccess;
    var u2 := Reframed(u1, root, vpn, a);
    MappedWord(a, perm);
    forall r, v: nat | RootKey(r) in t1 && v < TRAPFRAME_VPN && Walk(p1, r, v) != 0
      ensures FrameAt(p1, u2, r, v)
    {
      assert RootKey(r) in t0;
      if !(r == root && v == vpn) {
        assert Walk(p1, r, v) == Walk(p0, r, v);
        assert FrameAt(p0, u0, r, v);
      } else {
        assert Walk(p1, r, v) == MakePte(a, perm);
      }
    }
    forall b | b in u2 && u2[b].FrameOf? ensures OwnerOk(p1, u2, t1, b) {
      if b != a {
        assert u1[b] == u0[b];
        assert OwnerOk(p0, u0, t0, b);
      } else {
        assert Walk(p1, root, vpn) == MakePte(a, perm);
      }
    }
  }

  lemma MappedWord(a: uint64, perm: nat)
    requires perm < 1024 && HasAccess(perm) && a % 4096 == 0
    ensures IsValid(MakePte(a, perm)) && IsLeaf(MakePte(a, perm)) && PteToPa(MakePte(a, perm)) == a
            && MakePte(a, perm) != 0
  {
    PteRoundTrip(a, perm);
  }

  /** Without a mapping there was no frame to lose. */
  lemma NoFrameLost(pages: map<int, Page>, use: map<int, Use>, tbl: map<Key, int>, root: int, vpn: nat, a: int)
    requires FramesOk(pages, use, tbl) && !IsValid(Walk(pages, root, vpn)) && a in use
    ensures Reframed(use, root, vpn, a) == use[a := FrameOf(root, vpn)]
  {
    hide Walk, IsValid;
    forall x | x in use ensures use[x] == FrameOf(root, vpn) ==> IsValid(Walk(pages, root, vpn)) {
      FrameIsMapped(pages, use, tbl, root, vpn, x);
    }
  }

  lemma FrameIsMapped(pages: map<int, Page>, use: map<int, Use>, tbl: map<Key, int>, root: int, vpn: nat, x: int)
    requires FramesOk(pages, use, tbl) && x in use
    ensures use[x] == FrameOf(root, vpn) ==> IsValid(Walk(pages, root, vpn)) && PteToPa(Walk(pages, root, vpn)) == x
  {
    hide Walk, IsValid, PteToPa;
    if use[x].FrameOf? { assert OwnerOk(pages, use, tbl, x); }
  }

  /** Unmapping a page frees its frame from this mapping and from nothing else. */
  lemma FrameRemoved(p0: map<int, Page>, u0: map<int, Use>, tbl: map<Key, int>,
                     p1: map<int, Page>, p2: map<int, Page>, root: int, vpn: nat, a: int, f: Use)
    requires FramesOk(p0, u0, tbl) && u0.Keys == p0.Keys
    requires RootKey(root) in tbl && vpn < TRAPFRAME_VPN && IsValid(Walk(p0, root, vpn))
    requires a == PteToPa(Walk(p0, root, vpn)) && !f.FrameOf?
    requires SameWalks(p0, p1, tbl) && OneWalk(p1, p2, tbl, root, vpn, 0)
    requires forall b :: b in u0 && u0[b].FrameOf? && b != a ==> b in p2 && p2[b] == p0[b]
    ensures FramesOk(p2, u0[a := f], tbl)
  {
    var u2 := u0[a := f];
    forall r, v: nat | RootKey(r) in tbl && v < TRAPFRAME_VPN && Walk(p2, r, v) != 0
      ensures FrameAt(p2, u2, r, v)
    {
      assert Walk(p1, r, v) == Walk(p0, r, v);
      assert Walk(p2, r, v) == if r == root && v == vpn then 0 else Walk(p1, r, v);
      assert FrameAt(p0, u0, r, v);
      FramesAreDistinct(p0, u0, tbl, r, v, root, vpn);
    }
    forall b | b in u2 && u2[b].FrameOf? ensures OwnerOk(p2, u2, tbl, b) {
      assert OwnerOk(p0, u0, tbl, b);
      var r, v := u0[b].root, u0[b].vpn;
      assert Walk(p1, r, v) == Walk(p0, r, v);
      assert Walk(p2, r, v) == if r == root && v == vpn then 0 else Walk(p1, r, v);
    }
  }

  // ---------- mapping and unmapping one page ----------

  /** vm_mappages for one held data page, recorded as the frame of `va`. */
  method MapFrame(m: Memory, root: int, va: nat, ghost vpn: nat, a: uint64, perm: nat) returns (ok: bool)
    requires UserOk(m) && RootKey(root) in m.tbl
    requires va / 4096 == vpn < TRAPFRAME_VPN
    requires a in m.pages && m.pages[a].Bytes? && m.use[a] == Held && perm < 1024 && HasAccess(perm)
    modifies m
    ensures Ok(m) && (ok ==> UserOk(m))
    ensures forall k :: k in old(m.tbl) ==> k in m.tbl
    ensures m.user == old(m.user) && m.ufree == old(m.ufree)
    ensures ok ==> OneWalk(old(m.pages), m.pages, old(m.tbl), root, vpn, MakePte(a, perm))
    ensures ok ==>
      Spread(old(m.pages), Reframed(old(m.use), root, vpn, a), old(m.tbl), m.pages, m.use, m.tbl, root)
    ensures !IsValid(old(Walk(m.pages, root, vpn))) ==>
      Reframed(old(m.use), root, vpn, a) == old(m.use)[a := FrameOf(root, vpn)]
    ensures old(m.kern).allocable >= 2 ==> ok
    ensures m.kern.allocable >= old(m.kern).allocable - 2
  {
    hide PoolsOk, TreeOk, FramesOk, Spread, OneWalk, Walk, HasAccess, IsValid, MakePte, PagesOk, PageOk;
    PoolsBasics(m.pages, m.use, m.kern, m.kfree, m.user, m.ufree);
    PageAt(m.pages, a);
    if !IsValid(Walk(m.pages, root, vpn)) { NoFrameLost(m.pages, m.use, m.tbl, root, vpn, a); }
    ok := VmMapPage(m, root, va, a, perm);
    if ok {
      RecordFrame(m, old(m.pages), old(m.use), old(m.tbl), root, vpn, a, perm);
    }
  }

  ghost method RecordFrame(m: Memory, p0: map<int, Page>, u0: map<int, Use>, t0: map<Key, int>,
                           root: int, vpn: nat, a: uint64, perm: nat)
    requires Ok(m) && FramesOk(p0, u0, t0)
    requires Spread(p0, u0, t0, m.pages, m.use, m.tbl, root) && u0.Keys == p0.Keys
    requires RootKey(root) in t0 && vpn < TRAPFRAME_VPN && perm < 1024 && HasAccess(perm)
    requires OneWalk(p0, m.pages, t0, root, vpn, MakePte(a, perm))
    requires a in p0 && p0[a].Bytes? && u0[a] == Held && a % 4096 == 0
    modifies m`use
    ensures UserOk(m)
    ensures Spread(p0, Reframed(u0, root, vpn, a), t0, m.pages, m.use, m.tbl, root)
  {
    hide PoolsOk, TreeOk, FramesOk, Spread, OneWalk, Walk, HasAccess, IsValid, MakePte, Reframed, PagesOk;
    SpreadReframed(p0, u0, t0, m.pages, m.use, m.tbl, root, vpn, a);
    FrameAdded(p0, u0, t0, m.pages, m.use, m.tbl, root, vpn, a, perm);
    ReframedKeeps(m.pages, m.use, m.tbl, root, vpn, a, m.kern, m.kfree, m.user, m.ufree);
    m.use := Reframed(m.use, root, vpn, a);
  }

  /** The new labels on both sides. */
  lemma SpreadReframed(p0: map<int, Page>, u0: map<int, Use>, t0: map<Key, int>,
                       p1: map<int, Page>, u1: map<int, Use>, t1: map<Key, int>, root: int, vpn: nat, a: int)
    requires Spread(p0, u0, t0, p1, u1, t1, root) && a in u0 && u0[a] == Held
    ensures a in u1 && u1[a] == Held
    ensures Spread(p0, Reframed(u0, root, vpn, a), t0, p1, Reframed(u1, root, vpn, a), t1, root)
  {
  }

  lemma ReframedKeeps(pages: map<int, Page>, use: map<int, Use>, tbl: map<Key, int>, root: int, vpn: nat, a: int,
                      kern: Region, kfree: seq<int>, user: Region, ufree: seq<int>)
    requires TreeOk(pages, use, tbl) && PoolsOk(pages, use, kern, kfree, user, ufree) && a in use && use[a] == Held
    ensures TreeOk(pages, Reframed(use, root, vpn, a), tbl)
    ensures PoolsOk(pages, Reframed(use, root, vpn, a), kern, kfree, user, ufree)
  {
    RelabelKeepsTree(pages, use, tbl, Reframed(use, root, vpn, a));
    PoolsBasics(pages, use, kern, kfree, user, ufree);
    OwnedPagesChange(pages, use, pages, Reframed(use, root, vpn, a), kern, kfree, user, ufree);
    hide PoolsOk, TreeOk;
  }

  lemma RelabelKeepsTree(pages: map<int, Page>, use: map<int, Use>, tbl: map<Key, int>, use': map<int, Use>)
    requires TreeOk(pages, use, tbl) && use'.Keys == use.Keys
    requires forall x :: x in use && use[x].TableOf? ==> x in use' && use'[x] == use[x]
    requires forall x :: x in use' && use'[x].TableOf? ==> x in use && use'[x] == use[x]
    ensures TreeOk(pages, use', tbl)
  {
    hide TableOk;
    forall k | k in tbl ensures TableOk(pages, use', tbl, k) {
      TableAt(pages, use, tbl, k);
      var x := tbl[k];
      assert x in use && use[x].TableOf?;
      RelabelledTable(pages, use, tbl, use', k);
    }
  }

  lemma RelabelledTable(pages: map<int, Page>, use: map<int, Use>, tbl: map<Key, int>, use': map<int, Use>, k: Key)
    requires k in tbl && TableOk(pages, use, tbl, k) && tbl[k] in use' && use'[tbl[k]] == use[tbl[k]]
    ensures TableOk(pages, use', tbl, k)
  {
  }

  /**
   * The repeated step of rollback and of heap shrinking: look the page up,
   * and when it is mapped return its frame to the user pool and clear the entry.
   */
  method UnmapFrame(m: Memory, root: int, va: nat, ghost vpn: nat)
    requires UserOk(m) && RootKey(root) in m.tbl && va / 4096 == vpn < TRAPFRAME_VPN
    modifies m
    ensures UserOk(m)
    ensures m.tbl == old(m.tbl) && m.kern == old(m.kern) && m.kfree == old(m.kfree)
    ensures !IsValid(old(Walk(m.pages, root, vpn))) ==> unchanged(m)
    ensures IsValid(old(Walk(m.pages, root, vpn))) ==>
      var a := PteToPa(old(Walk(m.pages, root, vpn)));
      && OneWalk(old(m.pages), m.pages, m.tbl, root, vpn, 0)
      && m.ufree == [a] + old(m.ufree)
      && m.use == old(m.use)[a := Free(false)]
    ensures m.pages.Keys == old(m.pages).Keys && m.use.Keys == m.pages.Keys
    ensures forall b :: b in m.use && (m.use[b].FrameOf? || m.use[b].Held?) && b in m.pages ==>
            m.pages[b] == old(m.pages)[b]
  {
    ZeroIsInvalid();
    hide IsValid, IsLeaf, PteToPa, Digit;
    var pte, w := LookUp(m, root, va);
    if pte != Null && IsValid(w) {
      ClearFrame(m, root, vpn, pte, w);
    }
  }

  lemma ZeroIsInvalid()
    ensures !IsValid(0)
  {
  }

  lemma ValidIsFrame(pages: map<int, Page>, use: map<int, Use>, tbl: map<Key, int>, root: int, vpn: nat)
    requires FramesOk(pages, use, tbl) && RootKey(root) in tbl && vpn < TRAPFRAME_VPN && IsValid(Walk(pages, root, vpn))
    ensures FrameAt(pages, use, root, vpn)
  {
    hide IsLeaf, PteToPa;
  }

  /** pmem_free of the mapped frame, then a store of 0 into the entry. */
  method ClearFrame(m: Memory, root: int, ghost vpn: nat, pte: PteRef, w: uint64)
    requires UserOk(m) && RootKey(root) in m.tbl && vpn < TRAPFRAME_VPN
    requires pte == At(LeafTable(m.pages, root, vpn), Digit(vpn, 0)) && pte.table in m.pages
    requires w == Walk(m.pages, root, vpn) && IsValid(w)
    modifies m
    ensures UserOk(m)
    ensures m.tbl == old(m.tbl) && m.kern == old(m.kern) && m.kfree == old(m.kfree)
    ensures OneWalk(old(m.pages), m.pages, m.tbl, root, vpn, 0)
    ensures m.ufree == [PteToPa(w)] + old(m.ufree)
    ensures m.use == old(m.use)[PteToPa(w) := Free(false)]
    ensures m.pages.Keys == old(m.pages).Keys && m.use.Keys == m.pages.Keys
    ensures forall b :: b in m.use && (m.use[b].FrameOf? || m.use[b].Held?) && b in m.pages ==>
            m.pages[b] == old(m.pages)[b]
  {
    hide PoolsOk, TreeOk, PteToPa, IsValid, IsLeaf, Digit, LeafTable, Walk, FramesOk, OneWalk, FrameAt, SameWalks;
    ZeroIsInvalid();
    ValidIsFrame(m.pages, m.use, m.tbl, root, vpn);
    PoolsBasics(m.pages, m.use, m.kern, m.kfree, m.user, m.ufree);
    ReleaseFrame(m, root, vpn, PteToPa(w));
    ghost var p1 := m.pages;
    WritePte(m, root, vpn, pte, 0);
    FrameRemoved(old(m.pages), old(m.use), m.tbl, p1, m.pages, root, vpn, PteToPa(w), Free(false));
    GrowThenWrite(old(m.pages), p1, m.pages, m.tbl, m.tbl, root, vpn, 0);
    PoolsBasics(m.pages, m.use, m.kern, m.kfree, m.user, m.ufree);
  }

  method ReleaseFrame(m: Memory, root: int, ghost vpn: nat, a: int)
    requires UserOk(m) && RootKey(root) in m.tbl && vpn < TRAPFRAME_VPN
    requires FrameAt(m.pages, m.use, root, vpn) && a == PteToPa(Walk(m.pages, root, vpn))
    modifies m
    ensures Ok(m)
    ensures m.tbl == old(m.tbl) && m.kern == old(m.kern) && m.kfree == old(m.kfree)
    ensures m.ufree == [a] + old(m.ufree) && m.use == old(m.use)[a := Free(false)]
    ensures m.pages.Keys == old(m.pages).Keys
    ensures forall b :: b in m.pages && b != a ==> m.pages[b] == old(m.pages)[b]
    ensures SameWalks(old(m.pages), m.pages, m.tbl)
    ensures LeafTable(m.pages, root, vpn) == LeafTable(old(m.pages), root, vpn)
  {
    assert m.use.Keys == m.pages.Keys && PagesOk(m.pages);
    m.Release(a, false);
    AfterRelease(old(m.pages), old(m.use), m.pages, m.tbl, root, vpn, a);
    hide PoolsOk, TreeOk;
  }

  /** Freeing a frame leaves all tables and all translations in place. */
  lemma AfterRelease(pages: map<int, Page>, use: map<int, Use>, pages': map<int, Page>, tbl: map<Key, int>,
                     root: int, vpn: nat, a: int)
    requires TreeOk(pages, use, tbl) && PagesOk(pages) && RootKey(root) in tbl && vpn < VPN_MAX
    requires pages'.Keys == pages.Keys && use.Keys == pages.Keys && PagesOk(pages')
    requires forall b :: b in pages && b != a ==> pages'[b] == pages[b]
    requires a in use && use[a].FrameOf?
    ensures TreeOk(pages', use[a := Free(false)], tbl)
    ensures SameWalks(pages, pages', tbl)
    ensures LeafTable(pages', root, vpn) == LeafTable(pages, root, vpn)
  {
    OtherPagesKeep(pages, pages', use, use[a := Free(false)], tbl);
    WalkIsNamed(pages, use, tbl, root, vpn);
    WalkIsNamed(pages', use[a := Free(false)], tbl, root, vpn);
  }

  // ---------- fresh user pages ----------

  /** Pages that are no frames and no tables may change contents and use. */
  lemma HeldPagesChange(pages: map<int, Page>, use: map<int, Use>, tbl: map<Key, int>,
                        pages': map<int, Page>, use': map<int, Use>)
    requires TreeOk(pages, use, tbl) && FramesOk(pages, use, tbl) && PagesOk(pages) && PagesOk(pages')
    requires pages'.Keys == pages.Keys == use.Keys == use'.Keys
    requires forall a :: a in use ==>
      (use'[a] == use[a] && pages'[a] == pages[a])
          || ((use[a].Free? || use[a].Held?) && (use'[a].Free? || use'[a].Held?))
    ensures TreeOk(pages', use', tbl) && FramesOk(pages', use', tbl) && SameWalks(pages, pages', tbl)
  {
    hide TreeOk, IsValid, IsLeaf, PteToPa, Walk, PagesOk;
    OtherPagesKeep(pages, pages', use, use', tbl);
    forall r, v: nat | RootKey(r) in tbl && v < TRAPFRAME_VPN && Walk(pages', r, v) != 0
      ensures FrameAt(pages', use', r, v)
    {
      assert Walk(pages', r, v) == Walk(pages, r, v);
      assert FrameAt(pages, use, r, v);
    }
    forall a | a in use' && use'[a].FrameOf? ensures OwnerOk(pages', use', tbl, a) {
      assert OwnerOk(pages, use, tbl, a);
    }
  }

  lemma SameWalksRefl(pages: map<int, Page>, tbl: map<Key, int>)
    ensures SameWalks(pages, pages, tbl)
  {
  }

  lemma BytesPageOk(pages: map<int, Page>, a: int, bytes: seq<bv8>)
    requires PagesOk(pages) && a in pages && |bytes| == 4096
    ensures PagesOk(pages[a := Bytes(bytes)])
  {
  }

  /** pmem_alloc(false) followed by a store of all bytes of the page; 0 when the user pool is empty. */
  method AllocFilled(m: Memory, bytes: seq<bv8>) returns (a: int)
    requires UserOk(m) && |bytes| == 4096
    modifies m
    ensures UserOk(m)
    ensures m.tbl == old(m.tbl) && m.kern == old(m.kern) && m.kfree == old(m.kfree)
    ensures a == 0 <==> old(m.user).allocable == 0
    ensures a == 0 ==> unchanged(m)
    ensures a != 0 ==>
      && a in old(m.pages) && a < TWO64 && m.pages == old(m.pages)[a := Bytes(bytes)]
      && a in old(m.use) && old(m.use)[a] == Free(false) && m.use == old(m.use)[a := Held]
      && m.user.allocable == old(m.user).allocable - 1
    ensures SameWalks(old(m.pages), m.pages, m.tbl)
  {
    hide PoolsOk, TreeOk, FramesOk, SameWalks, PagesOk, PageOk;
    PoolsBasics(m.pages, m.use, m.kern, m.kfree, m.user, m.ufree);
    SameWalksRefl(m.pages, m.tbl);
    a := m.Alloc(false);
    if a != 0 {
      PoolsBasics(m.pages, m.use, m.kern, m.kfree, m.user, m.ufree);
      PageAt(m.pages, a);
      BytesPageOk(m.pages, a, bytes);
      HeldPagesChange(old(m.pages), old(m.use), m.tbl, m.pages[a := Bytes(bytes)], m.use);
      OwnedPagesChange(m.pages, m.use, m.pages[a := Bytes(bytes)], m.use, m.kern, m.kfree, m.user, m.ufree);
      m.pages := m.pages[a := Bytes(bytes)];
    }
  }
}
