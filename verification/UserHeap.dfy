/** Heap growth with rollback, and heap shrinking (kernel/mem/uvm.c, kernel/syscall/sysfunc.c). */
module UserHeap {
  import opened Sv39
  import opened PhysMem
  import opened VMem
  import opened Frames

  // PTE_R | PTE_W | PTE_U
  const RWU: nat := 22

  /** First byte address of the trapframe page, above the stack: user ranges lie below it. */
  const USER_END: nat := 0x3F_FFFF_E000

  /** First page index at or above an address: the two alignment expressions of the heap code. */
  function TopPage(addr: nat): nat {
    (addr + 4095) / 4096
  }

  /** The pages below it are those that start below the address. */
  lemma TopPageIs(addr: nat, v: nat)
    ensures v < TopPage(addr) <==> v * 4096 < addr
    ensures v <= addr / 4096 <==> v * 4096 <= addr
  {
  }

  /** Every byte below `top` is mapped. */
  ghost predicate HeapMapped(pages: map<int, Page>, root: int, top: nat) {
    forall va: nat :: va < top ==> IsValid(Walk(pages, root, va / 4096))
  }

  /**
   * State 1 is state 0 with the pages [lo, hi) of `root` mapped to zero-filled
   * frames that were free user pages, and with nothing else changed but
   * tables gained by `root`.
   */
  ghost predicate Extended(p0: map<int, Page>, u0: map<int, Use>, t0: map<Key, int>,
                           p1: map<int, Page>, u1: map<int, Use>, t1: map<Key, int>, root: int, lo: nat, hi: nat) {
    && u1.Keys == u0.Keys && p1.Keys == p0.Keys
    && (forall k :: k in t0 ==> k in t1)
    && (forall k :: k in t1 && k !in t0 ==> k.root == root && k.level < 2)
    && (forall r, v: nat :: RootKey(r) in t0 && v < VPN_MAX && !(r == root && lo <= v < hi) ==>
          Walk(p1, r, v) == Walk(p0, r, v))
    && (forall v: nat :: lo <= v < hi ==> FreshZero(p0, u0, p1, root, v))
    && (forall a :: a in u0 ==>
          || u1[a] == u0[a]
          || (u0[a] == Free(true) && u1[a].TableOf? && u1[a].key.root == root)
          || (u0[a] == Free(false) && u1[a].FrameOf? && u1[a].root == root && lo <= u1[a].vpn < hi))
    && (forall a :: a in u0 && a in p0 && (u0[a].FrameOf? || u0[a].Held?) ==> p1[a] == p0[a])
  }

  /**
   * State 1 is state 0 with the pages [lo, mid) of `root` unmapped and [mid, hi)
   * mapped to zero-filled frames that were free user pages. A frame that a
   * page of [lo, hi) had before is held by nobody and not free. Nothing else
   * has changed but tables gained by `root`.
   */
  ghost predicate GrownOver(p0: map<int, Page>, u0: map<int, Use>, t0: map<Key, int>,
                            p1: map<int, Page>, u1: map<int, Use>, t1: map<Key, int>,
                            root: int, lo: nat, mid: nat, hi: nat) {
    && u1.Keys == u0.Keys && p1.Keys == p0.Keys
    && (forall k :: k in t0 ==> k in t1)
    && (forall k :: k in t1 && k !in t0 ==> k.root == root && k.level < 2)
    && (forall r, v: nat :: RootKey(r) in t0 && v < VPN_MAX && !(r == root && lo <= v < hi) ==>
          Walk(p1, r, v) == Walk(p0, r, v))
    && (forall v: nat :: lo <= v < mid ==> Walk(p1, root, v) == 0)
    && (forall v: nat :: mid <= v < hi ==> FreshZero(p0, u0, p1, root, v))
    && (forall a :: a in u0 ==> UseAfter(u0[a], u1[a], root, lo, mid, hi))
    && (forall a :: a in u0 && a in p0 && (u0[a].FrameOf? || u0[a].Held?) ==> p1[a] == p0[a])
  }

  ghost predicate UseAfter(u0: Use, u1: Use, root: int, lo: nat, mid: nat, hi: nat) {
    if u0.FrameOf? && u0.root == root && lo <= u0.vpn < hi then u1 == Held
    else
      || u1 == u0
      || (u0 == Free(true) && u1.TableOf? && u1.key.root == root)
      || (u0 == Free(false) && u1.FrameOf? && u1.root == root && mid <= u1.vpn < hi)
  }

  /** Nothing is mapped in [lo, hi). */
  ghost predicate Vacant(pages: map<int, Page>, root: int, lo: nat, hi: nat) {
    forall v: nat :: lo <= v < hi ==> Walk(pages, root, v) == 0
  }

  lemma VacantPart(pages: map<int, Page>, root: int, lo: nat, mid: nat, hi: nat)
    requires Vacant(pages, root, lo, hi) && mid <= hi
    ensures Vacant(pages, root, lo, mid)
  {
    hide Walk;
  }

  /** Where nothing was mapped, a growth over the range is one without losses, and a growth undone is none. */
  lemma GrownOverNothing(p0: map<int, Page>, u0: map<int, Use>, t0: map<Key, int>,
                         p1: map<int, Page>, u1: map<int, Use>, t1: map<Key, int>,
                         root: int, lo: nat, mid: nat, hi: nat)
    requires GrownOver(p0, u0, t0, p1, u1, t1, root, lo, mid, hi) && FramesOk(p0, u0, t0) && lo <= mid <= hi
    requires Vacant(p0, root, lo, hi)
    ensures Extended(p0, u0, t0, p1, u1, t1, root, mid, hi)
  {
    hide FreshZero, Walk;
    assert !IsValid(0);
    forall a | a in u0 ensures !(u0[a].FrameOf? && u0[a].root == root && lo <= u0[a].vpn < hi) {
      if u0[a].FrameOf? { assert OwnerOk(p0, u0, t0, a); }
    }
  }

  ghost predicate AllZero(p: Page) {
    p.Bytes? && |p.bytes| == 4096 && forall i :: 0 <= i < 4096 ==> p.bytes[i] == 0
  }

  /** Page `v` has read, write and user permission and a frame that was free and is all zero. */
  ghost predicate FreshZero(p0: map<int, Page>, u0: map<int, Use>, p1: map<int, Page>, root: int, v: nat) {
    && IsValid(Walk(p1, root, v)) && PteFlags(Walk(p1, root, v)) == WithValid(RWU)
    && WasFree(u0, FrameFor(p1, root, v)) && FrameFor(p1, root, v) in p1 && AllZero(p1[FrameFor(p1, root, v)])
  }

  /** The frame that page `v` of `root` is mapped to. */
  ghost function FrameFor(pages: map<int, Page>, root: int, v: nat): int {
    PteToPa(Walk(pages, root, v))
  }

  ghost predicate WasFree(use: map<int, Use>, a: int) {
    a in use && use[a] == Free(false)
  }

  /** A growth of [lo, hi) by one page: `a`, zero-filled, becomes the frame of page `hi`. */
  ghost predicate GrowsBy(p0: map<int, Page>, u0: map<int, Use>, t0: map<Key, int>,
                          p1: map<int, Page>, u1: map<int, Use>, t1: map<Key, int>,
                          p2: map<int, Page>, u2: map<int, Use>, t2: map<Key, int>, root: int, lo: nat, hi: nat,
                          a: uint64, zeros: Page) {
    && AllZero(zeros) && GrownOver(p0, u0, t0, p1, u1, t1, root, lo, lo, hi) && FramesOk(p1, u1, t1)
    && u0.Keys == p0.Keys && RootKey(root) in t0 && lo <= hi < VPN_MAX && hi <= TRAPFRAME_VPN
    && a in u1 && u1[a] == Free(false) && a % 4096 == 0
    && SameWalks(p1, p1[a := zeros], t1)
    && OneWalk(p1[a := zeros], p2, t1, root, hi, MakePte(a, RWU))
    && Spread(p1[a := zeros], Reframed(u1[a := Held], root, hi, a), t1, p2, u2, t2, root)
  }

  lemma GrowsWalk(p0: map<int, Page>, u0: map<int, Use>, t0: map<Key, int>,
                  p1: map<int, Page>, u1: map<int, Use>, t1: map<Key, int>,
                  p2: map<int, Page>, u2: map<int, Use>, t2: map<Key, int>, root: int, lo: nat, hi: nat,
                  a: uint64, zeros: Page, r: int, v: nat)
    requires GrowsBy(p0, u0, t0, p1, u1, t1, p2, u2, t2, root, lo, hi, a, zeros) && RootKey(r) in t0 && v < VPN_MAX
    ensures Walk(p2, r, v) == if r == root && v == hi then MakePte(a, RWU) else Walk(p1, r, v)
  {
    hide Walk, FramesOk, MakePte, FreshZero, AllZero, TreeOk;
    assert RootKey(r) in t1;
    assert Walk(p1[a := zeros], r, v) == Walk(p1, r, v);
  }

  lemma GrowsPage(p0: map<int, Page>, u0: map<int, Use>, t0: map<Key, int>,
                  p1: map<int, Page>, u1: map<int, Use>, t1: map<Key, int>,
                  p2: map<int, Page>, u2: map<int, Use>, t2: map<Key, int>, root: int, lo: nat, hi: nat,
                  a: uint64, zeros: Page, x: int)
    requires GrowsBy(p0, u0, t0, p1, u1, t1, p2, u2, t2, root, lo, hi, a, zeros) && x in u1 && u1[x].FrameOf?
    ensures x in p1 ==> x in p2 && p2[x] == p1[x]
  {
    hide Walk, FramesOk, MakePte, AllZero, SameWalks, OneWalk, FreshZero, UseAfter, GrownOver;
  }

  lemma GrowsOld(p0: map<int, Page>, u0: map<int, Use>, t0: map<Key, int>,
                 p1: map<int, Page>, u1: map<int, Use>, t1: map<Key, int>,
                 p2: map<int, Page>, u2: map<int, Use>, t2: map<Key, int>, root: int, lo: nat, hi: nat,
                 a: uint64, zeros: Page, v: nat)
    requires GrowsBy(p0, u0, t0, p1, u1, t1, p2, u2, t2, root, lo, hi, a, zeros) && lo <= v < hi
    ensures FreshZero(p0, u0, p2, root, v)
  {
    hide Walk, FramesOk, MakePte, AllZero, IsValid, IsLeaf, PteToPa, SameWalks, OneWalk, FreshZero, Spread;
    GrowsWalk(p0, u0, t0, p1, u1, t1, p2, u2, t2, root, lo, hi, a, zeros, root, v);
    assert FreshZero(p0, u0, p1, root, v) && RootKey(root) in t1;
    FreshFrame(p0, u0, p1, u1, t1, root, v);
    GrowsPage(p0, u0, t0, p1, u1, t1, p2, u2, t2, root, lo, hi, a, zeros, PteToPa(Walk(p1, root, v)));
    FreshStays(p0, u0, p1, p2, root, v);
  }

  lemma GrowsNew(p0: map<int, Page>, u0: map<int, Use>, t0: map<Key, int>,
                 p1: map<int, Page>, u1: map<int, Use>, t1: map<Key, int>,
                 p2: map<int, Page>, u2: map<int, Use>, t2: map<Key, int>, root: int, lo: nat, hi: nat,
                 a: uint64, zeros: Page)
    requires GrowsBy(p0, u0, t0, p1, u1, t1, p2, u2, t2, root, lo, hi, a, zeros)
    ensures FreshZero(p0, u0, p2, root, hi)
  {
    GrowsWalk(p0, u0, t0, p1, u1, t1, p2, u2, t2, root, lo, hi, a, zeros, root, hi);
    PteRoundTrip(a, RWU);
    hide Walk, FramesOk, MakePte, AllZero, IsLeaf, PteToPa, SameWalks, OneWalk, FreshZero;
    NewFrame(p0, u0, t0, p1, u1, t1, p2, u2, t2, root, lo, hi, a, zeros);
    assert FrameFor(p2, root, hi) == a;
    assert FreshZero(p0, u0, p2, root, hi) by { ReadWriteUser(); FreshIs(p0, u0, p2, root, hi); }
  }

  lemma NewFrame(p0: map<int, Page>, u0: map<int, Use>, t0: map<Key, int>,
                 p1: map<int, Page>, u1: map<int, Use>, t1: map<Key, int>,
                 p2: map<int, Page>, u2: map<int, Use>, t2: map<Key, int>, root: int, lo: nat, hi: nat,
                 a: uint64, zeros: Page)
    requires GrowsBy(p0, u0, t0, p1, u1, t1, p2, u2, t2, root, lo, hi, a, zeros)
    ensures WasFree(u0, a) && a in p2 && AllZero(p2[a])
  {
    hide Walk, FramesOk, MakePte, AllZero, SameWalks, OneWalk, FreshZero;
  }

  lemma FreshIs(p0: map<int, Page>, u0: map<int, Use>, p1: map<int, Page>, root: int, v: nat)
    requires IsValid(Walk(p1, root, v)) && PteFlags(Walk(p1, root, v)) == WithValid(RWU)
    requires WasFree(u0, FrameFor(p1, root, v)) && FrameFor(p1, root, v) in p1 && AllZero(p1[FrameFor(p1, root, v)])
    ensures FreshZero(p0, u0, p1, root, v)
  {
  }

  lemma GrowsKeys(p0: map<int, Page>, u0: map<int, Use>, t0: map<Key, int>,
                  p1: map<int, Page>, u1: map<int, Use>, t1: map<Key, int>,
                  p2: map<int, Page>, u2: map<int, Use>, t2: map<Key, int>, root: int, lo: nat, hi: nat,
                  a: uint64, zeros: Page)
    requires GrowsBy(p0, u0, t0, p1, u1, t1, p2, u2, t2, root, lo, hi, a, zeros)
    ensures u2.Keys == u0.Keys && p2.Keys == p0.Keys && u1.Keys == u0.Keys && p1.Keys == p0.Keys
    ensures (forall k :: k in t0 ==> k in t2) && (forall k :: k in t2 && k !in t0 ==> k.root == root && k.level < 2)
  {
    hide Walk, FramesOk, MakePte, AllZero, SameWalks, OneWalk, FreshZero, UseAfter;
  }

  lemma GrowsUse(p0: map<int, Page>, u0: map<int, Use>, t0: map<Key, int>,
                 p1: map<int, Page>, u1: map<int, Use>, t1: map<Key, int>,
                 p2: map<int, Page>, u2: map<int, Use>, t2: map<Key, int>, root: int, lo: nat, hi: nat,
                 a: uint64, zeros: Page, x: int)
    requires GrowsBy(p0, u0, t0, p1, u1, t1, p2, u2, t2, root, lo, hi, a, zeros) && x in u0
    ensures x in u2 && UseAfter(u0[x], u2[x], root, lo, lo, hi + 1)
    ensures x in p0 && (u0[x].FrameOf? || u0[x].Held?) ==> x in p2 && p2[x] == p0[x]
  {
    hide Walk, FramesOk, MakePte, AllZero, SameWalks, OneWalk, FreshZero;
    assert UseAfter(u0[x], u1[x], root, lo, lo, hi);
    var f := Reframed(u1[a := Held], root, hi, a);
    assert f[x] == if x == a then FrameOf(root, hi) else if u1[x] == FrameOf(root, hi) then Held else u1[x];
    assert u2[x] == f[x] || (f[x] == Free(true) && u2[x].TableOf? && u2[x].key.root == root);
    hide Reframed, Spread;
  }

  lemma GrowsUses(p0: map<int, Page>, u0: map<int, Use>, t0: map<Key, int>,
                  p1: map<int, Page>, u1: map<int, Use>, t1: map<Key, int>,
                  p2: map<int, Page>, u2: map<int, Use>, t2: map<Key, int>, root: int, lo: nat, hi: nat,
                  a: uint64, zeros: Page)
    requires GrowsBy(p0, u0, t0, p1, u1, t1, p2, u2, t2, root, lo, hi, a, zeros)
    ensures u2.Keys == u0.Keys && p2.Keys == p0.Keys
    ensures (forall k :: k in t0 ==> k in t2) && (forall k :: k in t2 && k !in t0 ==> k.root == root && k.level < 2)
    ensures forall x :: x in u0 ==> UseAfter(u0[x], u2[x], root, lo, lo, hi + 1)
    ensures forall x :: x in u0 && x in p0 && (u0[x].FrameOf? || u0[x].Held?) ==> p2[x] == p0[x]
  {
    hide Walk, FramesOk, MakePte, AllZero, SameWalks, OneWalk, FreshZero, UseAfter, Reframed;
    GrowsKeys(p0, u0, t0, p1, u1, t1, p2, u2, t2, root, lo, hi, a, zeros);
    forall x | x in u0
      ensures UseAfter(u0[x], u2[x], root, lo, lo, hi + 1)
      ensures x in p0 && (u0[x].FrameOf? || u0[x].Held?) ==> p2[x] == p0[x]
    {
      GrowsUse(p0, u0, t0, p1, u1, t1, p2, u2, t2, root, lo, hi, a, zeros, x);
    }
  }

  lemma ExtendOne(p0: map<int, Page>, u0: map<int, Use>, t0: map<Key, int>,
                  p1: map<int, Page>, u1: map<int, Use>, t1: map<Key, int>,
                  p2: map<int, Page>, u2: map<int, Use>, t2: map<Key, int>, root: int, lo: nat, hi: nat,
                  a: uint64, zeros: Page)
    requires AllZero(zeros) && GrownOver(p0, u0, t0, p1, u1, t1, root, lo, lo, hi) && FramesOk(p1, u1, t1)
    requires u0.Keys == p0.Keys && RootKey(root) in t0 && lo <= hi < VPN_MAX && hi <= TRAPFRAME_VPN
    requires a in u1 && u1[a] == Free(false) && a % 4096 == 0
    requires SameWalks(p1, p1[a := zeros], t1)
    requires OneWalk(p1[a := zeros], p2, t1, root, hi, MakePte(a, RWU))
    requires Spread(p1[a := zeros], Reframed(u1[a := Held], root, hi, a), t1, p2, u2, t2, root)
    ensures GrownOver(p0, u0, t0, p2, u2, t2, root, lo, lo, hi + 1)
  {
    hide Walk, FramesOk, MakePte, AllZero, SameWalks, OneWalk, FreshZero, Spread;
    assert GrowsBy(p0, u0, t0, p1, u1, t1, p2, u2, t2, root, lo, hi, a, zeros);
    GrowsUses(p0, u0, t0, p1, u1, t1, p2, u2, t2, root, lo, hi, a, zeros);
    forall r, v: nat | RootKey(r) in t0 && v < VPN_MAX && !(r == root && lo <= v < hi + 1)
      ensures Walk(p2, r, v) == Walk(p0, r, v)
    {
      GrowsWalk(p0, u0, t0, p1, u1, t1, p2, u2, t2, root, lo, hi, a, zeros, r, v);
    }
    forall v: nat | lo <= v < hi + 1 ensures FreshZero(p0, u0, p2, root, v) {
      if v < hi {
        GrowsOld(p0, u0, t0, p1, u1, t1, p2, u2, t2, root, lo, hi, a, zeros, v);
      } else {
        GrowsNew(p0, u0, t0, p1, u1, t1, p2, u2, t2, root, lo, hi, a, zeros);
      }
    }
  }

  lemma ShrinkOne(p0: map<int, Page>, u0: map<int, Use>, t0: map<Key, int>,
                  p1: map<int, Page>, u1: map<int, Use>, t1: map<Key, int>,
                  p2: map<int, Page>, root: int, lo: nat, mid: nat, hi: nat)
    requires GrownOver(p0, u0, t0, p1, u1, t1, root, lo, mid, hi) && FramesOk(p1, u1, t1)
    requires RootKey(root) in t0 && lo <= mid < hi <= TRAPFRAME_VPN && u0.Keys == p0.Keys
    requires OneWalk(p1, p2, t1, root, mid, 0)
    requires p2.Keys == p1.Keys
    requires var u2 := u1[PteToPa(Walk(p1, root, mid)) := Free(false)];
      forall b :: b in u1 && (u2[b].FrameOf? || u2[b].Held?) && b in p1 ==> p2[b] == p1[b]
    ensures GrownOver(p0, u0, t0, p2, u1[PteToPa(Walk(p1, root, mid)) := Free(false)], t1, root, lo, mid + 1, hi)
  {
    hide FreshZero, IsLeaf, PteToPa, Walk;
    var a := PteToPa(Walk(p1, root, mid));
    var u2 := u1[a := Free(false)];
    FreshFrame(p0, u0, p1, u1, t1, root, mid);
    forall v: nat | mid + 1 <= v < hi ensures FreshZero(p0, u0, p2, root, v) {
      assert RootKey(root) in t1 && Walk(p2, root, v) == Walk(p1, root, v);
      FreshFrame(p0, u0, p1, u1, t1, root, v);
      FreshStays(p0, u0, p1, p2, root, v);
    }
    forall v: nat | lo <= v < mid + 1 ensures Walk(p2, root, v) == 0 {
      assert RootKey(root) in t1;
    }
    forall b | b in u0 ensures UseAfter(u0[b], u2[b], root, lo, mid + 1, hi) {
      if b in u1 && u1[b] == FrameOf(root, mid) { assert OwnerOk(p1, u1, t1, b); }
      assert UseAfter(u0[b], u1[b], root, lo, mid, hi);
    }
  }

  /** A fresh page's frame is a user page that was free. */
  lemma FreshFrame(p0: map<int, Page>, u0: map<int, Use>, p1: map<int, Page>, u1: map<int, Use>, t1: map<Key, int>,
                   root: int, v: nat)
    requires FreshZero(p0, u0, p1, root, v) && FramesOk(p1, u1, t1) && RootKey(root) in t1 && v < TRAPFRAME_VPN
    ensures var a := PteToPa(Walk(p1, root, v));
            a in u0 && u0[a] == Free(false) && a in u1 && u1[a] == FrameOf(root, v) && a in p1
    ensures IsValid(Walk(p1, root, v))
  {
    hide IsLeaf, PteToPa, Walk;
    assert !IsValid(0);
    assert FrameAt(p1, u1, root, v);
  }

  lemma FreshStays(p0: map<int, Page>, u0: map<int, Use>, p1: map<int, Page>, p2: map<int, Page>, root: int, v: nat)
    requires FreshZero(p0, u0, p1, root, v) && Walk(p2, root, v) == Walk(p1, root, v)
    requires FrameFor(p1, root, v) in p2 && p2[FrameFor(p1, root, v)] == p1[FrameFor(p1, root, v)]
    ensures FreshZero(p0, u0, p2, root, v)
  {
    hide Walk, AllZero, PteToPa;
  }

  /** State 1 is state 0 with the pages [lo, hi) of `root` unmapped, their frames returned to the user pool. */
  ghost predicate Cut(p0: map<int, Page>, u0: map<int, Use>, p1: map<int, Page>, u1: map<int, Use>, tbl: map<Key, int>,
                      root: int, lo: nat, hi: nat) {
    && u1.Keys == u0.Keys && p1.Keys == p0.Keys
    && (forall r, v: nat :: RootKey(r) in tbl && v < VPN_MAX ==>
          if r == root && lo <= v < hi then !IsValid(Walk(p1, r, v)) else Walk(p1, r, v) == Walk(p0, r, v))
    && (forall a :: a in u0 ==>
          u1[a] == if u0[a].FrameOf? && u0[a].root == root && lo <= u0[a].vpn < hi then Free(false) else u0[a])
    && (forall a :: a in u1 && a in p0 && (u1[a].FrameOf? || u1[a].Held?) ==> p1[a] == p0[a])
  }

  ghost function FreeUserPages(use: map<int, Use>): set<int> {
    set a | a in use && use[a] == Free(false)
  }

  /** A growth in terms of byte addresses: which pages change, and that no byte of the heap goes missing. */
  lemma GrownBytes(p0: map<int, Page>, u0: map<int, Use>, t0: map<Key, int>,
                   p1: map<int, Page>, u1: map<int, Use>, t1: map<Key, int>,
                   root: int, heapTop: nat, len: nat, mid: nat, hi: nat)
    requires GrownOver(p0, u0, t0, p1, u1, t1, root, TopPage(heapTop), mid, hi) && RootKey(root) in t0
    requires TopPage(heapTop) <= mid <= hi <= TopPage(heapTop + len) <= TRAPFRAME_VPN
    ensures forall r, v: nat ::
      RootKey(r) in t0 && v < VPN_MAX && !(r == root && heapTop <= v * 4096 < heapTop + len)
      ==> Walk(p1, r, v) == Walk(p0, r, v)
    ensures mid == TopPage(heapTop) && hi == TopPage(heapTop + len) ==>
      forall v: nat :: heapTop <= v * 4096 < heapTop + len ==> FreshZero(p0, u0, p1, root, v)
    ensures HeapMapped(p0, root, heapTop) ==> HeapMapped(p1, root, heapTop)
    ensures HeapMapped(p0, root, heapTop) && mid == TopPage(heapTop) && hi == TopPage(heapTop + len) ==>
      HeapMapped(p1, root, heapTop + len)
  {
    hide TopPage, Walk, FreshZero, HeapMapped;
    forall r, v: nat | RootKey(r) in t0 && v < VPN_MAX && !(r == root && heapTop <= v * 4096 < heapTop + len)
      ensures Walk(p1, r, v) == Walk(p0, r, v)
    {
      TopPageIs(heapTop, v);
      TopPageIs(heapTop + len, v);
    }
    if mid == TopPage(heapTop) && hi == TopPage(heapTop + len) {
      forall v: nat | heapTop <= v * 4096 < heapTop + len ensures FreshZero(p0, u0, p1, root, v) {
        TopPageIs(heapTop, v);
        TopPageIs(heapTop + len, v);
      }
    }
    hide GrownOver;
    if HeapMapped(p0, root, heapTop) {
      HeapStays(p0, u0, t0, p1, root, heapTop, len);
    }
  }

  lemma HeapStays(p0: map<int, Page>, u0: map<int, Use>, t0: map<Key, int>, p1: map<int, Page>,
                  root: int, heapTop: nat, len: nat)
    requires HeapMapped(p0, root, heapTop) && RootKey(root) in t0 && TopPage(heapTop + len) <= TRAPFRAME_VPN
    requires forall v: nat :: v < VPN_MAX && !(heapTop <= v * 4096 < heapTop + len) ==>
      Walk(p1, root, v) == Walk(p0, root, v)
    ensures HeapMapped(p1, root, heapTop)
    ensures (forall v: nat :: heapTop <= v * 4096 < heapTop + len ==> FreshZero(p0, u0, p1, root, v)) ==>
      HeapMapped(p1, root, heapTop + len)
  {
    hide TopPage, Walk, IsValid, FreshZero;
    forall v: nat | v * 4096 < heapTop ensures IsValid(Walk(p1, root, v)) {
      PageStart(v);
      TopPageIs(heapTop + len, v);
      assert IsValid(Walk(p0, root, v * 4096 / 4096));
    }
    forall va: nat | va < heapTop ensures IsValid(Walk(p1, root, va / 4096)) {
      TopPageIs(va, va / 4096);
    }
    if forall v: nat :: heapTop <= v * 4096 < heapTop + len ==> FreshZero(p0, u0, p1, root, v) {
      forall va: nat | va < heapTop + len ensures IsValid(Walk(p1, root, va / 4096)) {
        TopPageIs(va, va / 4096);
        if heapTop <= va / 4096 * 4096 { FreshIsValid(p0, u0, p1, root, va / 4096); }
      }
    }
  }

  /** What a fresh page is: V, R, W and U set, and a frame of zeros that was a free user page. */
  lemma FreshMeans(p0: map<int, Page>, u0: map<int, Use>, p1: map<int, Page>, root: int, v: nat)
    requires FreshZero(p0, u0, p1, root, v)
    ensures var w := Walk(p1, root, v); var frame := PteToPa(w);
      && w % 1024 == 23 && frame in u0 && u0[frame] == Free(false)
      && frame in p1 && p1[frame] == Bytes(seq(4096, _ => 0))
  {
    hide Walk, PteToPa;
    var frame := PteToPa(Walk(p1, root, v));
    assert p1[frame].bytes == seq(4096, _ => 0);
  }

  lemma FreshIsValid(p0: map<int, Page>, u0: map<int, Use>, p1: map<int, Page>, root: int, v: nat)
    requires FreshZero(p0, u0, p1, root, v)
    ensures IsValid(Walk(p1, root, v))
  {
  }

  /** How many pages a growth takes: those that start in its range. */
  lemma PagesOfGrowth(heapTop: nat, len: nat)
    ensures GrowPages(heapTop, len) == |set v: nat | v < heapTop + len && heapTop <= v * 4096 < heapTop + len|
  {
    var pages := set v: nat | v < heapTop + len && heapTop <= v * 4096 < heapTop + len;
    forall v: nat ensures v in pages <==> TopPage(heapTop) <= v < TopPage(heapTop + len) {
      TopPageIs(heapTop, v);
      TopPageIs(heapTop + len, v);
    }
    RangeSize(pages, TopPage(heapTop), TopPage(heapTop + len));
  }

  lemma {:induction false} RangeSize(s: set<nat>, lo: nat, hi: nat)
    requires lo <= hi && forall v: nat :: v in s <==> lo <= v < hi
    ensures |s| == hi - lo
  {
    if lo < hi {
      RangeSize(s - {hi - 1}, lo, hi - 1);
      assert s == s - {hi - 1} + {hi - 1};
    } else {
      assert s == {};
    }
  }

  /** A cut in terms of byte addresses. */
  lemma CutBytes(p0: map<int, Page>, u0: map<int, Use>, p1: map<int, Page>, u1: map<int, Use>, tbl: map<Key, int>,
                 root: int, newTop: nat, heapTop: nat)
    requires Cut(p0, u0, p1, u1, tbl, root, TopPage(newTop), TopPage(heapTop)) && RootKey(root) in tbl
    requires newTop <= heapTop && TopPage(heapTop) <= TRAPFRAME_VPN
    ensures forall r, v: nat :: RootKey(r) in tbl && v < VPN_MAX ==>
      if r == root && newTop <= v * 4096 < heapTop then !IsValid(Walk(p1, r, v)) else Walk(p1, r, v) == Walk(p0, r, v)
    ensures HeapMapped(p0, root, heapTop) ==> HeapMapped(p1, root, newTop)
  {
    hide TopPage, Walk, IsValid;
    forall r, v: nat | RootKey(r) in tbl && v < VPN_MAX
      ensures if r == root && newTop <= v * 4096 < heapTop then !IsValid(Walk(p1, r, v))
              else Walk(p1, r, v) == Walk(p0, r, v)
    {
      TopPageIs(newTop, v);
      TopPageIs(heapTop, v);
    }
    hide Cut;
    forall va: nat | va < newTop ensures Walk(p1, root, va / 4096) == Walk(p0, root, va / 4096) {
      TopPageIs(va, va / 4096);
      TopPageIs(heapTop, va / 4096);
    }
  }

  /** What is left of a growth once every added page is rolled back: nothing. */
  lemma NothingExtended(p0: map<int, Page>, u0: map<int, Use>, t0: map<Key, int>,
                        p1: map<int, Page>, u1: map<int, Use>, t1: map<Key, int>, root: int, hi: nat)
    requires Extended(p0, u0, t0, p1, u1, t1, root, hi, hi)
    ensures SameWalks(p0, p1, t0)
    ensures FreeUserPages(u1) == FreeUserPages(u0)
    ensures forall a :: a in u0 && a in p0 && u0[a].FrameOf? ==> u1[a] == u0[a] && p1[a] == p0[a]
  {
    forall a ensures a in FreeUserPages(u1) <==> a in FreeUserPages(u0) {
      if a in u0 { assert u1[a] == u0[a] || u0[a] == Free(true); }
    }
  }

  /**
   * Growing and then shrinking over the same page range gives every page
   * index its old translation, the user pool its old pages, and every frame
   * its old owner and bytes.
   */
  lemma GrowThenShrinkRestores(p0: map<int, Page>, u0: map<int, Use>, t0: map<Key, int>,
                               p1: map<int, Page>, u1: map<int, Use>, t1: map<Key, int>,
                               p2: map<int, Page>, u2: map<int, Use>, root: int, lo: nat, hi: nat)
    requires Extended(p0, u0, t0, p1, u1, t1, root, lo, hi) && FramesOk(p0, u0, t0) && FramesOk(p1, u1, t1)
    requires Cut(p1, u1, p2, u2, t1, root, lo, hi) && hi <= TRAPFRAME_VPN && u0.Keys == p0.Keys
    requires forall v: nat :: lo <= v < hi ==> !IsValid(Walk(p0, root, v))
    ensures forall r, v: nat :: RootKey(r) in t0 && v < VPN_MAX ==>
      Walk(p2, r, v) == Walk(p0, r, v) || (!IsValid(Walk(p2, r, v)) && !IsValid(Walk(p0, r, v)))
    ensures FreeUserPages(u2) == FreeUserPages(u0)
    ensures forall a :: a in u0 && u0[a].FrameOf? ==> u2[a] == u0[a] && p2[a] == p0[a]
  {
    forall r, v: nat | RootKey(r) in t0 && v < VPN_MAX
      ensures Walk(p2, r, v) == Walk(p0, r, v) || (!IsValid(Walk(p2, r, v)) && !IsValid(Walk(p0, r, v)))
    {
      if !(r == root && lo <= v < hi) {
        assert Walk(p1, r, v) == Walk(p0, r, v);
        assert Walk(p2, r, v) == Walk(p1, r, v);
      } else {
        assert RootKey(r) in t1;
      }
    }
    forall a | a in u0 && u0[a].FrameOf? ensures u2[a] == u0[a] && p2[a] == p0[a] {
      assert OwnerOk(p0, u0, t0, a);
    }
    forall a ensures a in FreeUserPages(u2) <==> a in FreeUserPages(u0) {
      if a in u0 && u0[a].FrameOf? {
        assert OwnerOk(p0, u0, t0, a);
      }
    }
  }

  // ---------- the loops ----------

  /** What uvm_heap_grow answers; `NoTable` stands for the kernel pool running out while a table is made. */
  datatype HeapResult = Top(addr: nat) | NoTable

  /** The rollback loop of uvm_heap_grow. */
  method RollBack(m: Memory, root: int, lo: nat, hi: nat,
                  ghost p0: map<int, Page>, ghost u0: map<int, Use>, ghost t0: map<Key, int>)
    requires UserOk(m) && RootKey(root) in t0 && RootKey(root) in m.tbl && lo <= hi <= TRAPFRAME_VPN
    requires u0.Keys == p0.Keys && GrownOver(p0, u0, t0, m.pages, m.use, m.tbl, root, lo, lo, hi)
    modifies m
    ensures UserOk(m) && m.tbl == old(m.tbl) && m.kern == old(m.kern)
    ensures GrownOver(p0, u0, t0, m.pages, m.use, m.tbl, root, lo, hi, hi)
  {
    hide PoolsOk, TreeOk, FramesOk, IsValid, PteToPa, GrownOver, Walk;
    for v := lo to hi
      invariant UserOk(m) && m.tbl == old(m.tbl) && m.kern == old(m.kern)
      invariant GrownOver(p0, u0, t0, m.pages, m.use, m.tbl, root, lo, v, hi)
    {
      GrownPage(p0, u0, t0, m.pages, m.use, m.tbl, root, lo, v, hi);
      PageStart(v);
      ghost var p1, u1 := m.pages, m.use;
      UnmapFrame(m, root, v * 4096, v);
      ShrinkOne(p0, u0, t0, p1, u1, m.tbl, m.pages, root, lo, v, hi);
    }
  }

  lemma GrownPage(p0: map<int, Page>, u0: map<int, Use>, t0: map<Key, int>,
                  p1: map<int, Page>, u1: map<int, Use>, t1: map<Key, int>, root: int, lo: nat, mid: nat, hi: nat)
    requires GrownOver(p0, u0, t0, p1, u1, t1, root, lo, mid, hi) && mid < hi
    ensures IsValid(Walk(p1, root, mid)) && p1.Keys == p0.Keys && u1.Keys == u0.Keys
  {
    assert FreshZero(p0, u0, p1, root, mid);
  }

  /** The body of the loop of uvm_heap_grow when the user pool is not empty. */
  method GrowOne(m: Memory, root: int, v: nat, zeros: seq<bv8>,
                 ghost p0: map<int, Page>, ghost u0: map<int, Use>, ghost t0: map<Key, int>, ghost lo: nat)
    returns (ok: bool)
    requires UserOk(m) && RootKey(root) in t0 && RootKey(root) in m.tbl && lo <= v < TRAPFRAME_VPN
    requires AllZero(Bytes(zeros)) && m.user.allocable > 0
    requires u0.Keys == p0.Keys && GrownOver(p0, u0, t0, m.pages, m.use, m.tbl, root, lo, lo, v)
    modifies m
    ensures Ok(m) && (ok ==> UserOk(m))
    ensures RootKey(root) in m.tbl
    ensures ok ==> GrownOver(p0, u0, t0, m.pages, m.use, m.tbl, root, lo, lo, v + 1)
    ensures m.user.allocable == old(m.user).allocable - 1
    ensures m.kern.allocable >= old(m.kern).allocable - 2
    ensures old(m.kern).allocable >= 2 ==> ok
  {
    ghost var p1, u1, t1 := m.pages, m.use, m.tbl;
    PageStart(v);
    ReadWriteUser();
    PoolsBasics(m.pages, m.use, m.kern, m.kfree, m.user, m.ufree);
    hide PoolsOk, TreeOk, FramesOk, GrownOver, Spread, Reframed, OneWalk, Walk, AllZero, PagesOk, HasAccess, IsValid,
        MakePte;
    var a := AllocFilled(m, zeros);
    assert AddressOk(a) by { PageIsAligned(p1, a); }
    hide SameWalks;
    ok := MapFrame(m, root, v * 4096, v, a, RWU);
    if ok {
      ExtendOne(p0, u0, t0, p1, u1, t1, m.pages, m.use, m.tbl, root, lo, v, a, Bytes(zeros));
    }
  }

  lemma NothingGrown(p: map<int, Page>, u: map<int, Use>, t: map<Key, int>, root: int, lo: nat)
    ensures GrownOver(p, u, t, p, u, t, root, lo, lo, lo)
  {
  }

  lemma ReadWriteUser()
    ensures RWU == PTE_R + PTE_W + PTE_U && HasAccess(RWU) && !IsValid(0)
  {
  }

  lemma PageStart(v: nat)
    ensures v * 4096 / 4096 == v
  {
  }

  lemma PageIsAligned(pages: map<int, Page>, a: int)
    requires PagesOk(pages) && a in pages
    ensures AddressOk(a)
  {
  }

  /**
   * The allocation loop of uvm_heap_grow: it stops at the end of the range, at
   * an empty user pool, or without a table.
   */
  method GrowAll(m: Memory, root: int, lo: nat, hi: nat) returns (v: nat, ok: bool)
    requires UserOk(m) && RootKey(root) in m.tbl && lo <= hi <= TRAPFRAME_VPN
    modifies m
    ensures Ok(m) && (ok ==> UserOk(m)) && RootKey(root) in m.tbl
    ensures lo <= v <= hi
    ensures ok ==> GrownOver(old(m.pages), old(m.use), old(m.tbl), m.pages, m.use, m.tbl, root, lo, lo, v)
    ensures ok ==> m.user.allocable == old(m.user).allocable - (v - lo) && (v < hi ==> m.user.allocable == 0)
    ensures old(m.kern).allocable >= 2 * (hi - lo) ==> ok
  {
    hide PoolsOk, TreeOk, FramesOk, Walk, GrownOver;
    PoolsBasics(m.pages, m.use, m.kern, m.kfree, m.user, m.ufree);
    NothingGrown(m.pages, m.use, m.tbl, root, lo);
    var zeros: seq<bv8> := seq(4096, _ => 0);
    v, ok := lo, true;
    while ok && v < hi && m.user.allocable != 0
      invariant lo <= v <= hi
      invariant Ok(m) && (ok ==> UserOk(m)) && RootKey(root) in m.tbl
      invariant ok ==> GrownOver(old(m.pages), old(m.use), old(m.tbl), m.pages, m.use, m.tbl, root, lo, lo, v)
      invariant ok ==> m.user.allocable == old(m.user).allocable - (v - lo)
      invariant ok ==> m.kern.allocable >= old(m.kern).allocable - 2 * (v - lo)
      invariant old(m.kern).allocable >= 2 * (hi - lo) ==> ok
      decreases if ok then hi - v + 1 else 0
    {
      ok := GrowOne(m, root, v, zeros, old(m.pages), old(m.use), old(m.tbl), lo);
      if ok {
        v := v + 1;
      }
    }
  }

  /** How far a growth comes: to its end, or to where the user pool is empty. */
  function Reached(heapTop: nat, len: nat, freePages: nat): nat {
    TopPage(heapTop) + if GrowPages(heapTop, len) <= freePages then GrowPages(heapTop, len) else freePages
  }

  /**
   * uvm_heap_grow. With kernel pages for the tables, it either maps the whole
   * range or unmaps again what it reached, which depends on the size of the
   * user pool alone. Frames that pages of the range had before are lost; where
   * nothing was mapped, a failure leaves mapping, frames and free user pages
   * as they were.
   */
  method UvmHeapGrow(m: Memory, root: int, heapTop: nat, len: nat) returns (r: HeapResult)
    requires UserOk(m) && RootKey(root) in m.tbl && TopPage(heapTop + len) <= TRAPFRAME_VPN
    modifies m
    ensures Ok(m) && (r.Top? ==> UserOk(m)) && RootKey(root) in m.tbl
    ensures old(m.kern).allocable >= 2 * GrowPages(heapTop, len) ==> r.Top?
    ensures r.Top? ==> r.addr == if GrowPages(heapTop, len) <= old(m.user).allocable then heapTop + len else heapTop
    ensures r.Top? && r.addr == heapTop + len ==>
      forall v: nat :: heapTop <= v * 4096 < heapTop + len ==>
        var w := Walk(m.pages, root, v); var frame := PteToPa(w);
        && w % 1024 == 23 && frame in old(m.use) && old(m.use)[frame] == Free(false)
        && frame in m.pages && m.pages[frame] == Bytes(seq(4096, _ => 0))
    ensures r.Top? ==>
      forall q, v: nat ::
        RootKey(q) in old(m.tbl) && v < VPN_MAX && !(q == root && heapTop <= v * 4096 < heapTop + len)
        ==> Walk(m.pages, q, v) == Walk(old(m.pages), q, v)
    ensures r.Top? && HeapMapped(old(m.pages), root, heapTop) ==> HeapMapped(m.pages, root, r.addr)
    ensures r.Top? ==>
      var end := Reached(heapTop, len, old(m.user).allocable);
      GrownOver(old(m.pages), old(m.use), old(m.tbl), m.pages, m.use, m.tbl, root, TopPage(heapTop),
                if GrowPages(heapTop, len) <= old(m.user).allocable then TopPage(heapTop) else end, end)
    ensures r.Top? && Vacant(old(m.pages), root, TopPage(heapTop), TopPage(heapTop + len)) ==>
      Extended(old(m.pages), old(m.use), old(m.tbl), m.pages, m.use, m.tbl, root,
        if GrowPages(heapTop, len) <= old(m.user).allocable then TopPage(heapTop) else TopPage(heapTop + len),
        TopPage(heapTop + len))
  {
    hide PoolsOk, TreeOk, FramesOk, Walk, Extended, GrownOver, Vacant, HeapMapped, FreshZero;
    PoolsBasics(m.pages, m.use, m.kern, m.kfree, m.user, m.ufree);
    var lo, hi := TopPage(heapTop), TopPage(heapTop + len);
    var v, ok := GrowAll(m, root, lo, hi);
    if ok && v < hi {
      RollBack(m, root, lo, v, old(m.pages), old(m.use), old(m.tbl));
    }
    if ok {
      GrownBytes(old(m.pages), old(m.use), old(m.tbl), m.pages, m.use, m.tbl, root, heapTop, len,
                 if v < hi then v else lo, v);
      forall x: nat | FreshZero(old(m.pages), old(m.use), m.pages, root, x)
        ensures var w := Walk(m.pages, root, x); var frame := PteToPa(w);
          && w % 1024 == 23 && frame in old(m.use) && old(m.use)[frame] == Free(false)
          && frame in m.pages && m.pages[frame] == Bytes(seq(4096, _ => 0))
      {
        FreshMeans(old(m.pages), old(m.use), m.pages, root, x);
      }
    }
    if ok && Vacant(old(m.pages), root, lo, hi) {
      VacantPart(old(m.pages), root, lo, v, hi);
      GrownOverNothing(old(m.pages), old(m.use), old(m.tbl), m.pages, m.use, m.tbl, root, lo,
                       if v < hi then v else lo, v);
      if v < hi { NarrowEmpty(old(m.pages), old(m.use), old(m.tbl), m.pages, m.use, m.tbl, root, v, hi); }
    }
    return if !ok then NoTable else if v < hi then Top(heapTop) else Top(heapTop + len);
  }

  lemma NarrowEmpty(p0: map<int, Page>, u0: map<int, Use>, t0: map<Key, int>,
                    p1: map<int, Page>, u1: map<int, Use>, t1: map<Key, int>, root: int, v: nat, hi: nat)
    requires Extended(p0, u0, t0, p1, u1, t1, root, v, v)
    ensures Extended(p0, u0, t0, p1, u1, t1, root, hi, hi)
  {
  }

  // ---------- shrinking ----------

  /** The unsigned subtraction and the underflow check of uvm_heap_ungrow. */
  function ShrunkTop(heapTop: uint64, len: nat): nat {
    var t := (heapTop - len) % TWO64;
    if t > heapTop then 0 else t
  }

  lemma ShrunkTopIs(heapTop: uint64, len: nat)
    requires len < 0x1_0000_0000 && heapTop + 0x1_0000_0000 < TWO64
    ensures ShrunkTop(heapTop, len) == if len <= heapTop then heapTop - len else 0
  {
  }

  lemma CutOne(p0: map<int, Page>, u0: map<int, Use>, p1: map<int, Page>, u1: map<int, Use>, tbl: map<Key, int>,
               p2: map<int, Page>, u2: map<int, Use>, root: int, lo: nat, hi: nat)
    requires Cut(p0, u0, p1, u1, tbl, root, lo, hi) && FramesOk(p1, u1, tbl) && hi < TRAPFRAME_VPN
    requires RootKey(root) in tbl && lo <= hi && p2.Keys == p1.Keys == u1.Keys
    requires if !IsValid(Walk(p1, root, hi)) then p2 == p1 && u2 == u1
      else OneWalk(p1, p2, tbl, root, hi, 0) && u2 == u1[FrameFor(p1, root, hi) := Free(false)]
    requires forall b :: b in u2 && (u2[b].FrameOf? || u2[b].Held?) && b in p2 ==> p2[b] == p1[b]
    ensures Cut(p0, u0, p2, u2, tbl, root, lo, hi + 1)
  {
    if IsValid(Walk(p1, root, hi)) {
      assert FrameAt(p1, u1, root, hi);
    }
    assert !IsValid(0);
    forall a | a in u1 && u1[a].FrameOf? && u1[a].root == root && u1[a].vpn == hi
      ensures IsValid(Walk(p1, root, hi)) && a == FrameFor(p1, root, hi)
    {
      assert OwnerOk(p1, u1, tbl, a);
    }
  }

  /** uvm_heap_ungrow: the pages above the new top are unmapped and exactly their frames come back. */
  method UvmHeapUngrow(m: Memory, root: int, heapTop: uint64, len: nat) returns (newTop: nat)
    requires UserOk(m) && RootKey(root) in m.tbl && TopPage(heapTop) <= TRAPFRAME_VPN
    modifies m
    ensures UserOk(m) && m.tbl == old(m.tbl) && m.kern == old(m.kern)
    ensures newTop == ShrunkTop(heapTop, len) <= heapTop
    ensures Cut(old(m.pages), old(m.use), m.pages, m.use, m.tbl, root, TopPage(newTop), TopPage(heapTop))
    ensures forall q, v: nat :: RootKey(q) in m.tbl && v < VPN_MAX ==>
      if q == root && newTop <= v * 4096 < heapTop then !IsValid(Walk(m.pages, q, v))
      else Walk(m.pages, q, v) == Walk(old(m.pages), q, v)
    ensures HeapMapped(old(m.pages), root, heapTop) ==> HeapMapped(m.pages, root, newTop)
  {
    newTop := (heapTop - len) % TWO64;
    if newTop > heapTop {
      newTop := 0;
    }
    var lo, hi := TopPage(newTop), TopPage(heapTop);
    assert lo <= hi && m.use.Keys == m.pages.Keys;
    hide PoolsOk, TreeOk, FramesOk, Walk, Cut, HeapMapped;
    CutAll(m, root, lo, hi);
    CutBytes(old(m.pages), old(m.use), m.pages, m.use, m.tbl, root, newTop, heapTop);
  }

  /** The loop of uvm_heap_ungrow. */
  method CutAll(m: Memory, root: int, lo: nat, hi: nat)
    requires UserOk(m) && RootKey(root) in m.tbl && lo <= hi <= TRAPFRAME_VPN
    modifies m
    ensures UserOk(m) && m.tbl == old(m.tbl) && m.kern == old(m.kern)
    ensures Cut(old(m.pages), old(m.use), m.pages, m.use, m.tbl, root, lo, hi)
  {
    for v := lo to hi
      invariant UserOk(m) && m.tbl == old(m.tbl) && m.kern == old(m.kern)
      invariant Cut(old(m.pages), old(m.use), m.pages, m.use, m.tbl, root, lo, v)
    {
      CutPage(m, root, v, lo, old(m.pages), old(m.use));
    }
  }

  method CutPage(m: Memory, root: int, v: nat, ghost lo: nat, ghost p0: map<int, Page>, ghost u0: map<int, Use>)
    requires UserOk(m) && RootKey(root) in m.tbl && lo <= v < TRAPFRAME_VPN
    requires Cut(p0, u0, m.pages, m.use, m.tbl, root, lo, v)
    modifies m
    ensures UserOk(m) && m.tbl == old(m.tbl) && m.kern == old(m.kern)
    ensures Cut(p0, u0, m.pages, m.use, m.tbl, root, lo, v + 1)
  {
    ghost var p1, u1 := m.pages, m.use;
    assert u1.Keys == p1.Keys;
    PageStart(v);
    hide PoolsOk, TreeOk, FramesOk, IsValid, PteToPa, Walk, OneWalk, Cut;
    UnmapFrame(m, root, v * 4096, v);
    CutOne(p0, u0, p1, u1, m.tbl, m.pages, m.use, root, lo, v);
  }

  // ---------- sys_brk ----------

  /** Nothing is mapped between the rounded-up heap top and the stack, which starts at page `stack`. */
  ghost predicate GapIsEmpty(pages: map<int, Page>, root: int, heapTop: nat, stack: nat) {
    forall v: nat :: TopPage(heapTop) <= v < stack ==> Walk(pages, root, v) == 0
  }

  lemma GapAfterCut(p0: map<int, Page>, u0: map<int, Use>, p1: map<int, Page>, u1: map<int, Use>, tbl: map<Key, int>,
                    root: int, top: nat, newTop: nat, stack: nat)
    requires Cut(p0, u0, p1, u1, tbl, root, TopPage(newTop), TopPage(top)) && FramesOk(p1, u1, tbl)
    requires GapIsEmpty(p0, root, top, stack) && newTop <= top && stack <= TRAPFRAME_VPN && RootKey(root) in tbl
    ensures GapIsEmpty(p1, root, newTop, stack)
  {
    forall v: nat | TopPage(newTop) <= v < stack ensures Walk(p1, root, v) == 0 {
      assert Walk(p1, root, v) == 0 || FrameAt(p1, u1, root, v);
      assert v < TopPage(top) || Walk(p1, root, v) == Walk(p0, root, v);
    }
  }

  /** The heap top may follow the growth or stay; staying leaves the gap empty only when nothing was mapped. */
  lemma GapAfterGrowth(p0: map<int, Page>, u0: map<int, Use>, t0: map<Key, int>,
                       p1: map<int, Page>, u1: map<int, Use>, t1: map<Key, int>,
                       root: int, lo: nat, hi: nat, top: nat, newTop: nat, stack: nat)
    requires Extended(p0, u0, t0, p1, u1, t1, root, lo, hi) && RootKey(root) in t0 && stack <= TRAPFRAME_VPN
    requires GapIsEmpty(p0, root, top, stack) && TopPage(top) <= lo <= hi <= stack
    ensures TopPage(newTop) >= hi ==> GapIsEmpty(p1, root, newTop, stack)
    ensures GapIsEmpty(p1, root, top, stack) <==> lo == hi
  {
    ReadWriteUser();
    if lo < hi {
      assert FreshZero(p0, u0, p1, root, lo);
      assert Walk(p1, root, lo) != 0;
    }
  }

  class Process {
    var pgtbl: int
    var heapTop: uint64

    constructor (pgtbl: int, heapTop: uint64)
      ensures this.pgtbl == pgtbl && this.heapTop == heapTop
    {
      this.pgtbl, this.heapTop := pgtbl, heapTop;
    }
  }

  /** The answer of sys_brk; `Failed` is -1. */
  datatype BrkResult = Brk(top: nat) | Failed | NoTablePages

  /** The 32-bit length that the heap functions receive for a requested change. */
  function Truncated(size: nat): nat {
    size % 0x1_0000_0000
  }

  /** Pages that a growth by `len` has to map. */
  function GrowPages(top: nat, len: nat): nat {
    TopPage(top + len) - TopPage(top)
  }

  /** A growth that the truncated length turns into mapped pages above an unchanged heap top. */
  predicate BrkLeaks(oldTop: nat, newBrk: nat, freePages: nat) {
    && newBrk >= oldTop + 0x1_0000_0000
    && 0 < GrowPages(oldTop, Truncated(newBrk - oldTop)) <= freePages
  }

  lemma BrkArithmetic(top: nat, newBrk: nat)
    requires newBrk > top
    ensures var len := Truncated(newBrk - top);
      && (top + len == newBrk <==> newBrk - top < 0x1_0000_0000)
      && GrowPages(top, len) == TopPage(top + len) - TopPage(top) >= 0
      && (newBrk - top < 0x1_0000_0000 ==> len == newBrk - top)
  {
  }

  lemma ShrinkArithmetic(top: uint64, newBrk: nat)
    requires TopPage(top) <= TRAPFRAME_VPN
    ensures newBrk < top ==> ShrunkTop(top, Truncated(top - newBrk)) == top - Truncated(top - newBrk)
    ensures newBrk <= top ==> (Truncated(top - newBrk) == top - newBrk <==> top - newBrk < 0x1_0000_0000)
  {
  }

  /** What a finished uvm_heap_grow for a growing sys_brk amounts to, success or failure. */
  lemma BrkOutcome(p0: map<int, Page>, u0: map<int, Use>, t0: map<Key, int>,
                   p1: map<int, Page>, u1: map<int, Use>, t1: map<Key, int>, root: int,
                   top: nat, newBrk: nat, len: nat, freePages: nat, stack: nat, addr: nat)
    requires newBrk > top && len == Truncated(newBrk - top) && RootKey(root) in t0
    requires GapIsEmpty(p0, root, top, stack) && TopPage(top + len) <= stack <= TRAPFRAME_VPN
    requires addr == if GrowPages(top, len) <= freePages then top + len else top
    requires Extended(p0, u0, t0, p1, u1, t1, root,
      if GrowPages(top, len) <= freePages then TopPage(top) else TopPage(top + len), TopPage(top + len))
    ensures addr == newBrk ==>
      && newBrk - top < 0x1_0000_0000 && !BrkLeaks(top, newBrk, freePages)
      && GrowPages(top, newBrk - top) <= freePages
      && Extended(p0, u0, t0, p1, u1, t1, root, TopPage(top), TopPage(newBrk)) && GapIsEmpty(p1, root, newBrk, stack)
    ensures addr != newBrk ==>
      && (GapIsEmpty(p1, root, top, stack) <==> !BrkLeaks(top, newBrk, freePages))
      && (newBrk - top >= 0x1_0000_0000 || GrowPages(top, newBrk - top) > freePages)
      && (!BrkLeaks(top, newBrk, freePages) ==> SameWalks(p0, p1, t0) && FreeUserPages(u1) == FreeUserPages(u0))
  {
    BrkArithmetic(top, newBrk);
    var hi := TopPage(top + len);
    var lo := if GrowPages(top, len) <= freePages then TopPage(top) else hi;
    hide Extended, Walk, TopPage, Truncated, GapIsEmpty, FreeUserPages, SameWalks;
    GapAfterGrowth(p0, u0, t0, p1, u1, t1, root, lo, hi, top, newBrk, stack);
    if lo == hi {
      NothingExtended(p0, u0, t0, p1, u1, t1, root, hi);
    }
  }

  /** The effect of a growth request on memory, whatever the pages above the heap hold. */
  ghost predicate BrkGrows(p0: map<int, Page>, u0: map<int, Use>, t0: map<Key, int>,
                           p1: map<int, Page>, u1: map<int, Use>, t1: map<Key, int>, root: int,
                           top: nat, len: nat, freePages: nat) {
    var end := Reached(top, len, freePages);
    GrownOver(p0, u0, t0, p1, u1, t1, root, TopPage(top), if GrowPages(top, len) <= freePages then TopPage(top)
        else end,
              end)
  }

  /** The call of uvm_heap_grow. */
  method HeapRequest(m: Memory, root: int, top: nat, len: nat, ghost stack: nat) returns (g: HeapResult)
    requires UserOk(m) && RootKey(root) in m.tbl && GapIsEmpty(m.pages, root, top, stack)
    requires TopPage(top + len) <= TRAPFRAME_VPN
    modifies m
    ensures Ok(m) && (g.Top? ==> UserOk(m)) && RootKey(root) in m.tbl
    ensures old(m.kern).allocable >= 2 * GrowPages(top, len) ==> g.Top?
    ensures g.Top? ==> g.addr == if GrowPages(top, len) <= old(m.user).allocable then top + len else top
    ensures g.Top? ==>
      BrkGrows(old(m.pages), old(m.use), old(m.tbl), m.pages, m.use, m.tbl, root, top, len, old(m.user).allocable)
    ensures g.Top? && HeapMapped(old(m.pages), root, top) ==> HeapMapped(m.pages, root, g.addr)
    ensures g.Top? && TopPage(top + len) <= stack ==>
      Extended(old(m.pages), old(m.use), old(m.tbl), m.pages, m.use, m.tbl, root,
        if GrowPages(top, len) <= old(m.user).allocable then TopPage(top) else TopPage(top + len), TopPage(top + len))
  {
    BelowStack(m.pages, root, top, top + len, stack);
    hide PoolsOk, TreeOk, FramesOk, Extended, GrownOver, Walk, GapIsEmpty, TopPage, GrowPages, Reached, Vacant,
        HeapMapped, FreshZero;
    g := UvmHeapGrow(m, root, top, len);
  }

  /** The growing branch of sys_brk, up to the store of the new heap top. */
  method BrkGrow(m: Memory, root: int, top: nat, newBrk: uint64, ghost stack: nat) returns (r: BrkResult)
    requires UserOk(m) && RootKey(root) in m.tbl && newBrk > top && GapIsEmpty(m.pages, root, top, stack)
    requires TopPage(top + Truncated(newBrk - top)) <= TRAPFRAME_VPN && stack <= TRAPFRAME_VPN
    modifies m
    ensures !r.NoTablePages? ==> UserOk(m) && RootKey(root) in m.tbl
    ensures r == NoTablePages || r == Failed || r == Brk(newBrk)
    ensures r != NoTablePages && HeapMapped(old(m.pages), root, top) ==>
      HeapMapped(m.pages, root, if r == Failed then top else newBrk)
    ensures old(m.kern).allocable >= 2 * GrowPages(top, Truncated(newBrk - top)) ==> r != NoTablePages
    ensures r != NoTablePages ==>
      BrkGrows(old(m.pages), old(m.use), old(m.tbl), m.pages, m.use, m.tbl, root, top, Truncated(newBrk - top),
               old(m.user).allocable)
    ensures r != NoTablePages ==>
      (r == Brk(newBrk) <==>
        newBrk - top < 0x1_0000_0000 && GrowPages(top, newBrk - top) <= old(m.user).allocable)
    ensures r == Brk(newBrk) && TopPage(top + Truncated(newBrk - top)) <= stack ==>
      && !BrkLeaks(top, newBrk, old(m.user).allocable)
      && Extended(old(m.pages), old(m.use), old(m.tbl), m.pages, m.use, m.tbl, root, TopPage(top), TopPage(newBrk))
      && GapIsEmpty(m.pages, root, newBrk, stack)
    ensures r == Failed && TopPage(top + Truncated(newBrk - top)) <= stack ==>
      && (GapIsEmpty(m.pages, root, top, stack) <==> !BrkLeaks(top, newBrk, old(m.user).allocable))
      && (!BrkLeaks(top, newBrk, old(m.user).allocable) ==>
            SameWalks(old(m.pages), m.pages, old(m.tbl)) && FreeUserPages(m.use) == FreeUserPages(old(m.use)))
  {
    var len := Truncated(newBrk - top);
    BrkSuccess(top, newBrk, m.user.allocable);
    hide PoolsOk, TreeOk, FramesOk, Extended, TopPage, Truncated, GrowPages, GapIsEmpty, FreeUserPages, SameWalks,
        BrkLeaks, BrkGrows, Walk, HeapMapped;
    var g := HeapRequest(m, root, top, len, stack);
    if g.NoTable? {
      return NoTablePages;
    }
    if HeapMapped(m.pages, root, g.addr) { LowerMapped(m.pages, root, top, g.addr); }
    if TopPage(top + len) <= stack {
      BrkOutcome(old(m.pages), old(m.use), old(m.tbl), m.pages, m.use, m.tbl, root, top, newBrk, len,
                 old(m.user).allocable, stack, g.addr);
    }
    return if g.addr != newBrk then Failed else Brk(newBrk);
  }

  lemma LowerMapped(pages: map<int, Page>, root: int, top: nat, high: nat)
    requires HeapMapped(pages, root, high) && top <= high
    ensures HeapMapped(pages, root, top)
  {
    hide Walk, IsValid;
  }

  lemma BelowStack(pages: map<int, Page>, root: int, top: nat, end: nat, stack: nat)
    requires GapIsEmpty(pages, root, top, stack)
    ensures TopPage(end) <= stack ==> Vacant(pages, root, TopPage(top), TopPage(end))
  {
    hide Walk;
  }

  /** When uvm_heap_grow comes back with the requested top. */
  lemma BrkSuccess(top: nat, newBrk: nat, freePages: nat)
    requires newBrk > top
    ensures var len := Truncated(newBrk - top);
      (if GrowPages(top, len) <= freePages then top + len else top) == newBrk
      <==> newBrk - top < 0x1_0000_0000 && GrowPages(top, newBrk - top) <= freePages
  {
  }

  /** The frame of mapped page `v` belongs to no page any more, and is not free. */
  ghost predicate Lost(p0: map<int, Page>, u1: map<int, Use>, root: int, v: nat) {
    Walk(p0, root, v) != 0 && FrameFor(p0, root, v) in u1 && u1[FrameFor(p0, root, v)] == Held
  }

  /**
   * sys_brk does not look at the stack: frames are lost exactly when the
   * growth comes above the first stack page, and then those of all pages of
   * the stack that it reaches.
   */
  lemma StackOverrun(p0: map<int, Page>, u0: map<int, Use>, t0: map<Key, int>,
                     p1: map<int, Page>, u1: map<int, Use>, t1: map<Key, int>, root: int,
                     top: nat, len: nat, freePages: nat, stack: nat)
    requires BrkGrows(p0, u0, t0, p1, u1, t1, root, top, len, freePages) && FramesOk(p0, u0, t0) && RootKey(root) in t0
    requires GapIsEmpty(p0, root, top, stack) && TopPage(top) <= stack < TRAPFRAME_VPN && Walk(p0, root, stack) != 0
    requires Reached(top, len, freePages) <= TRAPFRAME_VPN
    ensures forall v: nat :: TopPage(top) <= v < TRAPFRAME_VPN ==>
      (Lost(p0, u1, root, v) <==> stack <= v < Reached(top, len, freePages) && Walk(p0, root, v) != 0)
    ensures (exists v: nat :: TopPage(top) <= v < TRAPFRAME_VPN && Lost(p0, u1, root, v)) <==>
      Reached(top, len, freePages) > stack
  {
    hide Walk, TopPage, Reached, FramesOk;
    var end := Reached(top, len, freePages);
    forall v: nat | TopPage(top) <= v < TRAPFRAME_VPN
      ensures Lost(p0, u1, root, v) <==> stack <= v < end && Walk(p0, root, v) != 0
    {
      if Walk(p0, root, v) != 0 { LostAt(p0, u0, t0, p1, u1, t1, root, top, len, freePages, v); }
    }
    hide Lost, GapIsEmpty, BrkGrows;
    assert Lost(p0, u1, root, stack) <==> end > stack;
  }

  lemma LostAt(p0: map<int, Page>, u0: map<int, Use>, t0: map<Key, int>,
               p1: map<int, Page>, u1: map<int, Use>, t1: map<Key, int>, root: int,
               top: nat, len: nat, freePages: nat, v: nat)
    requires BrkGrows(p0, u0, t0, p1, u1, t1, root, top, len, freePages) && FramesOk(p0, u0, t0) && RootKey(root) in t0
    requires TopPage(top) <= v < TRAPFRAME_VPN && Walk(p0, root, v) != 0
    ensures Lost(p0, u1, root, v) <==> v < Reached(top, len, freePages)
  {
    hide Walk, TopPage, Reached, FreshZero, IsLeaf, PteToPa;
    assert FrameAt(p0, u0, root, v);
    var a := FrameFor(p0, root, v);
    assert UseAfter(u0[a], u1[a], root, TopPage(top),
                    if GrowPages(top, len) <= freePages then TopPage(top) else Reached(top, len, freePages),
                    Reached(top, len, freePages));
  }

  /**
   * sys_brk. The lengths are truncated to 32 bits on the way to the heap
   * functions. A growth succeeds exactly when it is below 2^32 and there are
   * user pages for it; a shrink always succeeds, at the requested top exactly
   * when it is below 2^32. As long as the growth ends below the stack, the gap
   * between them stays empty exactly unless the growth is by 2^32 bytes or
   * more and its truncated part maps pages: that request fails and leaves the
   * pages mapped. What happens above is `StackOverrun`.
   */
  method SysBrk(m: Memory, p: Process, newBrk: uint64, ghost stack: nat) returns (r: BrkResult)
    requires UserOk(m) && RootKey(p.pgtbl) in m.tbl
    requires TopPage(p.heapTop) <= stack <= TRAPFRAME_VPN && GapIsEmpty(m.pages, p.pgtbl, p.heapTop, stack)
    requires newBrk > p.heapTop ==> TopPage(p.heapTop + Truncated(newBrk - p.heapTop)) <= TRAPFRAME_VPN
    modifies m, p`heapTop
    ensures !r.NoTablePages? ==> UserOk(m) && RootKey(p.pgtbl) in m.tbl
    ensures !r.NoTablePages?
            && (newBrk > old(p.heapTop) ==> TopPage(old(p.heapTop) + Truncated(newBrk - old(p.heapTop))) <= stack) ==>
      (GapIsEmpty(m.pages, p.pgtbl, p.heapTop, stack) <==> !BrkLeaks(old(p.heapTop), newBrk, old(m.user).allocable))
    ensures !r.NoTablePages? && newBrk > old(p.heapTop) ==>
      BrkGrows(old(m.pages), old(m.use), old(m.tbl), m.pages, m.use, m.tbl, p.pgtbl, old(p.heapTop),
               Truncated(newBrk - old(p.heapTop)), old(m.user).allocable)
    ensures !r.NoTablePages? && HeapMapped(old(m.pages), p.pgtbl, old(p.heapTop)) ==>
      HeapMapped(m.pages, p.pgtbl, p.heapTop)
    ensures newBrk == 0 || newBrk == old(p.heapTop) ==> unchanged(m) && unchanged(p)
    ensures r.Brk? ==> r.top == p.heapTop
    ensures !r.Brk? ==> unchanged(p) && newBrk > old(p.heapTop)
    ensures newBrk == 0 || newBrk <= old(p.heapTop) ==> r.Brk?
    ensures newBrk > old(p.heapTop) && !r.NoTablePages? ==>
      (r.Brk? <==>
        && newBrk - old(p.heapTop) < 0x1_0000_0000
        && GrowPages(old(p.heapTop), newBrk - old(p.heapTop)) <= old(m.user).allocable)
    ensures newBrk > old(p.heapTop)
            && old(m.kern).allocable >= 2 * GrowPages(old(p.heapTop), Truncated(newBrk - old(p.heapTop))) ==>
      !r.NoTablePages?
    ensures r.Brk? && newBrk != 0 ==> (r.top == newBrk <==> old(p.heapTop) - newBrk < 0x1_0000_0000)
  {
    hide PoolsOk, TreeOk, FramesOk, Walk, TopPage, Truncated, GapIsEmpty, ShrunkTop, Cut, GrowPages, Extended,
        SameWalks, FreeUserPages, BrkGrows, HeapMapped;
    if newBrk == 0 {
      return Brk(p.heapTop);
    }
    ShrinkArithmetic(p.heapTop, newBrk);
    if newBrk > p.heapTop {
      r := BrkGrow(m, p.pgtbl, p.heapTop, newBrk, stack);
      if r.Brk? {
        p.heapTop := r.top;
      }
    } else if newBrk < p.heapTop {
      var t := UvmHeapUngrow(m, p.pgtbl, p.heapTop, Truncated(p.heapTop - newBrk));
      GapAfterCut(old(m.pages), old(m.use), m.pages, m.use, m.tbl, p.pgtbl, p.heapTop, t, stack);
      p.heapTop := t;
      return Brk(t);
    } else {
      return Brk(p.heapTop);
    }
  }

  // ---------- runs ----------

  /** A query, or a change by less than 2^32 bytes to a top not above the stack. */
  predicate InBounds(top: nat, newBrk: nat, stack: nat) {
    newBrk == 0 || (newBrk - top < 0x1_0000_0000 && top - newBrk < 0x1_0000_0000 && newBrk <= stack * 4096)
  }

  lemma BoundsFit(top: nat, newBrk: nat, stack: nat, freePages: nat)
    requires InBounds(top, newBrk, stack) && newBrk != 0
    ensures newBrk > top ==> Truncated(newBrk - top) == newBrk - top && TopPage(newBrk) <= stack
    ensures TopPage(newBrk) <= stack && !BrkLeaks(top, newBrk, freePages)
  {
  }

  /**
   * Over every run of calls with lengths below 2^32 and tops below the stack,
   * nothing is mapped between the rounded-up heap top and the stack. The run
   * ends early only at a call out of these bounds or without a page for a
   * table.
   */
  method BrkRun(m: Memory, p: Process, brks: seq<uint64>, stack: nat) returns (done: nat, last: BrkResult)
    requires UserOk(m) && RootKey(p.pgtbl) in m.tbl
    requires TopPage(p.heapTop) <= stack <= TRAPFRAME_VPN && GapIsEmpty(m.pages, p.pgtbl, p.heapTop, stack)
    modifies m, p`heapTop
    ensures done <= |brks|
    ensures done < |brks| ==> last == NoTablePages || !InBounds(p.heapTop, brks[done], stack)
    ensures last != NoTablePages ==>
      UserOk(m) && GapIsEmpty(m.pages, p.pgtbl, p.heapTop, stack) && TopPage(p.heapTop) <= stack
    ensures last != NoTablePages && HeapMapped(old(m.pages), p.pgtbl, old(p.heapTop)) ==>
      HeapMapped(m.pages, p.pgtbl, p.heapTop)
  {
    hide PoolsOk, TreeOk, FramesOk, Walk, TopPage, Truncated, GapIsEmpty, GrowPages, BrkLeaks, InBounds, HeapMapped;
    done, last := 0, Brk(p.heapTop);
    while done < |brks|
      invariant done <= |brks| && last != NoTablePages
      invariant UserOk(m) && RootKey(p.pgtbl) in m.tbl && TopPage(p.heapTop) <= stack
      invariant GapIsEmpty(m.pages, p.pgtbl, p.heapTop, stack)
      invariant HeapMapped(old(m.pages), p.pgtbl, old(p.heapTop)) ==> HeapMapped(m.pages, p.pgtbl, p.heapTop)
    {
      if !InBounds(p.heapTop, brks[done], stack) {
        return;
      }
      last := OneBrk(m, p, brks[done], stack);
      if last == NoTablePages {
        return;
      }
      done := done + 1;
    }
  }

  /** One call of the run. */
  method OneBrk(m: Memory, p: Process, newBrk: uint64, stack: nat) returns (r: BrkResult)
    requires UserOk(m) && RootKey(p.pgtbl) in m.tbl && InBounds(p.heapTop, newBrk, stack)
    requires TopPage(p.heapTop) <= stack <= TRAPFRAME_VPN && GapIsEmpty(m.pages, p.pgtbl, p.heapTop, stack)
    modifies m, p`heapTop
    ensures r != NoTablePages ==>
      && UserOk(m) && RootKey(p.pgtbl) in m.tbl
      && TopPage(p.heapTop) <= stack && GapIsEmpty(m.pages, p.pgtbl, p.heapTop, stack)
      && (HeapMapped(old(m.pages), p.pgtbl, old(p.heapTop)) ==> HeapMapped(m.pages, p.pgtbl, p.heapTop))
  {
    hide PoolsOk, TreeOk, FramesOk, Walk, TopPage, Truncated, GapIsEmpty, GrowPages, BrkLeaks, InBounds, BrkGrows,
        HeapMapped;
    BoundsOfTop(p.heapTop, newBrk, stack);
    if newBrk != 0 { BoundsFit(p.heapTop, newBrk, stack, m.user.allocable); }
    r := SysBrk(m, p, newBrk, stack);
  }

  lemma BoundsOfTop(top: nat, newBrk: nat, stack: nat)
    requires InBounds(top, newBrk, stack)
    ensures newBrk != 0 ==> top - newBrk < 0x1_0000_0000
  {
  }

  /** Every page of every space translates as before, or to nothing as before. */
  ghost predicate WalksRestored(p0: map<int, Page>, p1: map<int, Page>, tbl: map<Key, int>) {
    forall r, v: nat :: RootKey(r) in tbl && v < VPN_MAX ==>
      Walk(p1, r, v) == Walk(p0, r, v) || (!IsValid(Walk(p1, r, v)) && !IsValid(Walk(p0, r, v)))
  }

  /** Every frame has its owner and its bytes. */
  ghost predicate FramesKept(p0: map<int, Page>, u0: map<int, Use>, p1: map<int, Page>, u1: map<int, Use>) {
    forall a :: a in u0 && a in p0 && u0[a].FrameOf? ==> a in u1 && a in p1 && u1[a] == u0[a] && p1[a] == p0[a]
  }

  /**
   * A successful growth followed by a shrink of the same length, for any heap
   * top and any alignment: the heap top is back, every translation is as
   * before or invalid as before, the user pool has its pages, and every other
   * frame its owner and bytes.
   */
  method GrowThenShrink(m: Memory, root: int, heapTop: nat, len: nat) returns (ok: bool, top: nat)
    requires UserOk(m) && RootKey(root) in m.tbl && len < 0x1_0000_0000 && TopPage(heapTop + len) <= TRAPFRAME_VPN
    requires Vacant(m.pages, root, TopPage(heapTop), TopPage(heapTop + len))
    requires GrowPages(heapTop, len) <= m.user.allocable
    modifies m
    ensures old(m.kern).allocable >= 2 * GrowPages(heapTop, len) ==> ok
    ensures ok ==> UserOk(m) && top == heapTop
    ensures ok ==> WalksRestored(old(m.pages), m.pages, old(m.tbl))
    ensures ok ==> FreeUserPages(m.use) == FreeUserPages(old(m.use))
    ensures ok ==> FramesKept(old(m.pages), old(m.use), m.pages, m.use)
  {
    hide PoolsOk, TreeOk, FramesOk, Walk, TopPage, GrowPages, Extended, GrownOver, Reached, FreeUserPages, Cut,
        ShrunkTop, Vacant, WalksRestored, FramesKept;
    ghost var p0, u0, t0 := m.pages, m.use, m.tbl;
    TopInRange(heapTop, len);
    PoolsBasics(p0, u0, m.kern, m.kfree, m.user, m.ufree);
    var g := UvmHeapGrow(m, root, heapTop, len);
    if g.NoTable? {
      return false, 0;
    }
    ghost var p1, u1, t1 := m.pages, m.use, m.tbl;
    top := UvmHeapUngrow(m, root, g.addr, len);
    ShrunkTopIs(g.addr, len);
    Restored(p0, u0, t0, p1, u1, t1, m.pages, m.use, root, TopPage(heapTop), TopPage(heapTop + len));
    ok := true;
  }

  lemma Restored(p0: map<int, Page>, u0: map<int, Use>, t0: map<Key, int>,
                 p1: map<int, Page>, u1: map<int, Use>, t1: map<Key, int>,
                 p2: map<int, Page>, u2: map<int, Use>, root: int, lo: nat, hi: nat)
    requires Extended(p0, u0, t0, p1, u1, t1, root, lo, hi) && FramesOk(p0, u0, t0) && FramesOk(p1, u1, t1)
    requires Cut(p1, u1, p2, u2, t1, root, lo, hi) && hi <= TRAPFRAME_VPN && u0.Keys == p0.Keys
    requires Vacant(p0, root, lo, hi)
    ensures WalksRestored(p0, p2, t0) && FramesKept(p0, u0, p2, u2) && FreeUserPages(u2) == FreeUserPages(u0)
  {
    assert !IsValid(0);
    hide Walk, IsValid, FramesOk, FreeUserPages, FreshZero;
    GrowThenShrinkRestores(p0, u0, t0, p1, u1, t1, p2, u2, root, lo, hi);
    SameKeys(p0, u0, t0, p1, u1, t1, p2, u2, root, lo, hi);
    hide Extended, Cut;
  }

  lemma SameKeys(p0: map<int, Page>, u0: map<int, Use>, t0: map<Key, int>,
                 p1: map<int, Page>, u1: map<int, Use>, t1: map<Key, int>,
                 p2: map<int, Page>, u2: map<int, Use>, root: int, lo: nat, hi: nat)
    requires Extended(p0, u0, t0, p1, u1, t1, root, lo, hi) && Cut(p1, u1, p2, u2, t1, root, lo, hi)
    ensures p2.Keys == p0.Keys && u2.Keys == u0.Keys
  {
  }

  lemma TopInRange(heapTop: nat, len: nat)
    requires TopPage(heapTop + len) <= TRAPFRAME_VPN
    ensures heapTop + len + 0x1_0000_0000 < TWO64
  {
  }
}
