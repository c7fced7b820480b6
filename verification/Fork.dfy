/** Copying the pages of a parent into the empty space of a forked child (kernel/mem/uvm.c). */
module Fork {
  import opened Sv39
  import opened PhysMem
  import opened VMem
  import opened Frames
  import opened UserHeap

  /** Page `v` of the child has the flags and bytes of the parent's, on a frame that was free before. */
  ghost predicate CopyOf(p0: map<int, Page>, u0: map<int, Use>, p1: map<int, Page>, parent: int, child: int, v: nat) {
    && IsValid(Walk(p1, child, v))
    && PteFlags(Walk(p1, child, v)) == PteFlags(Walk(p0, parent, v))
    && WasFree(u0, FrameFor(p1, child, v))
    && FrameFor(p1, child, v) in p1 && FrameFor(p0, parent, v) in p0
    && p1[FrameFor(p1, child, v)] == p0[FrameFor(p0, parent, v)]
  }

  /** The pages visited after `h` rounds of the heap loop and `s` rounds of the stack loop. */
  ghost predicate Done(h: nat, s: nat, v: nat) {
    v < h || TRAPFRAME_VPN - s <= v < TRAPFRAME_VPN
  }

  /** One more round, at page `v`. */
  ghost predicate Next(h: nat, s: nat, v: nat, h': nat, s': nat) {
    forall x: nat :: Done(h', s', x) <==> Done(h, s, x) || x == v
  }

  /**
   * State 1 is state 0 with the visited pages of the parent copied to the child,
   * and nothing else changed but child tables.
   */
  ghost predicate Copied(p0: map<int, Page>, u0: map<int, Use>, t0: map<Key, int>,
                         p1: map<int, Page>, u1: map<int, Use>, t1: map<Key, int>,
                         parent: int, child: int, h: nat, s: nat) {
    && u1.Keys == u0.Keys && p1.Keys == p0.Keys
    && (forall k :: k in t0 ==> k in t1)
    && (forall k :: k in t1 && k !in t0 ==> k.root == child && k.level < 2)
    && (forall r, v: nat :: RootKey(r) in t0 && v < VPN_MAX && !(r == child && Done(h, s, v)) ==>
          Walk(p1, r, v) == Walk(p0, r, v))
    && (forall v: nat :: Done(h, s, v) ==>
          if IsValid(Walk(p0, parent, v)) then CopyOf(p0, u0, p1, parent, child, v) else Walk(p1, child, v) == 0)
    && (forall a :: a in u0 ==>
          || u1[a] == u0[a]
          || (u0[a] == Free(true) && u1[a].TableOf? && u1[a].key.root == child)
          || (u0[a] == Free(false) && u1[a].FrameOf? && u1[a].root == child))
    && (forall a :: a in u0 && a in p0 && (u0[a].FrameOf? || u0[a].Held?) ==> p1[a] == p0[a])
  }

  /** The bits above the lowest `8` do not matter. */
  lemma LowBits(q: nat, x: nat)
    ensures (512 * q + x) % 8 == x % 8
  {
    assert 512 * q + x == 8 * (64 * q) + x;
  }

  lemma AccessBits(w: nat)
    ensures w % 1024 / 2 % 8 == w / 2 % 8 && w % 1024 % 2 == w % 2
  {
    var q, f := w / 1024, w % 1024;
    assert w == 1024 * q + f;
    assert w / 2 == 512 * q + f / 2;
    LowBits(q, f / 2);
  }

  lemma FlagsOfLeaf(w: uint64)
    requires IsValid(w) && IsLeaf(w)
    ensures PteFlags(w) < 1024 && HasAccess(PteFlags(w)) && WithValid(PteFlags(w)) == PteFlags(w)
  {
    AccessBits(w);
  }

  /** One round of the copy: a free page gets the parent's bytes and is mapped for the child with the parent's flags. */
  ghost predicate CopyStep(p0: map<int, Page>, u0: map<int, Use>, t0: map<Key, int>,
                         p1: map<int, Page>, u1: map<int, Use>, t1: map<Key, int>,
                         p2: map<int, Page>, u2: map<int, Use>, t2: map<Key, int>,
                         parent: int, child: int, h: nat, s: nat, h': nat, s': nat, v: nat, a: uint64) {
    && Copied(p0, u0, t0, p1, u1, t1, parent, child, h, s) && FramesOk(p0, u0, t0) && FramesOk(p1, u1, t1)
    && u0.Keys == p0.Keys && RootKey(parent) in t0 && RootKey(child) in t0 && parent != child
    && v < TRAPFRAME_VPN && !Done(h, s, v) && Next(h, s, v, h', s') && IsValid(Walk(p0, parent, v))
    && h <= TRAPFRAME_VPN
    && a in u1 && u1[a] == Free(false) && a % 4096 == 0 && FrameFor(p0, parent, v) in p0
    && SameWalks(p1, p1[a := p0[FrameFor(p0, parent, v)]], t1)
    && OneWalk(p1[a := p0[FrameFor(p0, parent, v)]], p2, t1, child, v, MakePte(a, PteFlags(Walk(p0, parent, v))))
    && Spread(p1[a := p0[FrameFor(p0, parent, v)]], u1[a := Held][a := FrameOf(child, v)], t1, p2, u2, t2, child)
  }

  lemma CopyHere(p0: map<int, Page>, u0: map<int, Use>, t0: map<Key, int>,
                 p1: map<int, Page>, u1: map<int, Use>, t1: map<Key, int>,
                 p2: map<int, Page>, u2: map<int, Use>, t2: map<Key, int>,
                 parent: int, child: int, h: nat, s: nat, h': nat, s': nat, v: nat, a: uint64)
    requires CopyStep(p0, u0, t0, p1, u1, t1, p2, u2, t2, parent, child, h, s, h', s', v, a)
    ensures CopyOf(p0, u0, p2, parent, child, v)
  {
    var w := Walk(p0, parent, v);
    ParentFrame(p0, u0, t0, parent, v);
    NewWord(a, w);
    FlagsOfLeaf(w);
    hide PteToPa, IsLeaf, IsValid, PteFlags, MakePte, HasAccess, FramesOk, SameWalks;
    assert Walk(p2, child, v) == MakePte(a, PteFlags(w));
    hide Walk;
  }

  lemma CopyThere(p0: map<int, Page>, u0: map<int, Use>, t0: map<Key, int>,
                  p1: map<int, Page>, u1: map<int, Use>, t1: map<Key, int>,
                  p2: map<int, Page>, u2: map<int, Use>, t2: map<Key, int>,
                  parent: int, child: int, h: nat, s: nat, h': nat, s': nat, v: nat, a: uint64, x: nat)
    requires CopyStep(p0, u0, t0, p1, u1, t1, p2, u2, t2, parent, child, h, s, h', s', v, a) && Done(h, s, x)
    ensures if IsValid(Walk(p0, parent, x)) then CopyOf(p0, u0, p2, parent, child, x) else Walk(p2, child, x) == 0
  {
    hide PteToPa, IsLeaf, IsValid, PteFlags, MakePte, HasAccess, FramesOk, Walk, CopyOf;
    var pf := p1[a := p0[FrameFor(p0, parent, v)]];
    assert Walk(p2, child, x) == Walk(pf, child, x) == Walk(p1, child, x);
    if IsValid(Walk(p0, parent, x)) {
      CopyStays(p0, u0, t0, p1, u1, t1, p2, parent, child, h, s, x);
    }
  }

  lemma CopyUses(p0: map<int, Page>, u0: map<int, Use>, t0: map<Key, int>,
                 p1: map<int, Page>, u1: map<int, Use>, t1: map<Key, int>,
                 p2: map<int, Page>, u2: map<int, Use>, t2: map<Key, int>,
                 parent: int, child: int, h: nat, s: nat, h': nat, s': nat, v: nat, a: uint64)
    requires CopyStep(p0, u0, t0, p1, u1, t1, p2, u2, t2, parent, child, h, s, h', s', v, a)
    ensures u2.Keys == u0.Keys && p2.Keys == p0.Keys
    ensures forall k :: k in t0 ==> k in t2
    ensures forall k :: k in t2 && k !in t0 ==> k.root == child && k.level < 2
    ensures forall a :: a in u0 ==>
          || u2[a] == u0[a]
          || (u0[a] == Free(true) && u2[a].TableOf? && u2[a].key.root == child)
          || (u0[a] == Free(false) && u2[a].FrameOf? && u2[a].root == child)
    ensures forall a :: a in u0 && a in p0 && (u0[a].FrameOf? || u0[a].Held?) ==> p2[a] == p0[a]
  {
    hide FramesOk, SameWalks, OneWalk, Walk, CopyOf, FrameFor, IsValid, MakePte, PteFlags;
  }

  lemma CopyOne(p0: map<int, Page>, u0: map<int, Use>, t0: map<Key, int>,
                p1: map<int, Page>, u1: map<int, Use>, t1: map<Key, int>,
                p2: map<int, Page>, u2: map<int, Use>, t2: map<Key, int>,
                parent: int, child: int, h: nat, s: nat, h': nat, s': nat, v: nat, a: uint64)
    requires CopyStep(p0, u0, t0, p1, u1, t1, p2, u2, t2, parent, child, h, s, h', s', v, a)
    ensures Copied(p0, u0, t0, p2, u2, t2, parent, child, h', s')
  {
    hide PteToPa, IsLeaf, IsValid, PteFlags, MakePte, HasAccess, TreeOk, Walk, CopyOf, FramesOk, OneWalk, SameWalks,
        Spread, FrameFor;
    var pf := p1[a := p0[FrameFor(p0, parent, v)]];
    CopyHere(p0, u0, t0, p1, u1, t1, p2, u2, t2, parent, child, h, s, h', s', v, a);
    forall x: nat | Done(h, s, x)
      ensures if IsValid(Walk(p0, parent, x)) then CopyOf(p0, u0, p2, parent, child, x) else Walk(p2, child, x) == 0
    {
      CopyThere(p0, u0, t0, p1, u1, t1, p2, u2, t2, parent, child, h, s, h', s', v, a, x);
    }
    CopyUses(p0, u0, t0, p1, u1, t1, p2, u2, t2, parent, child, h, s, h', s', v, a);
    CopyOneElsewhere(p0, t0, p1, t1, pf, p2, child, h, s, h', s', v, FlagsWord(p0, parent, v, a));
  }

  /** The word that the round stores. */
  ghost function FlagsWord(p0: map<int, Page>, parent: int, v: nat, a: uint64): uint64 {
    MakePte(a, PteFlags(Walk(p0, parent, v)))
  }

  lemma ParentFrame(p0: map<int, Page>, u0: map<int, Use>, t0: map<Key, int>, parent: int, v: nat)
    requires FramesOk(p0, u0, t0) && RootKey(parent) in t0 && v < TRAPFRAME_VPN && IsValid(Walk(p0, parent, v))
    ensures FrameAt(p0, u0, parent, v) && IsLeaf(Walk(p0, parent, v))
  {
    ZeroIsInvalid();
    hide IsValid, IsLeaf, PteToPa;
  }

  lemma NewWord(a: uint64, w: uint64)
    requires IsValid(w) && IsLeaf(w) && a % 4096 == 0
    ensures var n := MakePte(a, PteFlags(w));
      IsValid(n) && PteToPa(n) == a && PteFlags(n) == PteFlags(w)
  {
    FlagsOfLeaf(w);
    PteRoundTrip(a, PteFlags(w));
  }

  lemma CopyStays(p0: map<int, Page>, u0: map<int, Use>, t0: map<Key, int>,
                  p1: map<int, Page>, u1: map<int, Use>, t1: map<Key, int>, p2: map<int, Page>,
                  parent: int, child: int, h: nat, s: nat, x: nat)
    requires Copied(p0, u0, t0, p1, u1, t1, parent, child, h, s) && FramesOk(p1, u1, t1)
    requires RootKey(child) in t1 && Done(h, s, x) && x < TRAPFRAME_VPN && IsValid(Walk(p0, parent, x))
    requires Walk(p2, child, x) == Walk(p1, child, x)
    requires forall b :: b in p1 && b in u1 && u1[b].FrameOf? ==> b in p2 && p2[b] == p1[b]
    ensures CopyOf(p0, u0, p2, parent, child, x)
  {
    assert CopyOf(p0, u0, p1, parent, child, x);
    ZeroIsInvalid();
    assert FrameAt(p1, u1, child, x);
  }

  lemma CopyOneElsewhere(p0: map<int, Page>, t0: map<Key, int>, p1: map<int, Page>, t1: map<Key, int>,
                         pf: map<int, Page>, p2: map<int, Page>, child: int, h: nat, s: nat, h': nat, s': nat,
                             v: nat, w: uint64)
    requires Next(h, s, v, h', s')
    requires forall k :: k in t0 ==> k in t1
    requires forall r, x: nat :: RootKey(r) in t0 && x < VPN_MAX && !(r == child && Done(h, s, x)) ==>
      Walk(p1, r, x) == Walk(p0, r, x)
    requires SameWalks(p1, pf, t1) && OneWalk(pf, p2, t1, child, v, w)
    ensures forall r, x: nat :: RootKey(r) in t0 && x < VPN_MAX && !(r == child && Done(h', s', x)) ==>
      Walk(p2, r, x) == Walk(p0, r, x)
  {
    forall r, x: nat | RootKey(r) in t0 && x < VPN_MAX && !(r == child && Done(h', s', x))
      ensures Walk(p2, r, x) == Walk(p0, r, x)
    {
      assert Walk(pf, r, x) == Walk(p1, r, x) == Walk(p0, r, x);
    }
  }

  lemma CopyNothing(p0: map<int, Page>, u0: map<int, Use>, t0: map<Key, int>,
                    p1: map<int, Page>, u1: map<int, Use>, t1: map<Key, int>,
                    parent: int, child: int, h: nat, s: nat, h': nat, s': nat, v: nat)
    requires Copied(p0, u0, t0, p1, u1, t1, parent, child, h, s) && Next(h, s, v, h', s')
    requires v < VPN_MAX && RootKey(child) in t0 && Walk(p1, child, v) == 0 && !IsValid(Walk(p0, parent, v))
    ensures Copied(p0, u0, t0, p1, u1, t1, parent, child, h', s')
  {
  }

  /** Copying has ended well, without a user page, or without a page for a table. */
  datatype Outcome = Finished | NoUserPage | NoTableLeft

  /** The byte loop that copies one page. */
  method CopyBytes(m: Memory, a: int) returns (bytes: seq<bv8>)
    requires a in m.pages && m.pages[a].Bytes? && |m.pages[a].bytes| == 4096
    ensures bytes == m.pages[a].bytes
  {
    bytes := [];
    for i := 0 to 4096
      invariant bytes == m.pages[a].bytes[..i]
    {
      bytes := bytes + [m.pages[a].bytes[i]];
    }
  }

  /** The body shared by both loops of uvm_copy_pgtbl. */
  method CopyOnePage(m: Memory, parent: int, child: int, v: nat, ghost h: nat, ghost s: nat, ghost h': nat,
      ghost s': nat,
                     ghost p0: map<int, Page>, ghost u0: map<int, Use>, ghost t0: map<Key, int>) returns (r: Outcome)
    requires UserOk(m) && FramesOk(p0, u0, t0) && u0.Keys == p0.Keys
    requires RootKey(parent) in t0 && RootKey(child) in t0 && RootKey(parent) in m.tbl && RootKey(child) in m.tbl
    requires parent != child && v < TRAPFRAME_VPN && !Done(h, s, v) && Next(h, s, v, h', s') && Walk(p0, child, v) == 0
    requires h <= TRAPFRAME_VPN
    requires Copied(p0, u0, t0, m.pages, m.use, m.tbl, parent, child, h, s)
    modifies m
    ensures Ok(m) && (r == Finished ==> UserOk(m))
    ensures RootKey(parent) in m.tbl && RootKey(child) in m.tbl
    ensures r == Finished ==> Copied(p0, u0, t0, m.pages, m.use, m.tbl, parent, child, h', s')
    ensures r == NoUserPage ==> old(m.user).allocable == 0
    ensures old(m.kern).allocable >= 2 ==> r != NoTableLeft
    ensures m.kern.allocable >= old(m.kern).allocable - 2
    ensures m.user.allocable >= old(m.user).allocable - 1
  {
    ghost var p1, u1, t1 := m.pages, m.use, m.tbl;
    assert Walk(p1, parent, v) == Walk(p0, parent, v) && Walk(p1, child, v) == 0;
    PageStart(v);
    var pte, w := LookUp(m, parent, v * 4096);
    if pte == Null || !IsValid(w) {
      CopyNothing(p0, u0, t0, p1, u1, t1, parent, child, h, s, h', s', v);
      return Finished;
    }
    assert FrameAt(p0, u0, parent, v) && FrameAt(p1, u1, parent, v);
    r := CopyMapped(m, parent, child, v, w, h, s, h', s', p0, u0, t0);
  }

  method CopyMapped(m: Memory, parent: int, child: int, v: nat, w: uint64, ghost h: nat, ghost s: nat, ghost h': nat,
      ghost s': nat,
                    ghost p0: map<int, Page>, ghost u0: map<int, Use>, ghost t0: map<Key, int>) returns (r: Outcome)
    requires UserOk(m) && FramesOk(p0, u0, t0) && u0.Keys == p0.Keys
    requires RootKey(parent) in t0 && RootKey(child) in t0 && RootKey(parent) in m.tbl && RootKey(child) in m.tbl
    requires parent != child && v < TRAPFRAME_VPN && !Done(h, s, v) && Next(h, s, v, h', s')
             && Walk(m.pages, child, v) == 0
    requires h <= TRAPFRAME_VPN
    requires Copied(p0, u0, t0, m.pages, m.use, m.tbl, parent, child, h, s)
    requires w == Walk(p0, parent, v) && IsValid(w) && FrameAt(p0, u0, parent, v) && FrameAt(m.pages, m.use, parent, v)
    requires Walk(m.pages, parent, v) == w
    modifies m
    ensures Ok(m) && (r == Finished ==> UserOk(m))
    ensures RootKey(parent) in m.tbl && RootKey(child) in m.tbl
    ensures r == Finished ==> Copied(p0, u0, t0, m.pages, m.use, m.tbl, parent, child, h', s')
    ensures r == NoUserPage ==> old(m.user).allocable == 0
    ensures old(m.kern).allocable >= 2 ==> r != NoTableLeft
    ensures m.kern.allocable >= old(m.kern).allocable - 2
    ensures m.user.allocable >= old(m.user).allocable - 1
  {
    ghost var p1, u1, t1 := m.pages, m.use, m.tbl;
    var f := PteToPa(w);
    assert f in p1 && p1[f].Bytes? && p1[f] == p0[f] && |p1[f].bytes| == 4096;
    assert PagesOk(p1);
    assert f == FrameFor(p0, parent, v) && f in p0;
    FlagsOfLeaf(w);
    PageStart(v);
    ReadWriteUser();
    hide Done, Next, FrameAt, FrameFor, PageOk, PoolsOk, TreeOk, FramesOk, Copied, Spread, OneWalk, Walk, HasAccess,
        IsValid, IsLeaf, MakePte, PteToPa, PteFlags, WithValid, PagesOk;
    var bytes := CopyBytes(m, f);
    var a := AllocFilled(m, bytes);
    if a == 0 {
      return NoUserPage;
    }
    assert AddressOk(a) by { PageIsAligned(p1, a); }
    assert Walk(m.pages, child, v) == 0;
    hide SameWalks;
    var ok := MapFrame(m, child, v * 4096, v, a, PteFlags(w));
    if !ok {
      return NoTableLeft;
    }
    CopyOne(p0, u0, t0, p1, u1, t1, m.pages, m.use, m.tbl, parent, child, h, s, h', s', v, a);
    return Finished;
  }

  lemma CopiedNothing(p0: map<int, Page>, u0: map<int, Use>, t0: map<Key, int>, parent: int, child: int)
    ensures Copied(p0, u0, t0, p0, u0, t0, parent, child, 0, 0)
  {
  }

  lemma NextInHeap(v: nat)
    ensures Next(v, 0, v, v + 1, 0) && (v < TRAPFRAME_VPN ==> !Done(v, 0, v))
  {
  }

  method CopyHeap(m: Memory, parent: int, child: int, pages: nat,
                  ghost p0: map<int, Page>, ghost u0: map<int, Use>, ghost t0: map<Key, int>) returns (r: Outcome)
    requires UserOk(m) && m.pages == p0 && m.use == u0 && m.tbl == t0
    requires RootKey(parent) in t0 && RootKey(child) in t0 && parent != child
    requires pages <= TRAPFRAME_VPN
    requires forall v: nat :: v < TRAPFRAME_VPN ==> Walk(p0, child, v) == 0
    modifies m
    ensures Ok(m) && (r == Finished ==> UserOk(m)) && RootKey(parent) in m.tbl && RootKey(child) in m.tbl
    ensures r == Finished ==> Copied(p0, u0, t0, m.pages, m.use, m.tbl, parent, child, pages, 0)
    ensures r == NoUserPage ==> old(m.user).allocable < pages
    ensures r == NoTableLeft ==> old(m.kern).allocable < 2 * pages
    ensures m.kern.allocable >= old(m.kern).allocable - 2 * pages && m.user.allocable >= old(m.user).allocable - pages
  {
    hide PoolsOk, TreeOk, FramesOk, Walk, Copied;
    PoolsBasics(m.pages, m.use, m.kern, m.kfree, m.user, m.ufree);
    r := Finished;
    var v := 0;
    CopiedNothing(p0, u0, t0, parent, child);
    while v < pages && r == Finished
      invariant v <= pages
      invariant Ok(m) && (r == Finished ==> UserOk(m)) && RootKey(parent) in m.tbl && RootKey(child) in m.tbl
      invariant r == Finished ==> Copied(p0, u0, t0, m.pages, m.use, m.tbl, parent, child, v, 0)
      invariant m.kern.allocable >= old(m.kern).allocable - 2 * v && m.user.allocable >= old(m.user).allocable - v
      invariant r == NoUserPage ==> old(m.user).allocable < pages
      invariant r == NoTableLeft ==> old(m.kern).allocable < 2 * pages
    {
      NextInHeap(v);
      r := CopyOnePage(m, parent, child, v, v, 0, v + 1, 0, p0, u0, t0);
      v := v + 1;
    }
  }

  method CopyStack(m: Memory, parent: int, child: int, heapPages: nat, pages: nat,
                   ghost p0: map<int, Page>, ghost u0: map<int, Use>, ghost t0: map<Key, int>) returns (r: Outcome)
    requires UserOk(m) && FramesOk(p0, u0, t0) && u0.Keys == p0.Keys
    requires RootKey(parent) in t0 && RootKey(child) in t0 && parent != child
    requires RootKey(parent) in m.tbl && RootKey(child) in m.tbl && heapPages + pages <= TRAPFRAME_VPN
    requires forall v: nat :: v < TRAPFRAME_VPN ==> Walk(p0, child, v) == 0
    requires Copied(p0, u0, t0, m.pages, m.use, m.tbl, parent, child, heapPages, 0)
    modifies m
    ensures Ok(m) && (r == Finished ==> UserOk(m))
    ensures r == Finished ==> Copied(p0, u0, t0, m.pages, m.use, m.tbl, parent, child, heapPages, pages)
    ensures r == NoUserPage ==> old(m.user).allocable < pages
    ensures r == NoTableLeft ==> old(m.kern).allocable < 2 * pages
  {
    hide PoolsOk, TreeOk, FramesOk, Walk, Copied;
    r := Finished;
    var i := 0;
    while i < pages && r == Finished
      invariant i <= pages
      invariant Ok(m) && (r == Finished ==> UserOk(m)) && RootKey(parent) in m.tbl && RootKey(child) in m.tbl
      invariant r == Finished ==> Copied(p0, u0, t0, m.pages, m.use, m.tbl, parent, child, heapPages, i)
      invariant m.kern.allocable >= old(m.kern).allocable - 2 * i && m.user.allocable >= old(m.user).allocable - i
      invariant r == NoUserPage ==> old(m.user).allocable < pages
      invariant r == NoTableLeft ==> old(m.kern).allocable < 2 * pages
    {
      r := CopyOnePage(m, parent, child, TRAPFRAME_VPN - 1 - i, heapPages, i, heapPages, i + 1, p0, u0, t0);
      i := i + 1;
    }
  }

  /**
   * uvm_copy_pgtbl into a child that maps nothing below its trapframe: every
   * mapped heap and stack page of the parent has an equal copy in the child.
   * It fails only when one of the pools is smaller than the ranges.
   */
  method UvmCopyPgtbl(m: Memory, parent: int, child: int, heapTop: nat, stackPages: nat) returns (r: Outcome)
    requires UserOk(m) && RootKey(parent) in m.tbl && RootKey(child) in m.tbl && parent != child
    requires TopPage(heapTop) + stackPages <= TRAPFRAME_VPN
    requires forall v: nat :: v < TRAPFRAME_VPN ==> Walk(m.pages, child, v) == 0
    modifies m
    ensures Ok(m) && (r == Finished ==> UserOk(m))
    ensures r == Finished ==> Copied(old(m.pages), old(m.use), old(m.tbl), m.pages, m.use, m.tbl,
                                     parent, child, TopPage(heapTop), stackPages)
    ensures r == Finished ==>
      forall va: nat :: va < heapTop || USER_END - stackPages * 4096 <= va < USER_END ==>
        var w, w' := Walk(old(m.pages), parent, va / 4096), Walk(m.pages, child, va / 4096);
        if w % 2 == 0 then w' == 0
        else
          && w' % 1024 == w % 1024
          && PteToPa(w') in old(m.use) && old(m.use)[PteToPa(w')] == Free(false)
          && PteToPa(w') in m.pages && PteToPa(w) in old(m.pages) && m.pages[PteToPa(w')] == old(m.pages)[PteToPa(w)]
    ensures r == Finished ==>
      forall q, v: nat ::
        RootKey(q) in old(m.tbl) && v < VPN_MAX
        && !(q == child && (v * 4096 < heapTop || USER_END - stackPages * 4096 <= v * 4096 < USER_END))
        ==> Walk(m.pages, q, v) == Walk(old(m.pages), q, v)
    ensures r == NoUserPage ==> old(m.user).allocable < TopPage(heapTop) + stackPages
    ensures r == NoTableLeft ==> old(m.kern).allocable < 2 * (TopPage(heapTop) + stackPages)
  {
    assert m.use.Keys == m.pages.Keys;
    hide PoolsOk, TreeOk, FramesOk, Copied, TopPage;
    r := CopyHeap(m, parent, child, TopPage(heapTop), old(m.pages), old(m.use), old(m.tbl));
    if r == Finished {
      r := CopyStack(m, parent, child, TopPage(heapTop), stackPages, old(m.pages), old(m.use), old(m.tbl));
    }
    if r == Finished {
      CopiedBytes(old(m.pages), old(m.use), old(m.tbl), m.pages, m.use, m.tbl, parent, child, heapTop, stackPages);
    }
  }

  lemma DoneBytes(heapTop: nat, s: nat, v: nat)
    requires s <= TRAPFRAME_VPN
    ensures Done(TopPage(heapTop), s, v) <==>
      v * 4096 < heapTop || USER_END - s * 4096 <= v * 4096 < USER_END
  {
    TopPageIs(heapTop, v);
  }

  lemma PageOfByte(heapTop: nat, s: nat, va: nat)
    requires s <= TRAPFRAME_VPN && (va < heapTop || USER_END - s * 4096 <= va < USER_END)
    ensures Done(TopPage(heapTop), s, va / 4096)
  {
    DoneBytes(heapTop, s, va / 4096);
  }

  /** The copy in terms of byte addresses: those below the heap top and the top `s` pages of the stack. */
  lemma CopiedBytes(p0: map<int, Page>, u0: map<int, Use>, t0: map<Key, int>,
                    p1: map<int, Page>, u1: map<int, Use>, t1: map<Key, int>,
                    parent: int, child: int, heapTop: nat, s: nat)
    requires Copied(p0, u0, t0, p1, u1, t1, parent, child, TopPage(heapTop), s) && s <= TRAPFRAME_VPN
    ensures forall va: nat :: va < heapTop || USER_END - s * 4096 <= va < USER_END ==>
      var w, w' := Walk(p0, parent, va / 4096), Walk(p1, child, va / 4096);
      if w % 2 == 0 then w' == 0
      else
        && w' % 1024 == w % 1024 && PteToPa(w') in u0 && u0[PteToPa(w')] == Free(false)
        && PteToPa(w') in p1 && PteToPa(w) in p0 && p1[PteToPa(w')] == p0[PteToPa(w)]
    ensures forall q, v: nat ::
      RootKey(q) in t0 && v < VPN_MAX
      && !(q == child && (v * 4096 < heapTop || USER_END - s * 4096 <= v * 4096 < USER_END))
      ==> Walk(p1, q, v) == Walk(p0, q, v)
  {
    hide Walk, PteToPa, TopPage, Done;
    forall va: nat | va < heapTop || USER_END - s * 4096 <= va < USER_END
      ensures var w, w' := Walk(p0, parent, va / 4096), Walk(p1, child, va / 4096);
        if w % 2 == 0 then w' == 0
        else
          && w' % 1024 == w % 1024 && PteToPa(w') in u0 && u0[PteToPa(w')] == Free(false)
          && PteToPa(w') in p1 && PteToPa(w) in p0 && p1[PteToPa(w')] == p0[PteToPa(w)]
    {
      PageOfByte(heapTop, s, va);
    }
    forall q, v: nat | RootKey(q) in t0 && v < VPN_MAX
        && !(q == child && (v * 4096 < heapTop || USER_END - s * 4096 <= v * 4096 < USER_END))
      ensures Walk(p1, q, v) == Walk(p0, q, v)
    {
      DoneBytes(heapTop, s, v);
    }
  }
}
