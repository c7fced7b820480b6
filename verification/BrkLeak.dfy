/** The growth that sys_brk reports as failed and leaves mapped (kernel/syscall/sysfunc.c:31-49). */
module BrkLeak {
  import opened Sv39
  import opened PhysMem
  import opened VMem
  import opened Frames
  import opened Space
  import opened UserHeap

  /**
   * A new space with an empty heap on a machine with 16 pages in each pool:
   * asking for 2^32 + 4096 bytes fails, and below the stack at page 16 a page
   * is mapped that no heap top covers.
   */
  method GrowPast4GiB() returns (r: BrkResult, m: Memory, p: Process)
    ensures r == Failed && p.heapTop == 0 && UserOk(m) && RootKey(p.pgtbl) in m.tbl
    ensures !GapIsEmpty(m.pages, p.pgtbl, p.heapTop, 16)
  {
    hide PoolsOk, TreeOk, FramesOk, Walk, SameWalks, PagesOk;
    m := new Memory(4096, 16, 16);
    assert UserOk(m) by { FreshMemory(m); }
    var root := NewRoot(m);
    assert root != 0;
    p := new Process(root, 0);
    assert TopPage(0) == 0 && TopPage(4096) == 1 && Truncated(0x1_0000_1000) == 4096;
    r := SysBrk(m, p, 0x1_0000_1000, 16);
  }

  /**
   * A space with one stack page, page 4, and an empty heap: growing it to 5
   * pages succeeds, and the frame of the stack page is neither mapped nor
   * free any more.
   */
  method GrowIntoStack() returns (r: BrkResult, m: Memory, p: Process, ghost was: map<int, Page>)
    ensures r == Brk(20480) && p.heapTop == 20480 && UserOk(m) && Lost(was, m.use, p.pgtbl, 4)
  {
    hide PoolsOk, TreeOk, FramesOk, Walk, SameWalks, PagesOk, Spread, Reframed, MakePte, IsValid, OneWalk, BrkGrows,
        Lost;
    m := new Memory(4096, 16, 16);
    assert UserOk(m) by { FreshMemory(m); }
    var root := NewRoot(m);
    p := new Process(root, 0);
    MapStack(m, root);
    was := m.pages;
    ghost var use, tbl := m.use, m.tbl;
    UserKeys(m);
    assert TopPage(0) == 0 && TopPage(20480) == 5 && Truncated(20480) == 20480;
    r := SysBrk(m, p, 20480, 4);
    assert Reached(0, 20480, 15) == 5;
    StackOverrun(was, use, tbl, m.pages, m.use, m.tbl, root, 0, 20480, 15, 4);
  }

  lemma UserKeys(m: Memory)
    requires UserOk(m)
    ensures FramesOk(m.pages, m.use, m.tbl)
  {
  }

  /** A page of zeros becomes page 4 of an empty space. */
  method MapStack(m: Memory, root: int)
    requires UserOk(m) && RootKey(root) in m.tbl && m.kern.allocable == 15 && m.user.allocable == 16
    requires forall v: nat :: v < VPN_MAX ==> Walk(m.pages, root, v) == 0
    modifies m
    ensures UserOk(m) && RootKey(root) in m.tbl && m.kern.allocable >= 13 && m.user.allocable == 15
    ensures GapIsEmpty(m.pages, root, 0, 4) && Walk(m.pages, root, 4) != 0
  {
    hide PoolsOk, TreeOk, FramesOk, Walk, PagesOk, Spread, Reframed, MakePte, IsValid;
    PoolsBasics(m.pages, m.use, m.kern, m.kfree, m.user, m.ufree);
    var a := AllocFilled(m, seq(4096, _ => 0));
    ReadWriteUser();
    PageIsAligned(old(m.pages), a);
    var ok := MapFrame(m, root, 16384, 4, a, RWU);
    assert ok;
    MappedWord(a, RWU);
  }
}
