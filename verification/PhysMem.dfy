/**
 * The physical page pools (kernel/mem/pmem.c): two free lists threaded
 * through the free pages themselves.
 */
module PhysMem {
  import opened Sv39

  /** What a page currently holds: page-table words, plain bytes, or the link of a free list. */
  datatype Page = Table(ptes: seq<int>) | Bytes(bytes: seq<bv8>) | Link(next: int)

  /**
   * A page table: the space it belongs to (named by its root page), its
   * level, and the first page index it translates.
   */
  datatype Key = Key(root: int, level: nat, lo: nat)

  /** The single thing a page is used for. */
  datatype Use = Free(inKernel: bool) | Held | TableOf(key: Key) | FrameOf(root: int, vpn: nat)

  datatype Region = Region(head: int, allocable: nat)

  ghost predicate PageOk(p: Page) {
    match p
    case Table(ptes) => |ptes| == 512 && forall i :: 0 <= i < 512 ==> 0 <= ptes[i] < TWO64
    case Bytes(bytes) => |bytes| == 4096
    case Link(_) => true
  }

  ghost predicate AddressOk(a: int) {
    0 < a < TWO64 && a % 4096 == 0
  }

  /** What the link in position `i` of a list points to. */
  ghost function NextIn(list: seq<int>, i: nat): int {
    if i + 1 < |list| then list[i + 1] else 0
  }

  ghost function Elems(list: seq<int>): set<int> {
    set a | a in list
  }

  /** `r` is a linked list through exactly the pages of `list`, in that order. */
  ghost predicate Chain(pages: map<int, Page>, r: Region, list: seq<int>) {
    && r.allocable == |list|
    && r.head == (if list == [] then 0 else list[0])
    && forall i :: 0 <= i < |list| ==>
         list[i] in pages && pages[list[i]] == Link(NextIn(list, i))
  }

  /** `list` holds, once each, exactly the pages used as `u`. */
  ghost predicate Enumerates(use: map<int, Use>, list: seq<int>, u: Use) {
    && (forall i, j :: 0 <= i < j < |list| ==> list[i] != list[j])
    && (forall i :: 0 <= i < |list| ==> list[i] in use && use[list[i]] == u)
    && (forall a :: a in use && use[a] == u ==> a in list)
  }

  ghost predicate ListOk(pages: map<int, Page>, use: map<int, Use>, r: Region, list: seq<int>, u: Use) {
    Chain(pages, r, list) && Enumerates(use, list, u)
  }

  ghost predicate PagesOk(pages: map<int, Page>) {
    forall a :: a in pages ==> AddressOk(a) && PageOk(pages[a])
  }

  ghost predicate PoolsOk(pages: map<int, Page>, use: map<int, Use>,
                          kern: Region, kfree: seq<int>, user: Region, ufree: seq<int>) {
    && use.Keys == pages.Keys
    && PagesOk(pages)
    && ListOk(pages, use, kern, kfree, Free(true))
    && ListOk(pages, use, user, ufree, Free(false))
  }

  /** Pages that are on no free list. */
  ghost function Owned(use: map<int, Use>): set<int> {
    set a | a in use && !use[a].Free?
  }

  lemma {:induction false} EnumerationSize(list: seq<int>)
    requires forall i, j :: 0 <= i < j < |list| ==> list[i] != list[j]
    ensures |Elems(list)| == |list|
  {
    if list != [] {
      var front, last := list[..|list| - 1], list[|list| - 1];
      EnumerationSize(front);
      assert list == front + [last];
      assert last !in front;
      assert Elems(list) == Elems(front) + {last};
    }
  }

  /**
   * Conservation over the union of both pools: the two free lists and the
   * owned pages split the pages of the machine without overlap, so the two
   * counters and the number of owned pages always add up to the same total.
   */
  lemma PoolsConserve(pages: map<int, Page>, use: map<int, Use>,
                      kern: Region, kfree: seq<int>, user: Region, ufree: seq<int>)
    requires PoolsOk(pages, use, kern, kfree, user, ufree)
    ensures Elems(kfree) !! Elems(ufree) !! Owned(use)
    ensures Elems(kfree) + Elems(ufree) + Owned(use) == pages.Keys
    ensures kern.allocable + user.allocable + |Owned(use)| == |pages|
  {
    var k, u, o := Elems(kfree), Elems(ufree), Owned(use);
    MembersAre(use, kfree, Free(true));
    MembersAre(use, ufree, Free(false));
    assert k + u + o == pages.Keys by {
      forall a | a in use ensures a in k + u + o {
        assert use[a] == Free(true) || use[a] == Free(false) || !use[a].Free?;
      }
    }
    EnumerationSize(kfree);
    EnumerationSize(ufree);
    DisjointSizes(k, u, o);
    assert pages.Keys == k + u + o;
  }

  lemma MembersAre(use: map<int, Use>, list: seq<int>, u: Use)
    requires Enumerates(use, list, u)
    ensures forall a :: a in Elems(list) <==> a in use && use[a] == u
  {
  }

  lemma DisjointSizes(k: set<int>, u: set<int>, o: set<int>)
    requires k !! u !! o
    ensures |k + u + o| == |k| + |u| + |o|
  {
    assert |k + u| == |k| + |u|;
  }

  lemma ListLengths(pages: map<int, Page>, use: map<int, Use>, kern: Region, kfree: seq<int>, user: Region,
      ufree: seq<int>)
    requires PoolsOk(pages, use, kern, kfree, user, ufree)
    ensures kern.allocable == |kfree| && user.allocable == |ufree|
  {
  }

  /** Taking the first page off a list. */
  lemma PopKeeps(pages: map<int, Page>, use: map<int, Use>, r: Region, list: seq<int>, u: Use)
    requires ListOk(pages, use, r, list, u) && u.Free? && list != []
    ensures r.allocable == |list| && list[0] == r.head && list[0] in use && use[list[0]] == u
    ensures list[0] in pages && pages[list[0]].Link?
    ensures ListOk(pages, use[list[0] := Held], Region(pages[list[0]].next, r.allocable - 1), list[1..], u)
  {
    assert pages[list[0]] == Link(NextIn(list, 0));
    var rest := list[1..];
    forall i | 0 <= i < |rest|
      ensures rest[i] in pages && pages[rest[i]] == Link(NextIn(rest, i))
    {
      assert rest[i] == list[i + 1];
      assert NextIn(rest, i) == NextIn(list, i + 1);
    }
  }

  /** Putting an owned page on the front of a list. */
  lemma PushKeeps(pages: map<int, Page>, use: map<int, Use>, r: Region, list: seq<int>, u: Use, page: int)
    requires ListOk(pages, use, r, list, u) && u.Free?
    requires page in use && !use[page].Free?
    ensures ListOk(pages[page := Link(r.head)], use[page := u], Region(page, r.allocable + 1), [page] + list, u)
  {
    var next := [page] + list;
    forall i | 0 <= i < |next|
      ensures next[i] in pages[page := Link(r.head)]
      ensures pages[page := Link(r.head)][next[i]] == Link(NextIn(next, i))
    {
      if i > 0 {
        assert next[i] == list[i - 1] != page;
        assert NextIn(next, i) == NextIn(list, i - 1);
      }
    }
  }

  /** After pmem_free of `page` the region is the list `l`. */
  ghost predicate ListAfter(pages: map<int, Page>, r: Region, page: int, l: seq<int>) {
    Chain(pages[page := Link(r.head)], Region(page, r.allocable + 1), l)
  }

  lemma FreedIsHead(pages: map<int, Page>, r: Region, page: int, l: seq<int>)
    requires ListAfter(pages, r, page, l) && l != []
    ensures l[0] == page
  {
  }

  /** From a page that was on the list already, the links go round in its first `k + 1` pages and never end. */
  lemma {:induction false} GoesRound(pages: map<int, Page>, r: Region, list: seq<int>, k: nat, l: seq<int>, i: nat)
    requires Chain(pages, r, list) && k < |list| && (forall x, y :: 0 <= x < y < |list| ==> list[x] != list[y])
    requires (forall x :: 0 <= x < |list| ==> list[x] != 0) && ListAfter(pages, r, list[k], l) && i < |l|
    ensures i + 1 < |l| && exists j: nat :: j <= k && l[i] == list[j]
  {
    hide Chain, ListAfter;
    var j: nat := k;
    FreedIsHead(pages, r, list[k], l);
    if i > 0 {
      GoesRound(pages, r, list, k, l, i - 1);
      var h: nat :| h <= k && l[i - 1] == list[h];
      j := if h == k then 0 else h + 1;
      RoundStep(pages, r, list, k, l, i - 1, h);
    }
    RoundStep(pages, r, list, k, l, i, j);
  }

  lemma RoundStep(pages: map<int, Page>, r: Region, list: seq<int>, k: nat, l: seq<int>, i: nat, h: nat)
    requires Chain(pages, r, list) && k < |list| && (forall x, y :: 0 <= x < y < |list| ==> list[x] != list[y])
    requires ListAfter(pages, r, list[k], l) && i < |l| && h <= k && l[i] == list[h]
    ensures NextIn(l, i) == list[if h == k then 0 else h + 1]
  {
    assert pages[list[h]] == Link(NextIn(list, h));
    assert h < k ==> list[h] != list[k];
  }

  /**
   * pmem_free checks nothing. The region is a finite list afterwards exactly
   * when the page was not on it; a page freed twice makes it go round.
   */
  lemma DoubleFree(pages: map<int, Page>, use: map<int, Use>, r: Region, list: seq<int>, u: Use, page: int)
    requires ListOk(pages, use, r, list, u) && PagesOk(pages) && page in pages
    ensures (exists l :: ListAfter(pages, r, page, l)) <==> page !in list
  {
    if page in list {
      var k: nat :| k < |list| && list[k] == page;
      forall l | ListAfter(pages, r, page, l) ensures false {
        GoesRound(pages, r, list, k, l, |l| - 1);
      }
    } else {
      var next := [page] + list;
      var pages' := pages[page := Link(r.head)];
      forall i | 0 <= i < |next| ensures next[i] in pages' && pages'[next[i]] == Link(NextIn(next, i)) {
        if i > 0 { assert next[i] == list[i - 1] && NextIn(next, i) == NextIn(list, i - 1); }
      }
      assert ListAfter(pages, r, page, next);
    }
  }

  /** A list no page of which is touched, and no page of which changes to or from its use. */
  lemma OtherListKeeps(pages: map<int, Page>, pages': map<int, Page>, use: map<int, Use>, use': map<int, Use>,
                       r: Region, list: seq<int>, u: Use)
    requires ListOk(pages, use, r, list, u)
    requires forall a :: a in pages && a in use && use[a] == u ==> a in pages' && pages'[a] == pages[a]
    requires forall a :: (a in use && use[a] == u) <==> (a in use' && use'[a] == u)
    ensures ListOk(pages', use', r, list, u)
  {
  }

  /** Owned pages may change contents and use; the pools do not notice. */
  lemma OwnedPagesChange(pages: map<int, Page>, use: map<int, Use>, pages': map<int, Page>, use': map<int, Use>,
                         kern: Region, kfree: seq<int>, user: Region, ufree: seq<int>)
    requires PoolsOk(pages, use, kern, kfree, user, ufree)
    requires pages'.Keys == pages.Keys && use'.Keys == use.Keys && PagesOk(pages')
    requires forall a :: a in use ==>
      (use'[a] == use[a] && pages'[a] == pages[a]) || (!use[a].Free? && !use'[a].Free?)
    ensures PoolsOk(pages', use', kern, kfree, user, ufree)
  {
    OtherListKeeps(pages, pages', use, use', kern, kfree, Free(true));
    OtherListKeeps(pages, pages', use, use', user, ufree, Free(false));
    hide ListOk;
  }

  /** Page numbers of the pages in [begin, end). */
  ghost function PagesIn(begin: int, end: int): set<int> {
    set a: int | begin <= a < end && a % 4096 == 0
  }

  /** The pages of [begin, end) in address order. */
  ghost function PageList(begin: int, n: nat): (list: seq<int>) {
    seq(n, i requires 0 <= i => begin + i * 4096)
  }

  lemma PageListEnumerates(use: map<int, Use>, begin: int, n: nat, u: Use)
    requires begin % 4096 == 0
    requires forall a :: a in use && use[a] == u <==> a in PagesIn(begin, begin + n * 4096)
    ensures Enumerates(use, PageList(begin, n), u)
  {
    var list := PageList(begin, n);
    forall i | 0 <= i < |list| ensures list[i] in use && use[list[i]] == u {
      assert list[i] in PagesIn(begin, begin + n * 4096);
    }
    forall a | a in use && use[a] == u ensures a in list {
      assert a in PagesIn(begin, begin + n * 4096);
      assert list[(a - begin) / 4096] == a;
    }
  }

  /** Every page of [begin, begin + n pages) links to the next one, the last to NULL. */
  ghost predicate Threaded(begin: int, n: nat, p: map<int, Page>) {
    && p.Keys == PagesIn(begin, begin + n * 4096)
    && forall a :: a in p ==> p[a] == Link(if a + 4096 < begin + n * 4096 then a + 4096 else 0)
  }

  lemma ThreadedIsList(pages: map<int, Page>, use: map<int, Use>, begin: int, n: nat, u: Use, p: map<int, Page>)
    requires AddressOk(begin) && n > 0 && Threaded(begin, n, p)
    requires forall a :: a in p ==> a in pages && pages[a] == p[a]
    requires forall a :: a in use && use[a] == u <==> a in p
    ensures ListOk(pages, use, Region(begin, n), PageList(begin, n), u)
  {
    PageListEnumerates(use, begin, n, u);
    var list := PageList(begin, n);
    forall i | 0 <= i < |list| ensures list[i] in pages && pages[list[i]] == Link(NextIn(list, i)) {
      assert list[i] in PagesIn(begin, begin + n * 4096);
    }
  }

  lemma InitialPools(begin: int, mid: int, end: int, nk: nat, nu: nat, kp: map<int, Page>, up: map<int, Page>)
    requires AddressOk(begin) && nk > 0 && nu > 0 && end < TWO64
    requires mid == begin + nk * 4096 && end == mid + nu * 4096
    requires Threaded(begin, nk, kp) && Threaded(mid, nu, up)
    ensures PoolsOk(kp + up, map a | a in kp.Keys + up.Keys :: Free(a in kp),
                    Region(begin, nk), PageList(begin, nk), Region(mid, nu), PageList(mid, nu))
    ensures (kp + up).Keys == PagesIn(begin, end)
  {
    var use := map a | a in kp.Keys + up.Keys :: Free(a in kp);
    assert AddressOk(mid);
    assert kp.Keys !! up.Keys;
    assert forall a :: a in use && use[a] == Free(false) <==> a in up;
    assert (kp + up).Keys == PagesIn(begin, end);
    assert PagesOk(kp + up);
    hide PagesIn, PagesOk;
    ThreadedIsList(kp + up, use, begin, nk, Free(true), kp);
    ThreadedIsList(kp + up, use, mid, nu, Free(false), up);
    hide ListOk, PageList;
  }

  /** All physical memory the kernel hands out, with both pools. */
  class Memory {
    var pages: map<int, Page>
    var kern: Region
    var user: Region
    ghost var kfree: seq<int>
    ghost var ufree: seq<int>
    ghost var use: map<int, Use>
    ghost var tbl: map<Key, int>

    ghost predicate Pools()
      reads this
    {
      PoolsOk(pages, use, kern, kfree, user, ufree)
    }

    /** pmem_init: the first `nk` pages go to the kernel pool, the next `nu` to the user pool. */
    constructor (begin: int, nk: nat, nu: nat)
      requires AddressOk(begin) && nk > 0 && nu > 0
      requires begin + (nk + nu) * 4096 < TWO64
      ensures Pools()
      ensures tbl == map[]
      ensures kfree == PageList(begin, nk)
      ensures ufree == PageList(begin + nk * 4096, nu)
      ensures pages.Keys == PagesIn(begin, begin + (nk + nu) * 4096)
      ensures kern == Region(begin, nk) && user == Region(begin + nk * 4096, nu)
      ensures forall a :: a in use ==> use[a].Free?
    {
      hide Threaded, ListOk, PagesOk, PagesIn;
      var mid := begin + nk * 4096;
      var kp := Thread(begin, nk);
      var up := Thread(mid, nu);
      pages := kp + up;
      kern := Region(begin, nk);
      user := Region(mid, nu);
      kfree := PageList(begin, nk);
      ufree := PageList(mid, nu);
      use := map a | a in kp.Keys + up.Keys :: Free(a in kp);
      tbl := map[];
      new;
      InitialPools(begin, mid, mid + nu * 4096, nk, nu, kp, up);
    }

    /** The threading loop of pmem_init for one region. */
    static method Thread(begin: int, n: nat) returns (p: map<int, Page>)
      requires AddressOk(begin)
      ensures Threaded(begin, n, p)
    {
      p := map[];
      var addr := begin;
      for i := 0 to n
        invariant addr == begin + i * 4096
        invariant p.Keys == PagesIn(begin, addr)
        invariant forall a :: a in p ==> p[a] == Link(if a + 4096 < begin + n * 4096 then a + 4096 else 0)
      {
        p := p[addr := Link(if i == n - 1 then 0 else addr + 4096)];
        addr := addr + 4096;
      }
    }

    /** pmem_alloc: pops the first page of the region, or answers NULL when its counter is zero. */
    method Alloc(inKernel: bool) returns (page: int)
      requires Pools()
      modifies this
      ensures Pools()
      ensures pages == old(pages) && tbl == old(tbl)
      ensures inKernel ==> user == old(user) && ufree == old(ufree)
      ensures !inKernel ==> kern == old(kern) && kfree == old(kfree)
      ensures page == 0 <==> old(if inKernel then kern else user).allocable == 0
      ensures page == 0 ==> unchanged(this)
      ensures page != 0 ==>
        && page in use && old(use[page]) == Free(inKernel) && use == old(use)[page := Held]
        && old(if inKernel then kfree else ufree) == [page] + (if inKernel then kfree else ufree)
        && (if inKernel then kern else user).allocable == old(if inKernel then kern else user).allocable - 1
    {
      hide ListOk;
      ListLengths(pages, use, kern, kfree, user, ufree);
      var region := if inKernel then kern else user;
      if region.allocable == 0 {
        return 0;
      }
      PopKeeps(pages, use, region, if inKernel then kfree else ufree, Free(inKernel));
      page := region.head;
      OtherListKeeps(pages, pages, use, use[page := Held], if inKernel then user else kern,
                     if inKernel then ufree else kfree, Free(!inKernel));
      region := Region(pages[page].next, region.allocable - 1);
      use := use[page := Held];
      if inKernel {
        kern, kfree := region, kfree[1..];
      } else {
        user, ufree := region, ufree[1..];
      }
    }

    /** pmem_free: pushes an owned page on the front of the chosen region, whichever pool it came from. */
    method Release(page: int, inKernel: bool)
      requires Pools()
      requires page in pages && !use[page].Free?
      modifies this
      ensures Pools()
      ensures tbl == old(tbl)
      ensures pages.Keys == old(pages).Keys
      ensures forall a :: a in pages && a != page ==> pages[a] == old(pages)[a]
      ensures use == old(use)[page := Free(inKernel)]
      ensures inKernel ==> kfree == [page] + old(kfree) && ufree == old(ufree) && user == old(user)
      ensures !inKernel ==> ufree == [page] + old(ufree) && kfree == old(kfree) && kern == old(kern)
    {
      hide Chain, Enumerates;
      var region := if inKernel then kern else user;
      PushKeeps(pages, use, region, if inKernel then kfree else ufree, Free(inKernel), page);
      OtherListKeeps(pages, pages[page := Link(region.head)], use, use[page := Free(inKernel)],
                     if inKernel then user else kern, if inKernel then ufree else kfree, Free(!inKernel));
      pages := pages[page := Link(region.head)];
      region := Region(page, region.allocable + 1);
      use := use[page := Free(inKernel)];
      if inKernel {
        kern, kfree := region, [page] + kfree;
      } else {
        user, ufree := region, [page] + ufree;
      }
    }
  }
}
