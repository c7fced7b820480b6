/** Page-chunked copies between kernel buffers and user memory (kernel/mem/uvm.c). */
module UserCopy {
  import opened Sv39
  import opened PhysMem
  import opened VMem
  import opened Frames
  import opened UserHeap
  import Fork

  /** The page of byte address `va` is mapped in space `root`. */
  ghost predicate MappedAt(pages: map<int, Page>, root: int, va: nat) {
    IsValid(Walk(pages, root, va / 4096))
  }

  /** The byte that byte-wise translation of `va` finds. */
  ghost function UserByte(pages: map<int, Page>, root: int, va: nat): bv8 {
    ByteOf(pages, FrameFor(pages, root, va / 4096), va % 4096)
  }

  ghost function ByteOf(pages: map<int, Page>, a: int, i: nat): bv8 {
    if a in pages && pages[a].Bytes? && i < |pages[a].bytes| then pages[a].bytes[i] else 0
  }

  ghost predicate RangeMapped(pages: map<int, Page>, root: int, va: nat, len: nat) {
    forall x: nat :: va <= x < va + len ==> MappedAt(pages, root, x)
  }

  /** The bytes of one page lie next to each other: translation inside a page. */
  lemma InPage(va: nat, i: nat)
    requires va % 4096 + i < 4096
    ensures (va + i) / 4096 == va / 4096 && (va + i) % 4096 == va % 4096 + i
  {
  }

  /** How many bytes one round of the copy loops moves: to the end of the page or of the request. */
  function Chunk(va: nat, left: nat): (n: nat)
    ensures n <= left && va % 4096 + n <= 4096 && (left > 0 ==> n > 0)
  {
    if left < 4096 - va % 4096 then left else 4096 - va % 4096
  }

  lemma BelowUserEnd(va: nat)
    ensures va < USER_END <==> va / 4096 < TRAPFRAME_VPN
    ensures va < USER_END ==> va < VA_MAX
  {
  }

  /** The page holding `va`, as the copy loops look it up; 0 when it is not mapped. */
  method Translate(m: Memory, root: int, va: nat) returns (a: int)
    requires UserOk(m) && RootKey(root) in m.tbl && va < USER_END
    ensures a != 0 <==> MappedAt(m.pages, root, va)
    ensures a != 0 ==> a == FrameFor(m.pages, root, va / 4096) && FrameAt(m.pages, m.use, root, va / 4096)
    ensures a != 0 ==>
            a in m.pages && m.pages[a].Bytes? && |m.pages[a].bytes| == 4096 && m.use[a] == FrameOf(root, va / 4096)
  {
    BelowUserEnd(va);
    ZeroIsInvalid();
    hide IsValid, IsLeaf, PteToPa, Digit;
    var pte, w := LookUp(m, root, va);
    if pte == Null || !IsValid(w) {
      return 0;
    }
    assert FrameAt(m.pages, m.use, root, va / 4096);
    a := PteToPa(w);
    assert PageOk(m.pages[a]) && AddressOk(a);
  }

  /** uvm_copyin; false stands for the panic on an unmapped page. */
  method UvmCopyIn(m: Memory, root: int, dst: array<bv8>, src: nat, len: nat) returns (ok: bool)
    requires UserOk(m) && RootKey(root) in m.tbl && len <= dst.Length && src + len <= USER_END
    modifies dst
    ensures ok <==> RangeMapped(m.pages, root, src, len)
    ensures ok ==> forall i :: 0 <= i < len ==> dst[i] == UserByte(m.pages, root, src + i)
    ensures forall i :: len <= i < dst.Length ==> dst[i] == old(dst[i])
  {
    hide PoolsOk, TreeOk, FramesOk, FrameAt, UserByte, MappedAt, Walk, IsValid, IsLeaf, PteToPa;
    var copied := 0;
    while copied < len
      invariant copied <= len
      invariant RangeMapped(m.pages, root, src, copied)
      invariant forall i :: 0 <= i < copied ==> dst[i] == UserByte(m.pages, root, src + i)
      invariant forall i :: len <= i < dst.Length ==> dst[i] == old(dst[i])
    {
      var a := Translate(m, root, src + copied);
      if a == 0 {
        return false;
      }
      var n := Chunk(src + copied, len - copied);
      CopyChunkIn(m, root, dst, src, copied, src + copied, a, n);
      copied := copied + n;
    }
    return true;
  }

  /** The byte loop inside uvm_copyin: `n` bytes to offset `at` of the kernel buffer. */
  method CopyChunkIn(m: Memory, ghost root: int, dst: array<bv8>, ghost src: nat, at: nat, va: nat, a: int, n: nat)
    requires va == src + at && at + n <= dst.Length && va % 4096 + n <= 4096
    requires a == FrameFor(m.pages, root, va / 4096) && MappedAt(m.pages, root, va)
    requires a in m.pages && m.pages[a].Bytes? && |m.pages[a].bytes| == 4096
    modifies dst
    ensures forall k :: at <= k < at + n ==> dst[k] == UserByte(m.pages, root, src + k)
    ensures forall k :: 0 <= k < dst.Length && !(at <= k < at + n) ==> dst[k] == old(dst[k])
    ensures RangeMapped(m.pages, root, va, n)
  {
    for i := 0 to n
      invariant forall k :: at <= k < at + i ==> dst[k] == UserByte(m.pages, root, src + k)
      invariant forall k :: 0 <= k < dst.Length && !(at <= k < at + i) ==> dst[k] == old(dst[k])
    {
      InPage(va, i);
      dst[at + i] := m.pages[a].bytes[va % 4096 + i];
      assert UserByte(m.pages, root, src + (at + i)) == ByteOf(m.pages, a, va % 4096 + i);
    }
    forall x: nat | va <= x < va + n ensures MappedAt(m.pages, root, x) {
      InPage(va, x - va);
    }
  }

  // ---------- kernel to user ----------

  /**
   * The effect of a copy to user memory on every user byte of every space:
   * the bytes of the range in this space are the source bytes, all others
   * are untouched, and no translation changes.
   */
  ghost predicate Wrote(p0: map<int, Page>, p1: map<int, Page>, tbl: map<Key, int>,
                        root: int, dst: nat, src: seq<bv8>, n: nat)
    requires n <= |src|
  {
    && SameWalks(p0, p1, tbl)
    && forall r, x: nat :: RootKey(r) in tbl && x < USER_END && MappedAt(p0, r, x) ==>
         UserByte(p1, r, x) == if r == root && dst <= x < dst + n then src[x - dst] else UserByte(p0, r, x)
  }

  lemma PagePut(pages: map<int, Page>, a: int, p: Page)
    requires PagesOk(pages) && PageOk(p) && a in pages
    ensures PagesOk(pages[a := p])
  {
    hide PageOk;
  }

  /** A frame page may get other bytes. */
  lemma FrameRewritten(pages: map<int, Page>, use: map<int, Use>, tbl: map<Key, int>, a: int, p: Page)
    requires TreeOk(pages, use, tbl) && FramesOk(pages, use, tbl) && PagesOk(pages) && PageOk(p)
    requires a in pages && a in use && use[a].FrameOf? && p.Bytes?
    ensures PagesOk(pages[a := p]) && TreeOk(pages[a := p], use, tbl) && FramesOk(pages[a := p], use, tbl)
    ensures SameWalks(pages, pages[a := p], tbl)
  {
    hide TreeOk, IsValid, IsLeaf, PteToPa, Walk, PagesOk, PageOk;
    var pages' := pages[a := p];
    PagePut(pages, a, p);
    OtherPagesKeep(pages, pages', use, use, tbl);
    forall r, v: nat | RootKey(r) in tbl && v < TRAPFRAME_VPN && Walk(pages', r, v) != 0
      ensures FrameAt(pages', use, r, v)
    {
      assert Walk(pages', r, v) == Walk(pages, r, v);
      assert FrameAt(pages, use, r, v);
    }
    forall b | b in use && use[b].FrameOf? ensures OwnerOk(pages', use, tbl, b) {
      assert OwnerOk(pages, use, tbl, b);
    }
  }

  /** Bytes `n` of the source laid over page bytes from offset `off`. */
  ghost predicate Overlaid(b0: seq<bv8>, b1: seq<bv8>, off: nat, src: seq<bv8>, at: nat, n: nat) {
    && |b1| == |b0| == 4096 && off + n <= 4096 && at + n <= |src|
    && forall i :: 0 <= i < 4096 ==> b1[i] == if off <= i < off + n then src[at + (i - off)] else b0[i]
  }

  lemma SamePage(x: nat, va: nat, n: nat)
    requires va % 4096 + n <= 4096
    ensures va <= x < va + n <==> x / 4096 == va / 4096 && va % 4096 <= x % 4096 < va % 4096 + n
    ensures va <= x < va + n ==> x - va == x % 4096 - va % 4096
    ensures x % 4096 < 4096
  {
  }

  lemma WroteChunk(p0: map<int, Page>, p1: map<int, Page>, use: map<int, Use>, tbl: map<Key, int>, root: int,
                   dst: nat, src: seq<bv8>, at: nat, n: nat, a: int, b1: seq<bv8>)
    requires at + n <= |src| && Wrote(p0, p1, tbl, root, dst, src, at) && FramesOk(p1, use, tbl) && RootKey(root) in tbl
    requires dst + at < USER_END && (dst + at) % 4096 + n <= 4096
    requires a == FrameFor(p1, root, (dst + at) / 4096) && FrameAt(p1, use, root, (dst + at) / 4096)
    requires a in p1 && p1[a].Bytes? && Overlaid(p1[a].bytes, b1, (dst + at) % 4096, src, at, n)
    requires SameWalks(p1, p1[a := Bytes(b1)], tbl)
    ensures Wrote(p0, p1[a := Bytes(b1)], tbl, root, dst, src, at + n)
  {
    var p2 := p1[a := Bytes(b1)];
    hide MappedAt, UserByte, Walk, FrameAt, FramesOk;
    forall r, x: nat | RootKey(r) in tbl && x < USER_END && MappedAt(p0, r, x)
      ensures UserByte(p2, r, x) == if r == root && dst <= x < dst + (at + n) then src[x - dst] else UserByte(p0, r, x)
    {
      WroteByte(p0, p1, use, tbl, root, dst, src, at, n, a, b1, r, x);
    }
  }

  lemma WroteSame(p0: map<int, Page>, p1: map<int, Page>, tbl: map<Key, int>, root: int, dst: nat, src: seq<bv8>,
      at: nat)
    requires at <= |src| && Wrote(p0, p1, tbl, root, dst, src, at)
    ensures SameWalks(p0, p1, tbl)
  {
  }

  lemma WroteAt(p0: map<int, Page>, p1: map<int, Page>, tbl: map<Key, int>, root: int, dst: nat, src: seq<bv8>, at: nat,
                r: int, x: nat)
    requires at <= |src| && Wrote(p0, p1, tbl, root, dst, src, at) && RootKey(r) in tbl && x < USER_END
             && MappedAt(p0, r, x)
    ensures UserByte(p1, r, x) == if r == root && dst <= x < dst + at then src[x - dst] else UserByte(p0, r, x)
  {
    hide UserByte;
  }

  lemma WroteByte(p0: map<int, Page>, p1: map<int, Page>, use: map<int, Use>, tbl: map<Key, int>, root: int,
                  dst: nat, src: seq<bv8>, at: nat, n: nat, a: int, b1: seq<bv8>, r: int, x: nat)
    requires at + n <= |src| && Wrote(p0, p1, tbl, root, dst, src, at) && FramesOk(p1, use, tbl) && RootKey(root) in tbl
    requires dst + at < USER_END && (dst + at) % 4096 + n <= 4096
    requires a == FrameFor(p1, root, (dst + at) / 4096) && FrameAt(p1, use, root, (dst + at) / 4096)
    requires a in p1 && p1[a].Bytes? && Overlaid(p1[a].bytes, b1, (dst + at) % 4096, src, at, n)
    requires SameWalks(p1, p1[a := Bytes(b1)], tbl)
    requires RootKey(r) in tbl && x < USER_END && MappedAt(p0, r, x)
    ensures UserByte(p1[a := Bytes(b1)], r, x) ==
            if r == root && dst <= x < dst + (at + n) then src[x - dst] else UserByte(p0, r, x)
  {
    hide Walk, MappedAt, FramesOk, FrameAt, FrameFor, SameWalks, Wrote;
    var p2, va := p1[a := Bytes(b1)], dst + at;
    BelowUserEnd(va);
    WroteSame(p0, p1, tbl, root, dst, src, at);
    StoredFrame(p0, p1, use, tbl, root, va / 4096, a, Bytes(b1), r, x);
    SamePage(x, va, n);
    WroteAt(p0, p1, tbl, root, dst, src, at, r, x);
    assert UserByte(p2, r, x) == if r == root && va <= x < va + n then src[x - dst] else UserByte(p1, r, x);
  }

  /** A store into one frame: the frames of all pages stay, and only that page has this one. */
  lemma StoredFrame(p0: map<int, Page>, p1: map<int, Page>, use: map<int, Use>, tbl: map<Key, int>, root: int, v: nat,
                    a: int, p: Page, r: int, x: nat)
    requires SameWalks(p0, p1, tbl) && SameWalks(p1, p1[a := p], tbl) && FramesOk(p1, use, tbl)
    requires RootKey(root) in tbl && v < TRAPFRAME_VPN && a == FrameFor(p1, root, v) && FrameAt(p1, use, root, v)
    requires RootKey(r) in tbl && x < USER_END && MappedAt(p0, r, x)
    ensures FrameFor(p1[a := p], r, x / 4096) == FrameFor(p1, r, x / 4096)
    ensures FrameFor(p1, r, x / 4096) == a <==> r == root && x / 4096 == v
  {
    hide IsValid, IsLeaf, PteToPa, Walk;
    BelowUserEnd(x);
    assert Walk(p1[a := p], r, x / 4096) == Walk(p1, r, x / 4096) == Walk(p0, r, x / 4096);
    ZeroIsInvalid();
    FramesAreDistinct(p1, use, tbl, r, x / 4096, root, v);
  }

  /** The byte loop inside uvm_copyout, on one frame. */
  method StoreChunk(m: Memory, a: int, off: nat, src: seq<bv8>, at: nat, n: nat) returns (b: seq<bv8>)
    requires UserOk(m) && a in m.pages && m.pages[a].Bytes? && |m.pages[a].bytes| == 4096
    requires a in m.use && m.use[a].FrameOf? && off + n <= 4096 && at + n <= |src|
    modifies m`pages
    ensures UserOk(m) && SameWalks(old(m.pages), m.pages, m.tbl)
    ensures m.pages == old(m.pages)[a := Bytes(b)] && Overlaid(old(m.pages[a].bytes), b, off, src, at, n)
  {
    hide PoolsOk, TreeOk, FramesOk, SameWalks, PagesOk;
    PoolsBasics(m.pages, m.use, m.kern, m.kfree, m.user, m.ufree);
    b := m.pages[a].bytes;
    for i := 0 to n
      invariant Overlaid(m.pages[a].bytes, b, off, src, at, i)
    {
      b := b[off + i := src[at + i]];
    }
    FrameRewritten(m.pages, m.use, m.tbl, a, Bytes(b));
    OwnedPagesChange(m.pages, m.use, m.pages[a := Bytes(b)], m.use, m.kern, m.kfree, m.user, m.ufree);
    assert Overlaid(old(m.pages[a].bytes), b, off, src, at, n);
    StorePage(m, a, Bytes(b));
  }

  method StorePage(m: Memory, a: int, p: Page)
    requires PoolsOk(m.pages[a := p], m.use, m.kern, m.kfree, m.user, m.ufree)
    requires TreeOk(m.pages[a := p], m.use, m.tbl) && FramesOk(m.pages[a := p], m.use, m.tbl)
    modifies m`pages
    ensures UserOk(m) && m.pages == old(m.pages)[a := p]
  {
    hide PoolsOk, TreeOk, FramesOk;
    m.pages := m.pages[a := p];
  }

  /** uvm_copyout; false stands for the panic on an unmapped page. */
  method UvmCopyOut(m: Memory, root: int, dst: nat, src: seq<bv8>) returns (ok: bool)
    requires UserOk(m) && RootKey(root) in m.tbl && dst + |src| <= USER_END
    modifies m
    ensures UserOk(m)
    ensures m.use == old(m.use) && m.tbl == old(m.tbl) && m.kern == old(m.kern) && m.user == old(m.user)
    ensures ok <==> RangeMapped(old(m.pages), root, dst, |src|)
    ensures ok ==> Wrote(old(m.pages), m.pages, m.tbl, root, dst, src, |src|)
    ensures ok ==> forall r, v: nat :: RootKey(r) in m.tbl && v < VPN_MAX ==>
      Walk(m.pages, r, v) == Walk(old(m.pages), r, v)
    ensures ok ==> forall r, x: nat :: RootKey(r) in m.tbl && x < USER_END && MappedAt(old(m.pages), r, x) ==>
      UserByte(m.pages, r, x)
      == if r == root && dst <= x < dst + |src| then src[x - dst] else UserByte(old(m.pages), r, x)
  {
    ok := CopyOutAll(m, root, dst, src, m.pages);
  }

  /** The loop of uvm_copyout. */
  method CopyOutAll(m: Memory, root: int, dst: nat, src: seq<bv8>, ghost p0: map<int, Page>) returns (ok: bool)
    requires UserOk(m) && RootKey(root) in m.tbl && dst + |src| <= USER_END && p0 == m.pages
    modifies m
    ensures UserOk(m)
    ensures m.use == old(m.use) && m.tbl == old(m.tbl) && m.kern == old(m.kern) && m.user == old(m.user)
    ensures ok <==> RangeMapped(p0, root, dst, |src|)
    ensures ok ==> Wrote(p0, m.pages, m.tbl, root, dst, src, |src|)
  {
    hide PoolsOk, TreeOk, FramesOk, Wrote, RangeMapped;
    var copied := 0;
    ok := true;
    WroteNothing(p0, m.tbl, root, dst, src);
    while ok && copied < |src|
      invariant copied <= |src|
      invariant UserOk(m) && RootKey(root) in m.tbl
      invariant m.use == old(m.use) && m.tbl == old(m.tbl) && m.kern == old(m.kern) && m.user == old(m.user)
      invariant ok ==> Wrote(p0, m.pages, m.tbl, root, dst, src, copied)
      invariant ok ==> RangeMapped(p0, root, dst, copied)
      invariant !ok ==> !RangeMapped(p0, root, dst, |src|)
      decreases if ok then |src| - copied + 1 else 0
    {
      var n: nat;
      ok, n := CopyOutRound(m, root, dst, src, copied, p0);
      RangeGrows(p0, root, dst, copied, n, |src|);
      if ok {
        copied := copied + n;
      }
    }
    if ok {
      assert copied == |src|;
    }
  }

  lemma WroteNothing(p0: map<int, Page>, tbl: map<Key, int>, root: int, dst: nat, src: seq<bv8>)
    ensures Wrote(p0, p0, tbl, root, dst, src, 0) && RangeMapped(p0, root, dst, 0)
  {
  }

  lemma RangeGrows(pages: map<int, Page>, root: int, va: nat, at: nat, n: nat, len: nat)
    ensures RangeMapped(pages, root, va, at) && RangeMapped(pages, root, va + at, n) ==>
            RangeMapped(pages, root, va, at + n)
    ensures at < len && !MappedAt(pages, root, va + at) ==> !RangeMapped(pages, root, va, len)
  {
    if RangeMapped(pages, root, va, at) && RangeMapped(pages, root, va + at, n) {
      forall x: nat | va <= x < va + (at + n) ensures MappedAt(pages, root, x) {}
    }
  }

  /** One round of uvm_copyout: translate, then fill to the end of the page or of the request. */
  method CopyOutRound(m: Memory, root: int, dst: nat, src: seq<bv8>, at: nat, ghost p0: map<int, Page>)
    returns (ok: bool, n: nat)
    requires UserOk(m) && RootKey(root) in m.tbl && dst + |src| <= USER_END && at < |src|
    requires Wrote(p0, m.pages, m.tbl, root, dst, src, at)
    modifies m
    ensures UserOk(m) && m.use == old(m.use) && m.tbl == old(m.tbl) && m.kern == old(m.kern) && m.user == old(m.user)
    ensures at + n <= |src|
    ensures ok ==> n > 0 && RangeMapped(p0, root, dst + at, n) && Wrote(p0, m.pages, m.tbl, root, dst, src, at + n)
    ensures !ok ==> unchanged(m) && !MappedAt(p0, root, dst + at)
  {
    hide PoolsOk, TreeOk, FramesOk, FrameAt, SameWalks, IsValid, IsLeaf, PteToPa, Walk, Wrote, RangeMapped, MappedAt,
        UserByte;
    WroteSame(p0, m.pages, m.tbl, root, dst, src, at);
    SameMapping(p0, m.pages, m.tbl, root, dst + at);
    var a := Translate(m, root, dst + at);
    n := 0;
    if a != 0 {
      n := Chunk(dst + at, |src| - at);
      ChunkMapped(p0, root, dst + at, n);
      FillFrame(m, root, dst, src, at, a, n, p0);
    }
    ok := a != 0;
  }

  method FillFrame(m: Memory, ghost root: int, dst: nat, src: seq<bv8>, at: nat, a: int, n: nat,
      ghost p0: map<int, Page>)
    requires UserOk(m) && RootKey(root) in m.tbl && at + n <= |src|
    requires dst + at < USER_END && (dst + at) % 4096 + n <= 4096
    requires Wrote(p0, m.pages, m.tbl, root, dst, src, at)
    requires a == FrameFor(m.pages, root, (dst + at) / 4096) && FrameAt(m.pages, m.use, root, (dst + at) / 4096)
    requires a in m.pages && m.pages[a].Bytes? && |m.pages[a].bytes| == 4096 && m.use[a].FrameOf?
    modifies m`pages
    ensures UserOk(m) && Wrote(p0, m.pages, m.tbl, root, dst, src, at + n)
  {
    ghost var p1 := m.pages;
    hide PoolsOk, TreeOk, FramesOk, FrameAt, SameWalks, IsValid, IsLeaf, PteToPa, Walk, FrameFor, Overlaid;
    var b := StoreChunk(m, a, (dst + at) % 4096, src, at, n);
    WroteChunk(p0, p1, m.use, m.tbl, root, dst, src, at, n, a, b);
  }

  lemma SameMapping(p0: map<int, Page>, p1: map<int, Page>, tbl: map<Key, int>, root: int, va: nat)
    requires SameWalks(p0, p1, tbl) && RootKey(root) in tbl && va < USER_END
    ensures MappedAt(p1, root, va) == MappedAt(p0, root, va)
  {
    BelowUserEnd(va);
    assert Walk(p1, root, va / 4096) == Walk(p0, root, va / 4096);
  }

  lemma ChunkMapped(pages: map<int, Page>, root: int, va: nat, n: nat)
    requires MappedAt(pages, root, va) && va % 4096 + n <= 4096
    ensures RangeMapped(pages, root, va, n)
  {
    forall x: nat | va <= x < va + n ensures MappedAt(pages, root, x) {
      InPage(va, x - va);
    }
  }

  /** Copying out and then reading the range back gives the source bytes. */
  lemma CopyOutThenIn(p0: map<int, Page>, p1: map<int, Page>, tbl: map<Key, int>, root: int, dst: nat, src: seq<bv8>)
    requires Wrote(p0, p1, tbl, root, dst, src, |src|) && RootKey(root) in tbl && dst + |src| <= USER_END
    requires RangeMapped(p0, root, dst, |src|)
    ensures RangeMapped(p1, root, dst, |src|)
    ensures forall i :: 0 <= i < |src| ==> UserByte(p1, root, dst + i) == src[i]
  {
    forall x: nat | dst <= x < dst + |src| ensures MappedAt(p1, root, x) && UserByte(p1, root, x) == src[x - dst] {
      assert MappedAt(p0, root, x);
      BelowUserEnd(x);
      assert Walk(p1, root, x / 4096) == Walk(p0, root, x / 4096);
    }
  }

  // ---------- strings ----------

  /** A user byte of a string: mapped, and not NUL. */
  ghost predicate StringByte(pages: map<int, Page>, root: int, va: nat, b: bv8) {
    MappedAt(pages, root, va) && b == UserByte(pages, root, va) != 0
  }

  /** The first `n` user bytes from `src` are mapped, not NUL, and stand in the buffer. */
  ghost predicate StringPrefix(pages: map<int, Page>, root: int, src: nat, buf: seq<bv8>, n: nat) {
    n <= |buf| && forall k :: 0 <= k < n ==> StringByte(pages, root, src + k, buf[k])
  }

  /**
   * uvm_copyin_str. When it succeeds the buffer holds a NUL-terminated string
   * shorter than `maxlen`: the user string itself, or its first maxlen - 1
   * bytes when no NUL comes within maxlen. When it panics, every byte before
   * the first unmapped one was no NUL. `n` is the length reached.
   */
  method UvmCopyInStr(m: Memory, root: int, dst: array<bv8>, src: nat, maxlen: nat) returns (ok: bool, ghost n: nat)
    requires UserOk(m) && RootKey(root) in m.tbl && maxlen <= dst.Length && src + maxlen <= USER_END
    modifies dst
    ensures n <= dst.Length && forall k :: 0 <= k < n ==> StringByte(m.pages, root, src + k, dst[k])
    ensures ok && maxlen > 0 ==>
      && n < maxlen && dst[n] == 0
      && (UserByte(m.pages, root, src + n) == 0 || n == maxlen - 1)
    ensures !ok ==> n < maxlen && !MappedAt(m.pages, root, src + n)
    ensures forall k :: maxlen <= k < dst.Length ==> dst[k] == old(dst[k])
  {
    hide PoolsOk, TreeOk, FramesOk, FrameAt, UserByte, MappedAt, Walk, IsValid, IsLeaf, PteToPa, StringByte;
    var copied := 0;
    n := 0;
    while copied < maxlen
      invariant copied <= maxlen
      invariant StringPrefix(m.pages, root, src, dst[..], copied)
      invariant forall k :: maxlen <= k < dst.Length ==> dst[k] == old(dst[k])
    {
      var a := Translate(m, root, src + copied);
      if a == 0 {
        PrefixMeans(m.pages, root, src, dst[..], dst, copied);
        return false, copied;
      }
      var len := Chunk(src + copied, maxlen - copied);
      var found, i := CopyChunkStr(m, root, dst, src, copied, src + copied, a, len);
      copied := copied + i;
      if found {
        PrefixMeans(m.pages, root, src, dst[..], dst, copied);
        return true, copied;
      }
    }
    ok, n := true, copied;
    if copied > 0 {
      n := copied - 1;
      ghost var was := dst[..];
      dst[copied - 1] := 0;
      Shorter(m.pages, root, src, was, dst[..], n);
    }
    PrefixMeans(m.pages, root, src, dst[..], dst, n);
  }

  lemma Shorter(pages: map<int, Page>, root: int, src: nat, was: seq<bv8>, buf: seq<bv8>, n: nat)
    requires StringPrefix(pages, root, src, was, n + 1) && |buf| == |was| && buf == was[n := buf[n]]
    ensures StringPrefix(pages, root, src, buf, n)
  {
    hide StringByte;
    forall k | 0 <= k < n ensures StringByte(pages, root, src + k, buf[k]) {
      assert StringByte(pages, root, src + k, was[k]);
    }
  }

  lemma PrefixMeans(pages: map<int, Page>, root: int, src: nat, buf: seq<bv8>, dst: array<bv8>, n: nat)
    requires StringPrefix(pages, root, src, buf, n) && buf == dst[..]
    ensures n <= dst.Length && forall k :: 0 <= k < n ==> StringByte(pages, root, src + k, dst[k])
  {
    hide StringByte;
    forall k | 0 <= k < n ensures StringByte(pages, root, src + k, dst[k]) {
      assert buf[k] == dst[k];
    }
  }

  /** One more byte at the end of the string read so far; a NUL is stored, and not part of it. */
  lemma PrefixStep(pages: map<int, Page>, root: int, src: nat, was: seq<bv8>, buf: seq<bv8>, n: nat)
    requires StringPrefix(pages, root, src, was, n) && n < |was| == |buf| && buf == was[n := buf[n]]
    requires MappedAt(pages, root, src + n) && buf[n] == UserByte(pages, root, src + n)
    ensures StringPrefix(pages, root, src, buf, n)
    ensures buf[n] != 0 ==> StringPrefix(pages, root, src, buf, n + 1)
  {
    assert buf[n] != 0 ==> StringByte(pages, root, src + n, buf[n]);
    hide StringByte, MappedAt, UserByte;
    forall k: nat | k < n ensures StringByte(pages, root, src + k, buf[k]) {
      assert was[k] == buf[k];
    }
  }

  /** Byte `i` of a chunk, by translation of its own address. */
  lemma ByteInPage(pages: map<int, Page>, root: int, va: nat, a: int, i: nat)
    requires va % 4096 + i < 4096 && a == FrameFor(pages, root, va / 4096) && MappedAt(pages, root, va)
    requires a in pages && pages[a].Bytes? && |pages[a].bytes| == 4096
    ensures MappedAt(pages, root, va + i) && UserByte(pages, root, va + i) == pages[a].bytes[va % 4096 + i]
  {
    InPage(va, i);
  }

  /** The byte loop inside uvm_copyin_str: it stops after storing a NUL. */
  method CopyChunkStr(m: Memory, ghost root: int, dst: array<bv8>, ghost src: nat, at: nat, va: nat, a: int, len: nat)
    returns (found: bool, i: nat)
    requires va == src + at && at + len <= dst.Length && va % 4096 + len <= 4096 && len > 0
    requires a == FrameFor(m.pages, root, va / 4096) && MappedAt(m.pages, root, va)
    requires a in m.pages && m.pages[a].Bytes? && |m.pages[a].bytes| == 4096
    requires StringPrefix(m.pages, root, src, dst[..], at)
    modifies dst
    ensures i <= len && (found ==> i < len && dst[at + i] == 0 == UserByte(m.pages, root, src + at + i))
    ensures !found ==> i == len
    ensures StringPrefix(m.pages, root, src, dst[..], at + i)
    ensures forall k :: at + len <= k < dst.Length ==> dst[k] == old(dst[k])
  {
    hide StringPrefix, UserByte, MappedAt, FrameFor;
    ChunkMapped(m.pages, root, va, len);
    i := 0;
    while i < len
      invariant i <= len
      invariant StringPrefix(m.pages, root, src, dst[..], at + i)
      invariant forall k :: at + len <= k < dst.Length ==> dst[k] == old(dst[k])
    {
      ByteInPage(m.pages, root, va, a, i);
      ghost var was := dst[..];
      dst[at + i] := m.pages[a].bytes[va % 4096 + i];
      PrefixStep(m.pages, root, src, was, dst[..], at + i);
      if m.pages[a].bytes[va % 4096 + i] == 0 {
        return true, i;
      }
      i := i + 1;
    }
    return false, i;
  }

  // ---------- fork isolation ----------

  /**
   * Right after the copy, parent and child read the same bytes on every
   * mapped heap and stack page, and the child maps exactly those pages of
   * the ranges that the parent maps.
   */
  lemma ForkedAlike(p0: map<int, Page>, u0: map<int, Use>, t0: map<Key, int>,
                    p1: map<int, Page>, u1: map<int, Use>, t1: map<Key, int>,
                    parent: int, child: int, heapTop: nat, s: nat, va: nat)
    requires Fork.Copied(p0, u0, t0, p1, u1, t1, parent, child, TopPage(heapTop), s) && FramesOk(p0, u0, t0)
    requires RootKey(parent) in t0 && parent != child && u0.Keys == p0.Keys && s <= TRAPFRAME_VPN
    requires va < USER_END && (va < heapTop || USER_END - s * 4096 <= va)
    ensures MappedAt(p1, child, va) <==> MappedAt(p0, parent, va)
    ensures MappedAt(p0, parent, va) ==>
      && UserByte(p1, child, va) == UserByte(p0, parent, va)
      && UserByte(p1, parent, va) == UserByte(p0, parent, va)
  {
    var v := va / 4096;
    BelowUserEnd(va);
    ZeroIsInvalid();
    Fork.PageOfByte(heapTop, s, va);
    if IsValid(Walk(p0, parent, v)) {
      assert Fork.CopyOf(p0, u0, p1, parent, child, v);
      assert FrameAt(p0, u0, parent, v);
    }
  }

  /** One finished uvm_copyout. */
  datatype Store = Store(root: int, dst: nat, src: seq<bv8>)

  ghost predicate Stored(p0: map<int, Page>, p1: map<int, Page>, tbl: map<Key, int>, w: Store) {
    Wrote(p0, p1, tbl, w.root, w.dst, w.src, |w.src|)
  }

  /** A byte of a space after a run of copies, as if the space had a memory of its own. */
  function Replay(b: bv8, stores: seq<Store>, root: int, va: nat): bv8 {
    if stores == [] then b
    else
      var w := stores[|stores| - 1];
      if w.root == root && w.dst <= va < w.dst + |w.src| then w.src[va - w.dst]
      else Replay(b, stores[..|stores| - 1], root, va)
  }

  /** Over any run of copies through any tables, each space reads what its own copies have stored. */
  lemma {:induction false} StoresRefineSpaces(run: seq<map<int, Page>>, stores: seq<Store>, tbl: map<Key, int>,
      n: nat, root: int, va: nat)
    requires n <= |stores| && |run| == |stores| + 1 && RootKey(root) in tbl && va < USER_END
             && MappedAt(run[0], root, va)
    requires forall i :: 0 <= i < |stores| ==> Stored(run[i], run[i + 1], tbl, stores[i])
    ensures MappedAt(run[n], root, va)
    ensures UserByte(run[n], root, va) == Replay(UserByte(run[0], root, va), stores[..n], root, va)
  {
    hide MappedAt, UserByte, SameWalks;
    if n == 0 {
      assert stores[..0] == [];
    } else {
      StoresRefineSpaces(run, stores, tbl, n - 1, root, va);
      assert Stored(run[n - 1], run[n - 1 + 1], tbl, stores[n - 1]);
      SameMapping(run[n - 1], run[n], tbl, root, va);
      assert stores[..n][..n - 1] == stores[..n - 1];
    }
  }

  lemma {:induction false} NotThrough(b: bv8, stores: seq<Store>, root: int, va: nat)
    requires forall i :: 0 <= i < |stores| ==> stores[i].root != root
    ensures Replay(b, stores, root, va) == b
  {
    if stores != [] { NotThrough(b, stores[..|stores| - 1], root, va); }
  }

  /**
   * Fork isolation: after the copy, no run of copies through other tables
   * changes what the child reads on the copied pages, which stays what the
   * parent read at the fork; and the same for the parent.
   */
  lemma ForkIsolation(p0: map<int, Page>, u0: map<int, Use>, t0: map<Key, int>, u1: map<int, Use>, t1: map<Key, int>,
                      parent: int, child: int, heapTop: nat, s: nat,
                      run: seq<map<int, Page>>, stores: seq<Store>, va: nat)
    requires |run| == |stores| + 1 && forall i :: 0 <= i < |stores| ==> Stored(run[i], run[i + 1], t1, stores[i])
    requires Fork.Copied(p0, u0, t0, run[0], u1, t1, parent, child, TopPage(heapTop), s) && FramesOk(p0, u0, t0)
    requires RootKey(parent) in t0 && RootKey(child) in t0 && parent != child && u0.Keys == p0.Keys
    requires va < USER_END && (va < heapTop || USER_END - s * 4096 <= va) && s <= TRAPFRAME_VPN
    requires MappedAt(p0, parent, va)
    ensures (forall i :: 0 <= i < |stores| ==> stores[i].root != child) ==>
      MappedAt(run[|stores|], child, va) && UserByte(run[|stores|], child, va) == UserByte(p0, parent, va)
    ensures (forall i :: 0 <= i < |stores| ==> stores[i].root != parent) ==>
      MappedAt(run[|stores|], parent, va) && UserByte(run[|stores|], parent, va) == UserByte(p0, parent, va)
  {
    ForkedAlike(p0, u0, t0, run[0], u1, t1, parent, child, heapTop, s, va);
    ParentMapped(p0, u0, t0, run[0], u1, t1, parent, child, TopPage(heapTop), s, va);
    assert RootKey(parent) in t1 && RootKey(child) in t1;
    hide MappedAt, UserByte, Fork.Copied, FramesOk, TopPage;
    var n := |stores|;
    StoresRefineSpaces(run, stores, t1, n, child, va);
    StoresRefineSpaces(run, stores, t1, n, parent, va);
    assert stores[..n] == stores;
    if forall i :: 0 <= i < |stores| ==> stores[i].root != child {
      NotThrough(UserByte(run[0], child, va), stores, child, va);
    }
    if forall i :: 0 <= i < |stores| ==> stores[i].root != parent {
      NotThrough(UserByte(run[0], parent, va), stores, parent, va);
    }
  }

  lemma ParentMapped(p0: map<int, Page>, u0: map<int, Use>, t0: map<Key, int>,
                     p1: map<int, Page>, u1: map<int, Use>, t1: map<Key, int>,
                     parent: int, child: int, h: nat, s: nat, va: nat)
    requires Fork.Copied(p0, u0, t0, p1, u1, t1, parent, child, h, s) && va < USER_END && MappedAt(p0, parent, va)
    requires RootKey(parent) in t0 && parent != child
    ensures MappedAt(p1, parent, va)
  {
    BelowUserEnd(va);
  }
}
