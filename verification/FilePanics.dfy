/**
 * What failed dups and unlinked files lead to (kernel/fs/file.c:133-158,
 * kernel/syscall/sysfile.c:57-164), each shown by a run of calls on a root
 * directory with one file, a.
 */
module FilePanics {
  import Dir
  import opened Path
  import opened LinkCount
  import opened PathWalk
  import opened FileTree
  import opened PathPanics
  import opened Files
  import InodeCache

  /** Inode 0 is the root, 1 the file, and the others have lost their names. */
  function OneLink(m: nat): map<int, InodeCache.Meta> {
    map i: int | 0 <= i <= m && Numbered(i, m) :: InodeCache.Meta(if i <= 1 then 1 else 0, 0)
  }

  lemma LinksMatch(m: nat)
    requires m >= 1
    ensures forall n :: n in Crowd(1) ==> n in OneLink(m) && OneLink(m)[n].nlink == Crowd(1)[n].nlink
  {
    assert Numbered(0, m) && Numbered(1, m);
  }

  lemma FileFound()
    ensures TreeOk(Crowd(1)) && Components("a") == ["a"] && Dir.NoNul("a")
    ensures Look(Crowd(1), 0, ["a"], false) == Inode(1) && !DirIn(Crowd(1), 1) && 0 in Crowd(1)
    ensures NamesChild(Crowd(1), ["a"], 0, 1) && MayUnlink(Crowd(1), ["a"], 1)
    ensures Crowd(1)[1].nlink == 1
  {
    hide TreeOk, Dir.Entries, RootBlock, Fields, Look, Dir.Lookup;
    CrowdOk(1);
    Paths();
    LookupIs(1, 2);
    RootIs(1, "a");
    assert NamesChild(Crowd(1), ["a"], 0, 1);
  }

  /** File a is open in process 0. */
  method OpenedA() returns (t: Table, fd: int)
    ensures fresh(t) && fresh(t.fs) && fresh(t.fs.cache) && t.Valid() && t.fs.nodes == Crowd(1)
    ensures IsFd(fd) && ListsOk(t.lists) && |t.files| == 32 && 0 <= t.lists[0][fd] < 32
    ensures t.files[t.lists[0][fd]] == File(true, 1, 1) && t.irefs == map[1 := 1]
    ensures |t.leaked| == 32 && t.leaked[t.lists[0][fd]] == 0
  {
    hide TreeOk, Inv, InodesOk, Look, Crowd, InodeCache.CacheIs, Agree, NamesChild, MayUnlink;
    FileFound();
    LinksMatch(1);
    var fs := new Fs(Crowd(1), OneLink(1));
    assert InodeCache.Took(map[], 0) == map[0 := 1];
    t := new Table(fs);
    ListsLength(t.files, t.lists, t.leaked);
    assert IsProc(0) && IsFd(0) && t.lists[0][0] == -1 && !t.files[0].used;
    ghost var lists0, files0 := t.lists, t.files;
    var panic;
    fd, panic := t.Open(0, "a", false, true, 0);
    assert -1 in lists0[0] && !AllUsed(files0);
    ListsLength(t.files, t.lists, t.leaked);
  }

  ghost function FreeFds(list: seq<int>): set<int> {
    set i | 0 <= i < |list| && list[i] == -1
  }

  lemma FewerFree(list: seq<int>, r: int, f: int)
    requires 0 <= r < |list| && list[r] == -1 && f != -1
    ensures |FreeFds(list[r := f])| < |FreeFds(list)|
  {
    assert FreeFds(list[r := f]) == FreeFds(list) - {r};
  }

  /**
   * sys_dup with all 16 descriptors in use: the call fails, and once the
   * process has closed all of them, the file is open and nobody names it.
   */
  method DupLeaks() returns (r: int, f: int, t: Table)
    ensures r == -1 && t.Valid() && 0 <= f < 32 && t.files[f].used && t.leaked[f] == 1
    ensures forall fd :: 0 <= fd < 16 ==> t.lists[0][fd] == -1
  {
    hide TreeOk, Inv, InodesOk, InodeCache.CacheIs, Agree, Step, Crowd;
    var fd;
    t, fd := OpenedA();
    f := t.lists[0][fd];
    assert 0 in t.fs.nodes && 1 in t.fs.nodes by { InCrowd(1); }
    while -1 in t.lists[0]
      invariant fresh(t) && fresh(t.fs) && fresh(t.fs.cache) && t.fs.nodes == Crowd(1)
      invariant t.Valid() && ListsOk(t.lists) && IsFd(fd) && t.lists[0][fd] == f && 0 <= f < 32
      invariant |t.leaked| == 32 && t.leaked[f] == 0 && t.irefs == map[1 := 1]
      decreases |FreeFds(t.lists[0])|
    {
      ghost var before := t.lists[0];
      r := t.Dup(0, fd);
      ListsLength(t.files, t.lists, t.leaked);
      FewerFree(before, r, f);
    }
    r := t.Dup(0, fd);
    var panic := t.FreeFiles(0);
    assert !panic;
    LeakedIsUsed(t.View(), f);
  }

  lemma InCrowd(m: nat)
    ensures forall i :: 0 <= i <= m ==> i in Crowd(m)
  {
    assert forall i :: 0 <= i <= m ==> Numbered(i, m);
  }

  /** A file is opened, unlinked and closed: path_unlink succeeds, and the close ends in the panic. */
  method CloseUnlinked() returns (o: Outcome, panic: bool)
    ensures o == Ok(1) && panic
  {
    hide TreeOk, Inv, InodesOk, InodeCache.CacheIs, Agree, Step, Crowd, Look, NamesChild, MayUnlink, Fields,
        LinkCount.Unlinks;
    FileFound();
    var t, fd := OpenedA();
    ghost var refs := InodeCache.Took(t.irefs, 0);
    assert refs == map[0 := 1, 1 := 1] && |refs| == 2 && InodeCache.Took(refs, 0) == map[0 := 2, 1 := 1];
    assert |InodeCache.Took(refs, 0)| == 2;
    OneEntry(["a"], refs);
    o := t.fs.Unlink("a", refs);
    InCrowd(1);
    GoneFromTree(Crowd(1), t.fs.nodes, ["a"]);
    var r;
    r, panic := t.Close(0, fd);
  }

  lemma OneEntry(comps: seq<seq<char>>, refs: map<int, nat>)
    requires comps == ["a"] && refs == map[0 := 1, 1 := 1]
    ensures !UnlinkPanics(Crowd(1), comps, refs) && !LastName(Crowd(1), comps, refs)
    ensures forall n :: MayUnlink(Crowd(1), comps, n) ==> n == 1
  {
    hide TreeOk, Look, Crowd, Fields, Dir.Live;
    FileFound();
    var name :| Target(Crowd(1), comps, 0, name);
    ChildIs(Crowd(1), comps, 0, name);
    hide NamesChild, Target;
    assert |refs| == 2;
    assert forall d, n :: NamesChild(Crowd(1), comps, d, n) ==> d == 0 && n == 1;
    assert InodeCache.Took(refs, 0) == map[0 := 2, 1 := 1];
    assert |InodeCache.Took(refs, 0)| == 2;
  }

  lemma GoneFromTree(t: Tree, u: Tree, comps: seq<seq<char>>)
    requires UnlinkedAt(t, u, comps, 1) && 1 in t && t[1].nlink == 1
    ensures 1 !in u
  {
    hide Look;
  }

  /** With 31 unlinked files open every slot is referenced, and the walk to a needs another one. */
  method NoSlotLeft() returns (o: Outcome)
    ensures o == Panic
  {
    hide TreeOk, InodeCache.CacheIs, Agree, Crowd, Look, NamesChild, MayUnlink, Fields, OneLink;
    FileFound();
    Paths();
    LinksMatch(131);
    var fs := new Fs(Crowd(1), OneLink(131));
    ghost var refs := FillCache(fs);
    AOutOfReach(refs);
    o := fs.Link("a", "!", refs);
  }

  lemma AOutOfReach(refs: map<int, nat>)
    requires |refs| == 32 && 1 !in refs
    ensures LinkPanics(Crowd(1), ["a"], ["!"], refs)
  {
    hide Look, Crowd, TreeOk;
    FileFound();
    assert ["a"][..1] == ["a"];
    assert Leads(Crowd(1), 0, ["a"], 1, 1);
    assert RunsOut(Crowd(1), 0, ["a"], false, refs);
  }

  method FillCache(fs: Fs) returns (ghost refs: map<int, nat>)
    requires fs.Ready({}, map[0 := 1]) && fs.nodes == Crowd(1) && fs.cache.disk == OneLink(131)
    modifies fs.cache`slots
    ensures fs.Ready({}, refs) && |refs| == 32 && 1 !in refs
  {
    hide TreeOk, InodeCache.CacheIs, Agree, Crowd, InodeCache.Took, OneLink;
    refs := map[0 := 1];
    var i := 1;
    while i < 32
      invariant 1 <= i <= 32 && fs.Ready({}, refs)
      invariant |refs| == i && forall n :: n in refs ==> n == 0 || 100 < n < 100 + i
    {
      NotThere(100 + i);
      TookMore(refs, 100 + i);
      OrphanAgrees(fs.nodes, refs, fs.cache.disk, 100 + i);
      OpenOrphan(fs, 100 + i, refs);
      refs := InodeCache.Took(refs, 100 + i);
      i := i + 1;
    }
  }

  lemma NotThere(n: int)
    requires 100 < n <= 131
    ensures n !in Crowd(1) && n in OneLink(131) && OneLink(131)[n].nlink == 0
  {
    assert Numbered(n, 131);
  }

  lemma TookMore(refs: map<int, nat>, n: int)
    requires n !in refs
    ensures InodeCache.Took(refs, n).Keys == refs.Keys + {n} && |InodeCache.Took(refs, n)| == |refs| + 1
  {
    var u := InodeCache.Took(refs, n);
    assert u.Keys == refs.Keys + {n} && |u| == |u.Keys| && |refs| == |refs.Keys|;
  }

  lemma OrphanAgrees(t: Tree, refs: map<int, nat>, disk: map<int, InodeCache.Meta>, n: int)
    requires Agree(t, refs, disk) && n !in t && n in disk && disk[n].nlink == 0
    ensures Agree(t, InodeCache.Took(refs, n), disk)
  {
  }

  /** An open file whose inode has no name takes a slot. */
  method OpenOrphan(fs: Fs, n: int, ghost refs: map<int, nat>)
    requires fs.Ready({}, refs) && 0 <= n < 0xFFFF && n in fs.cache.disk && |refs| < 32
    requires Agree(fs.nodes, InodeCache.Took(refs, n), fs.cache.disk)
    modifies fs.cache`slots
    ensures fs.Ready({}, InodeCache.Took(refs, n))
  {
    hide TreeOk, Agree, InodeCache.Refs, InodeCache.Held, InodeCache.Loaded, InodeCache.CacheOk, InodeCache.Took;
    TookKeys(refs, n);
    var k := fs.cache.Alloc(n);
    fs.cache.Lock(k);
    fs.cache.Unlock(k);
  }
}
