/**
 * Open files and descriptors (kernel/fs/file.c:43-158, 246-254,
 * kernel/syscall/sysfile.c:37-91, 150-164, and the parts of proc_fork and
 * proc_free that copy and close them).
 */
module Files {
  import InodeCache
  import Dir
  import opened Path
  import opened LinkCount
  import opened PathWalk
  import opened FileTree

  /** An entry of ftable: in use (type not FD_UNUSED), its reference count, and its inode (-1 for NULL). */
  datatype File = File(used: bool, refs: nat, ip: int)

  const FREE: File := File(false, 0, -1)

  predicate IsProc(p: int) { 0 <= p < 64 }

  predicate IsFd(fd: int) { 0 <= fd < 16 }

  /** filelist of each process: a file number, or -1 for NULL. */
  predicate ListsOk(lists: seq<seq<int>>) {
    |lists| == 64 && forall p {:trigger lists[p]} :: 0 <= p < 64 ==> |lists[p]| == 16
  }

  predicate SlotIs(lists: seq<seq<int>>, p: int, fd: int, f: int) {
    0 <= p < |lists| && 0 <= fd < |lists[p]| && lists[p][fd] == f
  }

  /** The descriptors that name a file. */
  ghost function Holders(lists: seq<seq<int>>, f: int): set<(int, int)> {
    set p, fd | 0 <= p < 64 && 0 <= fd < 16 && SlotIs(lists, p, fd, f) :: (p, fd)
  }

  /** No dangling descriptor: each names a file in use. */
  ghost predicate SlotsOk(files: seq<File>, lists: seq<seq<int>>) {
    && ListsOk(lists) && |files| == 32
    && forall p, fd, f :: SlotIs(lists, p, fd, f) ==> f == -1 || (0 <= f < 32 && files[f].used)
  }

  /** A file's count is the number of descriptors naming it, and those that failed dups left behind. */
  ghost predicate CountsOk(files: seq<File>, lists: seq<seq<int>>, leaked: seq<nat>) {
    && |files| == 32 && |leaked| == 32
    && forall f {:trigger files[f]} :: 0 <= f < 32 ==> FileOk(files[f], lists, f, leaked[f])
  }

  ghost predicate FileOk(file: File, lists: seq<seq<int>>, f: int, leaks: nat) {
    file.refs == |Holders(lists, f)| + leaks && (file.used <==> file.refs > 0) && (!file.used ==> file == FREE)
  }

  ghost predicate Inv(files: seq<File>, lists: seq<seq<int>>, leaked: seq<nat>) {
    SlotsOk(files, lists) && CountsOk(files, lists, leaked)
  }

  // ---------- one descriptor more or less ----------

  function Put(lists: seq<seq<int>>, p: int, fd: int, f: int): seq<seq<int>>
    requires 0 <= p < |lists| && 0 <= fd < |lists[p]|
  {
    lists[p := lists[p][fd := f]]
  }

  lemma HoldersPut(lists: seq<seq<int>>, p: int, fd: int, f: int, g: int)
    requires ListsOk(lists) && IsProc(p) && IsFd(fd)
    ensures ListsOk(Put(lists, p, fd, f))
    ensures Holders(Put(lists, p, fd, f), g) == if f == g then Holders(lists, g) + {(p, fd)}
            else Holders(lists, g) - {(p, fd)}
    ensures (p, fd) in Holders(lists, g) <==> lists[p][fd] == g
  {
    var l2 := Put(lists, p, fd, f);
    forall q, e ensures SlotIs(l2, q, e, g) <==> if q == p && e == fd then f == g else SlotIs(lists, q, e, g) {
    }
  }

  lemma CardPut(lists: seq<seq<int>>, p: int, fd: int, f: int, g: int)
    requires ListsOk(lists) && IsProc(p) && IsFd(fd) && lists[p][fd] != f
    ensures |Holders(Put(lists, p, fd, f), g)| ==
      |Holders(lists, g)| + (if g == f then 1 else 0) - (if g == lists[p][fd] then 1 else 0)
  {
    HoldersPut(lists, p, fd, f, g);
  }

  lemma HeldAtLeast(lists: seq<seq<int>>, p: int, fd: int)
    requires ListsOk(lists) && IsProc(p) && IsFd(fd)
    ensures |Holders(lists, lists[p][fd])| >= 1
  {
    HoldersPut(lists, p, fd, lists[p][fd], lists[p][fd]);
    var h := Holders(lists, lists[p][fd]);
    assert h == {(p, fd)} + (h - {(p, fd)});
  }

  /** Giving descriptor `fd` of `p` to file `f`, which gets one more reference for it. */
  lemma GiveKeeps(files: seq<File>, lists: seq<seq<int>>, leaked: seq<nat>, p: int, fd: int, f: int, ip: int)
    requires Inv(files, lists, leaked) && IsProc(p) && IsFd(fd) && lists[p][fd] == -1 && 0 <= f < 32
    ensures Inv(files[f := File(true, files[f].refs + 1, ip)], Put(lists, p, fd, f), leaked)
  {
    var l2, f2 := Put(lists, p, fd, f), files[f := File(true, files[f].refs + 1, ip)];
    HoldersPut(lists, p, fd, f, f);
    forall g | 0 <= g < 32 ensures FileOk(f2[g], l2, g, leaked[g]) {
      assert FileOk(files[g], lists, g, leaked[g]);
      CardPut(lists, p, fd, f, g);
    }
    forall q, e, g | SlotIs(l2, q, e, g) ensures g == -1 || (0 <= g < 32 && f2[g].used) {
      assert (q == p && e == fd && g == f) || SlotIs(lists, q, e, g);
    }
  }

  /** Clearing a descriptor and dropping its reference; the last one frees the entry. */
  function Dropped(file: File): File {
    if file.refs <= 1 then FREE else file.(refs := file.refs - 1)
  }

  lemma TakeKeeps(files: seq<File>, lists: seq<seq<int>>, leaked: seq<nat>, p: int, fd: int)
    requires Inv(files, lists, leaked) && IsProc(p) && IsFd(fd) && lists[p][fd] != -1
    ensures 0 <= lists[p][fd] < 32 && files[lists[p][fd]].refs >= 1
    ensures Inv(files[lists[p][fd] := Dropped(files[lists[p][fd]])], Put(lists, p, fd, -1), leaked)
  {
    var f := lists[p][fd];
    assert SlotIs(lists, p, fd, f);
    assert FileOk(files[f], lists, f, leaked[f]);
    HeldAtLeast(lists, p, fd);
    var l2, f2 := Put(lists, p, fd, -1), files[f := Dropped(files[f])];
    HoldersPut(lists, p, fd, -1, f);
    forall g | 0 <= g < 32 ensures FileOk(f2[g], l2, g, leaked[g]) {
      assert FileOk(files[g], lists, g, leaked[g]);
      CardPut(lists, p, fd, -1, g);
    }
    forall q, e, g | SlotIs(l2, q, e, g) ensures g == -1 || (0 <= g < 32 && f2[g].used) {
      TakeSlot(files, lists, leaked, p, fd, q, e, g);
    }
  }

  /** A file whose entry is freed has no other descriptor. */
  lemma TakeSlot(files: seq<File>, lists: seq<seq<int>>, leaked: seq<nat>, p: int, fd: int, q: int, e: int, g: int)
    requires Inv(files, lists, leaked) && IsProc(p) && IsFd(fd) && lists[p][fd] != -1 && 0 <= lists[p][fd] < 32
    requires SlotIs(Put(lists, p, fd, -1), q, e, g)
    ensures g == -1 || (0 <= g < 32 && files[lists[p][fd] := Dropped(files[lists[p][fd]])][g].used)
  {
    var f := lists[p][fd];
    if q != p || e != fd {
      assert SlotIs(lists, q, e, g);
      if g == f {
        assert FileOk(files[f], lists, f, leaked[f]);
        HoldersPut(lists, p, fd, -1, f);
        HeldAtLeast(Put(lists, p, fd, -1), q, e);
        CardPut(lists, p, fd, -1, f);
      }
    }
  }

  /** A reference without a descriptor. */
  lemma LeakKeeps(files: seq<File>, lists: seq<seq<int>>, leaked: seq<nat>, f: int)
    requires Inv(files, lists, leaked) && 0 <= f < 32 && files[f].used
    ensures Inv(files[f := files[f].(refs := files[f].refs + 1)], lists, leaked[f := leaked[f] + 1])
  {
    var f2, k2 := files[f := files[f].(refs := files[f].refs + 1)], leaked[f := leaked[f] + 1];
    forall g | 0 <= g < 32 ensures FileOk(f2[g], lists, g, k2[g]) {
      assert FileOk(files[g], lists, g, leaked[g]);
    }
    forall q, e, g | SlotIs(lists, q, e, g) ensures g == -1 || (0 <= g < 32 && f2[g].used) {
      assert g == -1 || files[g].used;
    }
  }

  // ---------- inodes of open files ----------

  /** The open files of an inode. */
  ghost function OpenOn(files: seq<File>, n: int): set<int> {
    set f | 0 <= f < |files| && files[f].used && files[f].ip == n
  }

  function CountIn(irefs: map<int, nat>, n: int): nat {
    if n in irefs then irefs[n] else 0
  }

  /** The file table holds one reference to an inode for each file open on it. */
  ghost predicate InodesOk(files: seq<File>, irefs: map<int, nat>) {
    && Positive(irefs)
    && forall n :: n != -1 ==> CountIn(irefs, n) == |OpenOn(files, n)|
  }

  lemma OpenSet(files: seq<File>, f: nat, x: File, n: int)
    requires f < |files|
    ensures OpenOn(files[f := x], n) == OpenOn(files, n) - {f} + (if x.used && x.ip == n then {f} else {})
    ensures f in OpenOn(files, n) <==> files[f].used && files[f].ip == n
  {
  }

  /** A file that stays open on its inode. */
  lemma StillOpen(files: seq<File>, f: nat, x: File, irefs: map<int, nat>)
    requires InodesOk(files, irefs) && f < |files| && x.used == files[f].used && x.ip == files[f].ip
    ensures InodesOk(files[f := x], irefs)
  {
    hide OpenOn;
    forall n | n != -1 ensures CountIn(irefs, n) == |OpenOn(files[f := x], n)| {
      OpenSize(files, f, x, n);
    }
  }

  /** How the number of open files of an inode changes with one entry. */
  lemma OpenSize(files: seq<File>, f: nat, x: File, n: int)
    requires f < |files|
    ensures |OpenOn(files[f := x], n)| == |OpenOn(files, n)| - (if files[f].used && files[f].ip == n then 1 else 0)
                                          + (if x.used && x.ip == n then 1 else 0)
  {
    OpenSet(files, f, x, n);
    hide OpenOn;
    var was, now := OpenOn(files, n), OpenOn(files[f := x], n);
    if f in was && x.used && x.ip == n { assert now == was; }
  }

  lemma CountTook(irefs: map<int, nat>, ip: int, n: int)
    requires ip in irefs ==> irefs[ip] > 0
    ensures CountIn(InodeCache.Took(irefs, ip), n) == CountIn(irefs, n) + (if n == ip then 1 else 0)
    ensures ip in irefs ==> CountIn(InodeCache.Gave(irefs, ip), n) == CountIn(irefs, n) - (if n == ip then 1 else 0)
  {
  }

  lemma NowOpen(files: seq<File>, f: nat, x: File, irefs: map<int, nat>)
    requires InodesOk(files, irefs) && f < |files| && !files[f].used && x.used && x.ip != -1
    ensures InodesOk(files[f := x], InodeCache.Took(irefs, x.ip))
  {
    hide OpenOn, CountIn;
    forall n | n != -1 ensures CountIn(InodeCache.Took(irefs, x.ip), n) == |OpenOn(files[f := x], n)| {
      OpenSize(files, f, x, n);
      CountTook(irefs, x.ip, n);
    }
  }

  lemma NowFree(files: seq<File>, f: nat, irefs: map<int, nat>)
    requires InodesOk(files, irefs) && f < |files| && files[f].used
    ensures InodesOk(files[f := FREE], if files[f].ip == -1 then irefs else InodeCache.Gave(irefs, files[f].ip))
  {
    var ip := files[f].ip;
    var after := if ip == -1 then irefs else InodeCache.Gave(irefs, ip);
    OpenSet(files, f, FREE, ip);
    NotEmpty(OpenOn(files, ip), f);
    assert ip != -1 ==> CountIn(irefs, ip) >= 1;
    assert ip != -1 ==> ip in irefs;
    hide OpenOn, CountIn;
    forall n | n != -1 ensures CountIn(after, n) == |OpenOn(files[f := FREE], n)| {
      OpenSize(files, f, FREE, n);
      if ip != -1 { CountTook(irefs, ip, n); }
    }
  }

  /** Every reference to an open file of `n` is a descriptor of `p`. */
  ghost predicate OnlyBy(s: State, p: int, n: int) {
    forall f {:trigger f in OpenOn(s.files, n)} :: f in OpenOn(s.files, n) ==> OwnFile(s, p, f)
  }

  ghost predicate OwnFile(s: State, p: int, f: int) {
    0 <= f < |s.leaked| && s.leaked[f] == 0 && forall x :: x in Holders(s.lists, f) ==> x.0 == p
  }

  /** When `p` gives up a descriptor, what is open by nobody else stays so, and what others have open too. */
  lemma OnlyStays(s: State, t: State, p: int, fd: int, n: int)
    requires Good(s) && Takes(s, t, p, fd)
    ensures OnlyBy(s, p, n) <==> OnlyBy(t, p, n)
  {
    hide Inv, Holders;
    ListsLength(s.files, s.lists, s.leaked);
    var f := s.lists[p][fd];
    OpenSet(s.files, f, Dropped(s.files[f]), n);
    forall g ensures OwnFile(s, p, g) <==> OwnFile(t, p, g) {
      HoldersPut(s.lists, p, fd, -1, g);
    }
    if s.files[f].refs <= 1 {
      LastIsOwn(s, p, fd);
      assert OpenOn(t.files, n) == OpenOn(s.files, n) - {f};
    } else {
      assert OpenOn(t.files, n) == OpenOn(s.files, n);
    }
    SameOwners(s, t, p, n, f);
  }

  lemma SameOwners(s: State, t: State, p: int, n: int, f: int)
    requires OpenOn(t.files, n) == OpenOn(s.files, n)
             || (OwnFile(s, p, f) && OpenOn(t.files, n) == OpenOn(s.files, n) - {f})
    requires forall g :: OwnFile(s, p, g) <==> OwnFile(t, p, g)
    ensures OnlyBy(s, p, n) <==> OnlyBy(t, p, n)
  {
    hide OpenOn, OwnFile;
    if OnlyBy(t, p, n) {
      forall g | g in OpenOn(s.files, n) ensures OwnFile(s, p, g) {
        if g != f { assert g in OpenOn(t.files, n) ==> OwnFile(t, p, g); }
      }
    }
    if OnlyBy(s, p, n) {
      forall g | g in OpenOn(t.files, n) ensures OwnFile(t, p, g) {
        assert g in OpenOn(s.files, n);
      }
    }
  }

  /** The descriptor whose close frees the entry was the only reference. */
  lemma LastIsOwn(s: State, p: int, fd: int)
    requires Good(s) && IsProc(p) && IsFd(fd) && 0 <= s.lists[p][fd] < 32 && s.files[s.lists[p][fd]].refs <= 1
    ensures OwnFile(s, p, s.lists[p][fd])
  {
    var f := s.lists[p][fd];
    LeakedLength(s);
    assert FileOk(s.files[f], s.lists, f, s.leaked[f]);
    HoldersPut(s.lists, p, fd, -1, f);
    CardPut(s.lists, p, fd, -1, f);
  }

  /** A process without descriptors is never the only one that has an inode open. */
  lemma NobodyElse(s: State, irefs: map<int, nat>, p: int, n: int)
    requires Good(s) && InodesOk(s.files, irefs) && IsProc(p) && n != -1
    requires forall i :: 0 <= i < 16 ==> s.lists[p][i] == -1
    ensures n in irefs ==> !OnlyBy(s, p, n)
  {
    if n in irefs {
      var f :| f in OpenOn(s.files, n);
      LeakedLength(s);
      assert FileOk(s.files[f], s.lists, f, s.leaked[f]);
      if s.leaked[f] == 0 {
        var x :| x in Holders(s.lists, f);
        assert SlotIs(s.lists, x.0, x.1, f);
      }
    }
  }

  lemma NotOpen(s: State, irefs: map<int, nat>, p: int, n: int)
    requires InodesOk(s.files, irefs) && n != -1 && n !in irefs
    ensures OnlyBy(s, p, n)
  {
    assert |OpenOn(s.files, n)| == 0;
  }

  lemma NotEmpty(s: set<int>, e: int)
    requires e in s
    ensures |s| >= 1
  {
    assert s == {e} + (s - {e});
  }

  // ---------- runs ----------

  datatype State = State(files: seq<File>, lists: seq<seq<int>>, leaked: seq<nat>)

  ghost predicate Good(s: State) {
    Inv(s.files, s.lists, s.leaked)
  }

  ghost predicate Gives(s: State, t: State, p: int, fd: int, f: int, ip: int) {
    && Good(s) && IsProc(p) && IsFd(fd) && s.lists[p][fd] == -1 && 0 <= f < 32
        && (s.files[f].used ==> ip == s.files[f].ip)
    && t == State(s.files[f := File(true, s.files[f].refs + 1, ip)], Put(s.lists, p, fd, f), s.leaked)
  }

  ghost predicate Takes(s: State, t: State, p: int, fd: int) {
    && Good(s) && IsProc(p) && IsFd(fd) && 0 <= s.lists[p][fd] < 32
    && t == State(s.files[s.lists[p][fd] := Dropped(s.files[s.lists[p][fd]])], Put(s.lists, p, fd, -1), s.leaked)
  }

  ghost predicate Leaks(s: State, t: State, f: int) {
    && Good(s) && 0 <= f < 32 && s.files[f].used
    && t == State(s.files[f := s.files[f].(refs := s.files[f].refs + 1)], s.lists, s.leaked[f := s.leaked[f] + 1])
  }

  /** What one descriptor's open, dup, close, copy or release does; a fork or an exit is several of these. */
  ghost predicate Step(s: State, t: State) {
    || s == t
    || (exists p, fd, f, ip :: Gives(s, t, p, fd, f, ip))
    || (exists p, fd :: Takes(s, t, p, fd))
    || (exists f :: Leaks(s, t, f))
  }

  lemma StepKeeps(s: State, t: State, f: int)
    requires Good(s) && Step(s, t) && 0 <= f < 32
    ensures Good(t) && t.leaked[f] >= s.leaked[f]
  {
    hide Inv;
    if p, fd, g, ip :| Gives(s, t, p, fd, g, ip) {
      GiveKeeps(s.files, s.lists, s.leaked, p, fd, g, ip);
    } else if p, fd :| Takes(s, t, p, fd) {
      TakeKeeps(s.files, s.lists, s.leaked, p, fd);
    } else if g :| Leaks(s, t, g) {
      LeakKeeps(s.files, s.lists, s.leaked, g);
    }
    assert |s.leaked| == 32 by { LeakedLength(s); }
  }

  lemma LeakedLength(s: State)
    requires Good(s)
    ensures |s.leaked| == 32 && |s.files| == 32
  {
  }

  /** Over every run no descriptor dangles, and a file that one failed dup has leaked is never free again. */
  lemma {:induction false} LeakedStaysOpen(run: seq<State>, i: nat, n: nat, f: int)
    requires n < |run| && i <= n && Good(run[0]) && 0 <= f < 32
    requires forall k :: 0 <= k < n ==> Step(run[k], run[k + 1])
    ensures Good(run[i]) && Good(run[n]) && run[n].leaked[f] >= run[i].leaked[f]
    ensures run[i].leaked[f] > 0 ==> run[n].files[f].used
    decreases n
  {
    hide Step;
    if n > 0 {
      assert Step(run[n - 1], run[n - 1 + 1]);
      LeakedStaysOpen(run, if i < n then i else n - 1, n - 1, f);
      StepKeeps(run[n - 1], run[n], f);
    }
    LeakedIsUsed(run[n], f);
  }

  lemma LeakedIsUsed(s: State, f: int)
    requires Good(s) && 0 <= f < 32
    ensures s.leaked[f] > 0 ==> s.files[f].used
  {
    assert FileOk(s.files[f], s.lists, f, s.leaked[f]);
  }

  /** Without failed dups the count is exact: a file is in use just when some descriptor names it. */
  lemma ExactWithoutLeaks(files: seq<File>, lists: seq<seq<int>>, leaked: seq<nat>, f: int)
    requires Inv(files, lists, leaked) && 0 <= f < 32 && leaked[f] == 0
    ensures files[f].refs == |Holders(lists, f)|
    ensures files[f].used <==> exists p, fd :: IsProc(p) && IsFd(fd) && SlotIs(lists, p, fd, f)
  {
    assert FileOk(files[f], lists, f, leaked[f]);
    if files[f].used {
      var x :| x in Holders(lists, f);
      assert SlotIs(lists, x.0, x.1, f);
    }
    if p, fd :| IsProc(p) && IsFd(fd) && SlotIs(lists, p, fd, f) {
      HeldAtLeast(lists, p, fd);
    }
  }

  /** How file_close ends; the two panics are its own and that of inode_destroy. */
  datatype CloseResult = Closed | RefPanic | DestroyPanic

  class Table {
    var files: seq<File>
    var lists: seq<seq<int>>
    /** The references to inodes that open files hold. */
    var irefs: map<int, nat>
    ghost var leaked: seq<nat>
    const fs: Fs

    /** The references in the inode cache are those of the open files, and the root's. */
    ghost predicate Valid()
      reads this, fs, fs.cache
    {
      Inv(files, lists, leaked) && InodesOk(files, irefs) && fs.Ready({}, InodeCache.Took(irefs, 0))
    }

    ghost function View(): State
      reads this
    {
      State(files, lists, leaked)
    }

    /** file_init and proc_init. */
    constructor (fs: Fs)
      requires fs.Ready({}, map[0 := 1])
      ensures Valid() && this.fs == fs && irefs == map[] && forall f {:trigger files[f]} :: 0 <= f < 32 ==>
              files[f] == FREE && leaked[f] == 0
      ensures forall p, fd :: IsProc(p) && IsFd(fd) ==> lists[p][fd] == -1
    {
      files := seq(32, _ => FREE);
      lists := seq(64, _ => seq(16, _ => -1));
      leaked := seq(32, _ => 0);
      irefs := map[];
      this.fs := fs;
      new;
      assert forall n :: n != -1 ==> OpenOn(files, n) == {};
      forall f | 0 <= f < 32 ensures FileOk(files[f], lists, f, leaked[f]) {
        assert Holders(lists, f) == {};
      }
    }

    /** file_alloc: the first unused entry; -1 stands for its panic. */
    method Alloc() returns (f: int)
      requires |files| == 32
      modifies `files
      ensures f == -1 <==> forall i {:trigger old(files)[i]} :: 0 <= i < 32 ==> old(files)[i].used
      ensures f == -1 ==> files == old(files)
      ensures f != -1 ==> 0 <= f < 32 && !old(files)[f].used && files == old(files)[f := File(true, 1, -1)]
    {
      var i := 0;
      while i < 32
        invariant 0 <= i <= 32 && files == old(files) && forall j {:trigger files[j]} :: 0 <= j < i ==> files[j].used
      {
        if !files[i].used {
          files := files[i := File(true, 1, -1)];
          return i;
        }
        i := i + 1;
      }
      f := -1;
    }

    /** fd_alloc: the first free descriptor of a process, or -1. */
    method AllocFd(p: int, f: int) returns (fd: int)
      requires ListsOk(lists) && IsProc(p)
      modifies `lists
      ensures ListsOk(lists)
      ensures fd == -1 <==> -1 !in old(lists)[p]
      ensures fd == -1 ==> lists == old(lists)
      ensures fd != -1 ==>
              IsFd(fd) && old(lists)[p][fd] == -1 && lists == Put(old(lists), p, fd, f) && forall i :: 0 <= i < fd ==>
              old(lists)[p][i] != -1
    {
      var i := 0;
      while i < 16
        invariant 0 <= i <= 16 && lists == old(lists) && forall j :: 0 <= j < i ==> lists[p][j] != -1
      {
        if lists[p][i] == -1 {
          lists := lists[p := lists[p][i := f]];
          return i;
        }
        i := i + 1;
      }
      fd := -1;
    }

    /**
     * file_close: its own panic needs a count of 0. The last close gives the
     * reference to the inode back, which ends in the panic of inode_destroy
     * exactly when it was the last one to an inode without a name.
     */
    method CloseFile(f: int) returns (r: CloseResult)
      requires |files| == 32 && 0 <= f < 32 && fs.Ready({}, InodeCache.Took(irefs, 0)) && Positive(irefs)
      requires files[f].refs == 1 && files[f].ip != -1 ==> files[f].ip in irefs
      modifies `files, `irefs, fs.cache`slots
      ensures fs.Ready({}, InodeCache.Took(irefs, 0))
      ensures r == RefPanic <==> old(files)[f].refs < 1
      ensures r == DestroyPanic <==> LastOfGone(old(files)[f], old(irefs), fs.nodes)
      ensures files == if r == RefPanic then old(files) else old(files)[f := Dropped(old(files)[f])]
      ensures irefs == if old(files)[f].refs != 1 || old(files)[f].ip == -1 then old(irefs)
                       else InodeCache.Gave(old(irefs), old(files)[f].ip)
    {
      hide InodeCache.Took, InodeCache.Gave, InodeCache.CacheIs, TreeOk, Agree;
      if files[f].refs < 1 {
        return RefPanic;
      }
      files := files[f := files[f].(refs := files[f].refs - 1)];
      r := Closed;
      if files[f].refs == 0 {
        var ip := files[f].ip;
        files := files[f := File(false, 0, -1)];
        if ip != -1 {
          RootBeside(irefs, ip);
          RootNamed(fs);
          var freed := fs.Put(ip, InodeCache.Took(irefs, 0));
          irefs := InodeCache.Gave(irefs, ip);
          if freed == InodeCache.DestroyPanics {
            r := DestroyPanic;
          }
        }
      }
    }

    /** file_dup: its assertion needs a positive count. */
    method DupFile(f: int)
      requires |files| == 32 && 0 <= f < 32 && files[f].refs > 0
      modifies `files
      ensures files == old(files)[f := old(files)[f].(refs := old(files)[f].refs + 1)]
    {
      files := files[f := files[f].(refs := files[f].refs + 1)];
    }

    /**
     * The first half of file_open: the inode of the path, created when asked
     * for, with a reference to it; -1 when there is none.
     */
    method FindInode(path: seq<char>, create: bool, inode: int) returns (ip: int, isDir: bool, panic: bool)
      requires fs.Ready({}, InodeCache.Took(irefs, 0)) && Dir.NoNul(path) && MayBeNew(inode)
      modifies fs, fs.cache
      ensures panic <==> OpenPanics(old(fs.nodes), Components(path), create, inode, InodeCache.Took(irefs, 0))
      ensures !panic ==> (ip == -1 <==> !Openable(old(fs.nodes), Components(path), create, inode))
      ensures !panic && ip == -1 ==> fs.Ready({}, InodeCache.Took(irefs, 0)) && fs.nodes == old(fs.nodes)
      ensures !panic && ip != -1 ==>
        && fs.Ready({}, InodeCache.Took(InodeCache.Took(irefs, 0), ip)) && ip in fs.nodes && ip >= 0
        && (isDir <==> DirIn(fs.nodes, ip)) && (isDir ==> !create)
            && Opened(old(fs.nodes), fs.nodes, Components(path), create, ip)
            && Look(fs.nodes, 0, Components(path), false) == Inode(ip)
    {
      hide TreeOk, Agree, Stuck, Look, MayCreate, NoPlace, CreatedAt, Walk, Fields;
      ghost var refs := InodeCache.Took(irefs, 0);
      if create {
        var o := fs.Create(path, IsFile, inode, true, refs);
        if o == Panic {
          return -1, false, true;
        }
        CreateMay(old(fs.nodes), Components(path), inode, refs);
        if o == Fail {
          return -1, false, false;
        }
        NewIsFile(old(fs.nodes), fs.nodes, Components(path), inode);
        return inode, false, false;
      }
      var r, _, k := fs.Search(path, false, {}, refs);
      WalkIs(fs.nodes, 0, Components(path), false, {}, refs);
      if r == SelfLock || r == NoSlot {
        return -1, false, true;
      }
      if r == NotFound {
        return -1, false, false;
      }
      isDir := fs.Load(r.i, k, refs);
      ip, panic := r.i, false;
      InRange(fs.nodes, ip);
    }

    /** A number that bitmap_alloc_inode yields: 0 for none, else one that is in no use. */
    ghost predicate MayBeNew(inode: int)
      reads this, fs, fs.cache
    {
      inode == 0 || (0 < inode < 0xFFFF && inode !in fs.nodes && inode !in irefs && inode in fs.cache.disk)
    }

    /**
     * sys_open. The call fails, and no reference is kept, when there is no
     * inode, when a directory is to be written, and when the process has no
     * descriptor left.
     */
    method Open(p: int, path: seq<char>, create: bool, write: bool, inode: int) returns (fd: int, panic: bool)
      requires Valid() && IsProc(p) && Dir.NoNul(path) && MayBeNew(inode)
      modifies this, fs, fs.cache
      ensures !panic ==> Valid()
      ensures panic ==> fd == -1
      ensures fd == -1 ==> files == old(files) && lists == old(lists) && irefs == old(irefs)
      ensures leaked == old(leaked) && Step(old(View()), View())
      ensures var t, comps := old(fs.nodes), Components(path);
        && (panic <==> OpenPanics(t, comps, create, inode, InodeCache.Took(old(irefs), 0))
                       || (Wanted(t, comps, create, write, inode) && AllUsed(old(files))))
        && (!panic ==> (fd == -1 <==> !Wanted(t, comps, create, write, inode) || -1 !in old(lists)[p]))
        && (!panic && !create ==> fs.nodes == t)
        && (!panic && !create ==>
              (fd == -1 <==>
                 || !Look(t, 0, comps, false).Inode? || (write && DirIn(t, Look(t, 0, comps, false).i))
                 || -1 !in old(lists)[p]))
        && (!panic && create ==> (fd == -1 <==> !MayCreate(t, comps, inode) || -1 !in old(lists)[p]))
      ensures fd != -1 ==> IsFd(fd) && lists == Put(old(lists), p, fd, lists[p][fd]) && 0 <= lists[p][fd] < 32
      ensures fd != -1 ==>
        var ip := files[lists[p][fd]].ip;
        && !old(files)[lists[p][fd]].used && files == old(files)[lists[p][fd] := File(true, 1, ip)]
        && irefs == InodeCache.Took(old(irefs), ip) && ip in fs.nodes && !(DirIn(fs.nodes, ip) && write)
        && Opened(old(fs.nodes), fs.nodes, Components(path), create, ip)
        && Look(fs.nodes, 0, Components(path), false) == Inode(ip)
    {
      hide TreeOk, Agree, Inv, OpenPanics, Openable, Opened, InodesOk, Fields, Look, MayCreate, Wanted;
      WantedIs(fs.nodes, Components(path), create, write, inode);
      var ip, isDir, stop := FindInode(path, create, inode);
      if stop || ip == -1 {
        return -1, stop;
      }
      OpenedIs(old(fs.nodes), fs.nodes, Components(path), create, write, inode, ip, isDir);
      InodesBasics(files, irefs);
      TookSwap(irefs, ip);
      if isDir && write {
        GaveBack(irefs, ip);
        var freed := fs.Put(ip, InodeCache.Took(InodeCache.Took(irefs, 0), ip));
        return -1, false;
      }
      ListsLength(files, lists, leaked);
      fd, panic := Install(p, ip);
    }

    /** The second half of file_open and of sys_open: an entry of ftable, and a descriptor for it. */
    method Install(p: int, ip: int) returns (fd: int, panic: bool)
      requires Inv(files, lists, leaked) && InodesOk(files, irefs) && IsProc(p) && ip >= 0 && ip in fs.nodes
      requires fs.Ready({}, InodeCache.Took(InodeCache.Took(irefs, ip), 0))
      modifies `files, `lists, `irefs, fs.cache`slots
      ensures !panic ==> Valid()
      ensures panic <==> AllUsed(old(files))
      ensures panic ==> fd == -1
      ensures !panic ==> (fd == -1 <==> -1 !in old(lists)[p])
      ensures fd == -1 ==> files == old(files) && lists == old(lists) && irefs == old(irefs)
      ensures fd != -1 ==> IsFd(fd) && lists == Put(old(lists), p, fd, lists[p][fd]) && 0 <= lists[p][fd] < 32
      ensures fd != -1 ==> !old(files)[lists[p][fd]].used && files == old(files)[lists[p][fd] := File(true, 1, ip)]
      ensures fd != -1 ==> irefs == InodeCache.Took(old(irefs), ip)
      ensures Step(old(View()), View())
    {
      hide TreeOk, Agree, Inv, InodesOk, InodeCache.Took, InodeCache.Gave, InodeCache.CacheIs;
      ghost var f0, l0, s := files, lists, View();
      ListsLength(files, lists, leaked);
      var f := Alloc();
      if f == -1 {
        return -1, true;
      }
      UnusedIsZero(f0, l0, leaked, f);
      NowOpen(f0, f, File(true, 1, ip), irefs);
      files := files[f := files[f].(ip := ip)];
      InodesBasics(f0, irefs);
      TookBasics(irefs, ip);
      irefs := InodeCache.Took(irefs, ip);
      fd := AllocFd(p, f);
      panic := false;
      if fd == -1 {
        var closed := CloseFile(f);
        assert files == f0;
      } else {
        GiveKeeps(f0, l0, leaked, p, fd, f, ip);
        assert Gives(s, View(), p, fd, f, ip);
      }
    }

    /** sys_close: -1 for a bad descriptor; file_close is never called with a count of 0. */
    method Close(p: int, fd: int) returns (r: int, panic: bool)
      requires Valid() && IsProc(p)
      modifies `files, `lists, `irefs, fs.cache`slots
      ensures Valid() && Step(old(View()), View())
      ensures panic <==>
        IsFd(fd) && 0 <= old(lists)[p][fd] < 32 && LastOfGone(old(files)[old(lists)[p][fd]], old(irefs), fs.nodes)
      ensures r == -1 <==> !(IsFd(fd) && old(lists)[p][fd] != -1)
      ensures r == -1 ==> files == old(files) && lists == old(lists)
      ensures r != -1 ==> r == 0 && lists == Put(old(lists), p, fd, -1)
      ensures r != -1 ==>
              0 <= old(lists)[p][fd] < 32
              && files == old(files)[old(lists)[p][fd] := Dropped(old(files)[old(lists)[p][fd]])]
      ensures r != -1 ==> var f, l := old(lists)[p][fd], old(lists)[p];
        && lists == old(lists)[p := l[fd := -1]]
        && files == old(files)[f := if old(files)[f].refs <= 1 then File(false, 0, -1)
                                    else old(files)[f].(refs := old(files)[f].refs - 1)]
    {
      hide TreeOk, Agree, InodeCache.Took, InodeCache.Gave, InodeCache.CacheIs, InodesOk;
      InodesBasics(files, irefs);
      if !IsFd(fd) || lists[p][fd] == -1 {
        return -1, false;
      }
      TakeKeeps(files, lists, leaked, p, fd);
      CloseKeeps(files, lists, leaked, irefs, lists[p][fd]);
      ghost var s := View();
      var f := lists[p][fd];
      lists := lists[p := lists[p][fd := -1]];
      var closed := CloseFile(f);
      assert closed != RefPanic && Takes(s, View(), p, fd);
      r, panic := 0, closed == DestroyPanic;
    }

    /** sys_dup: the reference is counted even when there was no descriptor for it. */
    method Dup(p: int, fd: int) returns (r: int)
      requires Valid() && IsProc(p)
      modifies this
      ensures Valid() && Step(old(View()), View())
      ensures !(IsFd(fd) && old(lists)[p][fd] != -1) ==>
              r == -1 && files == old(files) && lists == old(lists) && leaked == old(leaked)
      ensures IsFd(fd) && old(lists)[p][fd] != -1 ==>
        var f := old(lists)[p][fd];
        0 <= f < 32 && files == old(files)[f := old(files)[f].(refs := old(files)[f].refs + 1)]
        && (r == -1 <==> -1 !in old(lists)[p])
        && (if r == -1 then lists == old(lists) && leaked == old(leaked)[f := old(leaked)[f] + 1]
            else IsFd(r) && old(lists)[p][r] == -1 && lists == Put(old(lists), p, r, f) && leaked == old(leaked))
      ensures irefs == old(irefs)
    {
      hide TreeOk, Agree, InodeCache.CacheIs, InodeCache.Took;
      if !IsFd(fd) || lists[p][fd] == -1 {
        return -1;
      }
      ghost var f0, l0, s := files, lists, View();
      var f := lists[p][fd];
      TakeKeeps(files, lists, leaked, p, fd);
      InUse(files, lists, leaked, p, fd);
      StillOpen(files, f, files[f].(refs := files[f].refs + 1), irefs);
      r := AllocFd(p, f);
      DupFile(f);
      if r == -1 {
        LeakKeeps(f0, l0, leaked, f);
        leaked := leaked[f := leaked[f] + 1];
        assert Leaks(s, View(), f);
      } else {
        GiveKeeps(f0, l0, leaked, p, r, f, f0[f].ip);
        assert Gives(s, View(), p, r, f, f0[f].ip);
      }
    }

    /** The loop of proc_fork: the child, which has none, gets the parent's descriptors. */
    method ForkFiles(p: int, c: int)
      requires Valid() && IsProc(p) && IsProc(c) && p != c && forall i :: 0 <= i < 16 ==> lists[c][i] == -1
      modifies `files, `lists
      ensures Valid() && lists == old(lists)[c := old(lists)[p]]
    {
      hide TreeOk, Agree, InodeCache.CacheIs, InodeCache.Took;
      ghost var l0 := lists;
      var i := 0;
      while i < 16
        invariant 0 <= i <= 16 && Valid() && lists == l0[c := lists[c]]
        invariant forall j :: 0 <= j < 16 ==> lists[c][j] == if j < i then l0[p][j] else -1
      {
        CopyFd(p, c, i);
        i := i + 1;
      }
      assert lists[c] == l0[p];
    }

    method CopyFd(p: int, c: int, i: int)
      requires Valid() && IsProc(p) && IsProc(c) && p != c && IsFd(i) && lists[c][i] == -1
      modifies `files, `lists
      ensures Valid() && lists == Put(old(lists), c, i, old(lists)[p][i]) && Step(old(View()), View())
    {
      hide TreeOk, Agree, InodeCache.CacheIs, InodeCache.Took;
      ghost var s := View();
      if lists[p][i] != -1 {
        TakeKeeps(files, lists, leaked, p, i);
        InUse(files, lists, leaked, p, i);
        var f := lists[p][i];
        GiveKeeps(files, lists, leaked, c, i, f, files[f].ip);
        StillOpen(files, f, files[f].(refs := files[f].refs + 1), irefs);
        DupFile(f);
        lists := lists[c := lists[c][i := f]];
        assert Gives(s, View(), c, i, f, files[f].ip);
      } else {
        assert lists[c][i := -1] == lists[c] && lists[c := lists[c]] == lists;
      }
    }

    /**
     * The loop of proc_free: it clears all descriptors, unless the process is
     * the only one that has an inode without a name open.
     */
    method FreeFiles(p: int) returns (panic: bool)
      requires Valid() && IsProc(p)
      modifies `files, `lists, `irefs, fs.cache`slots
      ensures Valid() && lists == old(lists)[p := lists[p]]
      ensures !panic ==> forall i :: 0 <= i < 16 ==> lists[p][i] == -1
      ensures panic <==> exists n :: n in old(irefs) && n !in fs.nodes && OnlyBy(old(View()), p, n)
    {
      hide Inv, InodesOk, TreeOk, Agree, InodeCache.CacheIs, InodeCache.Took, OnlyBy, Step;
      ListsLength(files, lists, leaked);
      InodesBasics(files, irefs);
      ghost var l0, s, refs := lists, View(), irefs;
      panic := false;
      var i := 0;
      while i < 16
        invariant 0 <= i <= 16 && Valid() && ListsOk(lists) && lists == l0[p := lists[p]]
        invariant forall j :: 0 <= j < i ==> lists[p][j] == -1
        invariant irefs.Keys <= refs.Keys && forall n :: n in refs && n !in fs.nodes ==> n in irefs
        invariant forall n :: OnlyBy(s, p, n) <==> OnlyBy(View(), p, n)
      {
        panic := FreeFd(p, i);
        ListsLength(files, lists, leaked);
        if panic {
          ghost var n :| n in refs && n !in irefs && n !in fs.nodes;
          NotOpen(View(), irefs, p, n);
          return;
        }
        i := i + 1;
      }
      forall n | n in refs && n !in fs.nodes ensures !OnlyBy(s, p, n) {
        NobodyElse(View(), irefs, p, n);
      }
    }

    method FreeFd(p: int, i: int) returns (panic: bool)
      requires Valid() && IsProc(p) && IsFd(i)
      modifies `files, `lists, `irefs, fs.cache`slots
      ensures Valid() && lists == Put(old(lists), p, i, -1) && Step(old(View()), View())
      ensures irefs.Keys <= old(irefs).Keys
      ensures forall n :: OnlyBy(old(View()), p, n) <==> OnlyBy(View(), p, n)
      ensures panic <==> exists n :: n in old(irefs) && n !in irefs && n !in fs.nodes
    {
      hide TreeOk, Agree, InodeCache.CacheIs, InodeCache.Took, InodeCache.Gave, InodesOk, OnlyBy;
      ghost var s := View();
      panic := false;
      InodesBasics(files, irefs);
      if lists[p][i] != -1 {
        TakeKeeps(files, lists, leaked, p, i);
        ghost var file := files[lists[p][i]];
        if file.ip in irefs { GaveOut(irefs, file.ip); }
        CloseKeeps(files, lists, leaked, irefs, lists[p][i]);
        var closed := CloseFile(lists[p][i]);
        assert closed != RefPanic;
        panic := closed == DestroyPanic;
        lists := lists[p := lists[p][i := -1]];
        assert Takes(s, View(), p, i);
        forall n ensures OnlyBy(s, p, n) <==> OnlyBy(View(), p, n) { OnlyStays(s, View(), p, i, n); }
      } else {
        assert lists[p][i := -1] == lists[p] && lists[p := lists[p]] == lists;
      }
    }
  }

  predicate Positive(irefs: map<int, nat>) {
    forall n :: n in irefs ==> n != -1 && irefs[n] > 0
  }

  /** The file's last reference is the last one to an inode that has no name. */
  predicate LastOfGone(file: File, irefs: map<int, nat>, t: Tree) {
    file.refs == 1 && file.ip in irefs && irefs[file.ip] == 1 && file.ip !in t
  }

  predicate AllUsed(files: seq<File>) {
    forall i {:trigger files[i]} :: 0 <= i < |files| ==> files[i].used
  }

  // ---------- what file_open finds ----------

  ghost predicate OpenPanics(t: Tree, comps: seq<seq<char>>, create: bool, inode: int, refs: map<int, nat>) {
    if create then CreatePanics(t, comps, IsFile, inode, true, refs) else Stuck(t, 0, comps, false, {}, refs)
  }

  ghost predicate Openable(t: Tree, comps: seq<seq<char>>, create: bool, inode: int) {
    if create then MayCreate(t, comps, inode) else Look(t, 0, comps, false).Inode?
  }

  ghost predicate Opened(t: Tree, u: Tree, comps: seq<seq<char>>, create: bool, ip: int) {
    if create then CreatedAt(t, u, comps, IsFile, ip) else u == t && Look(t, 0, comps, false) == Inode(ip)
  }

  /** There is an inode to open, and it is not a directory to be written. */
  ghost predicate Wanted(t: Tree, comps: seq<seq<char>>, create: bool, write: bool, inode: int) {
    Openable(t, comps, create, inode) && (write && !create ==> !DirIn(t, Look(t, 0, comps, false).i))
  }

  lemma WantedIs(t: Tree, comps: seq<seq<char>>, create: bool, write: bool, inode: int)
    ensures Wanted(t, comps, create, write, inode) ==> Openable(t, comps, create, inode)
    ensures create ==> (Wanted(t, comps, create, write, inode) <==> MayCreate(t, comps, inode))
    ensures !create ==> (Wanted(t, comps, create, write, inode) <==>
      Look(t, 0, comps, false).Inode? && !(write && DirIn(t, Look(t, 0, comps, false).i)))
  {
    hide Look, MayCreate;
  }

  lemma OpenedIs(t: Tree, u: Tree, comps: seq<seq<char>>, create: bool, write: bool, inode: int, ip: int, isDir: bool)
    requires Openable(t, comps, create, inode) && Opened(t, u, comps, create, ip)
    requires (isDir <==> DirIn(u, ip)) && (isDir ==> !create)
    ensures Wanted(t, comps, create, write, inode) <==> !(isDir && write)
    ensures !create ==> u == t
  {
    hide Look;
  }

  lemma CreateMay(t: Tree, comps: seq<seq<char>>, inode: int, refs: map<int, nat>)
    ensures !CreatePanics(t, comps, IsFile, inode, true, refs) ==> !Stuck(t, 0, comps, true, {}, refs)
  {
  }

  lemma NewIsFile(t: Tree, u: Tree, comps: seq<seq<char>>, inode: int)
    requires CreatedAt(t, u, comps, IsFile, inode)
    ensures inode in u && u[inode].kind == IsFile && inode >= 0 && MayCreate(t, comps, inode)
  {
    hide Look, Fields;
    var d, name, k: nat, x :| Target(t, comps, d, name) && Creates(t, u, d, k, x, IsFile) && x.inum == inode
      && Dir.Text(x.name) == name;
    CreatedName(t, u, d, k, x);
  }

  lemma CreatedName(t: Tree, u: Tree, d: int, k: nat, x: Dir.Slot)
    requires Creates(t, u, d, k, x, IsFile)
    ensures x.inum in u && u[x.inum].kind == IsFile && x.inum > 0 && Dir.Text(x.name) !in Dir.Entries(t[d].slots)
  {
    Dir.EntriesHas(t[d].slots, Dir.Text(x.name));
    var after := t[d].slots[k := x];
    forall j | 0 <= j < |t[d].slots| ensures !Dir.Names(t[d].slots[j], Dir.Text(x.name)) {
      assert j != k ==> after[j] == t[d].slots[j];
      assert after[k] == x;
    }
  }

  lemma InRange(t: Tree, n: int)
    requires TreeOk(t) && n in t
    ensures n >= 0
  {
  }

  // ---------- references of the table and of the cache ----------

  lemma RootNamed(fs: Fs)
    requires TreeOk(fs.nodes)
    ensures 0 in fs.nodes
  {
  }

  lemma InodesBasics(files: seq<File>, irefs: map<int, nat>)
    requires InodesOk(files, irefs)
    ensures Positive(irefs)
  {
  }

  /** The reference to the root that fs_init keeps, beside those of the files. */
  lemma RootBeside(irefs: map<int, nat>, ip: int)
    requires Positive(irefs) && ip in irefs
    ensures ip in InodeCache.Took(irefs, 0) && (ip == 0 ==> InodeCache.Took(irefs, 0)[0] > 1)
    ensures ip != 0 ==> InodeCache.Took(irefs, 0)[ip] == irefs[ip]
    ensures InodeCache.Gave(InodeCache.Took(irefs, 0), ip) == InodeCache.Took(InodeCache.Gave(irefs, ip), 0)
  {
  }

  lemma TookSwap(irefs: map<int, nat>, ip: int)
    ensures InodeCache.Took(InodeCache.Took(irefs, 0), ip) == InodeCache.Took(InodeCache.Took(irefs, ip), 0)
  {
  }

  /** A reference that is given back at once. */
  lemma GaveBack(irefs: map<int, nat>, ip: int)
    requires Positive(irefs)
    ensures var refs := InodeCache.Took(irefs, 0);
      && ip in InodeCache.Took(refs, ip) && (ip == 0 ==> InodeCache.Took(refs, ip)[0] > 1)
      && InodeCache.Gave(InodeCache.Took(refs, ip), ip) == refs
  {
    InodeCache.TookGave(InodeCache.Took(irefs, 0), ip);
  }

  lemma TookBasics(irefs: map<int, nat>, ip: int)
    requires Positive(irefs) && ip != -1
    ensures Positive(InodeCache.Took(irefs, ip)) && ip in InodeCache.Took(irefs, ip)
    ensures InodeCache.Gave(InodeCache.Took(irefs, ip), ip) == irefs
  {
    InodeCache.TookGave(irefs, ip);
  }

  lemma ListsLength(files: seq<File>, lists: seq<seq<int>>, leaked: seq<nat>)
    requires Inv(files, lists, leaked)
    ensures ListsOk(lists) && |files| == 32 && |leaked| == 32
  {
  }

  lemma OpenIsCounted(files: seq<File>, f: nat, irefs: map<int, nat>)
    requires InodesOk(files, irefs) && f < |files| && files[f].used && files[f].ip != -1
    ensures files[f].ip in irefs
  {
    OpenSet(files, f, files[f], files[f].ip);
    NotEmpty(OpenOn(files, files[f].ip), f);
    assert CountIn(irefs, files[f].ip) >= 1;
  }

  /** What leaves the map with one reference given back. */
  lemma GaveOut(irefs: map<int, nat>, ip: int)
    requires Positive(irefs) && ip in irefs
    ensures InodeCache.Gave(irefs, ip).Keys <= irefs.Keys
    ensures forall n :: n in irefs && n !in InodeCache.Gave(irefs, ip) <==> n == ip && irefs[ip] == 1
  {
  }

  /** Closing keeps one reference for each open file. */
  lemma CloseKeeps(files: seq<File>, lists: seq<seq<int>>, leaked: seq<nat>, irefs: map<int, nat>, f: int)
    requires Inv(files, lists, leaked) && InodesOk(files, irefs) && 0 <= f < 32 && files[f].refs >= 1
    ensures files[f].ip != -1 ==> files[f].ip in irefs
    ensures InodesOk(files[f := Dropped(files[f])],
                     if files[f].refs != 1 || files[f].ip == -1 then irefs else InodeCache.Gave(irefs, files[f].ip))
  {
    assert FileOk(files[f], lists, f, leaked[f]);
    if files[f].ip != -1 { OpenIsCounted(files, f, irefs); }
    if files[f].refs == 1 {
      NowFree(files, f, irefs);
    } else {
      StillOpen(files, f, Dropped(files[f]), irefs);
    }
  }

  lemma InUse(files: seq<File>, lists: seq<seq<int>>, leaked: seq<nat>, p: int, fd: int)
    requires Inv(files, lists, leaked) && IsProc(p) && IsFd(fd) && lists[p][fd] != -1
    ensures 0 <= lists[p][fd] < 32 && files[lists[p][fd]].used && files[lists[p][fd]].refs > 0
  {
    assert SlotIs(lists, p, fd, lists[p][fd]);
    assert FileOk(files[lists[p][fd]], lists, lists[p][fd], leaked[lists[p][fd]]);
  }

  lemma UnusedIsZero(files: seq<File>, lists: seq<seq<int>>, leaked: seq<nat>, f: int)
    requires Inv(files, lists, leaked) && 0 <= f < 32 && !files[f].used
    ensures files[f] == FREE
  {
    assert FileOk(files[f], lists, f, leaked[f]);
  }
}
