/** The tree of directories, on values: what its entries and its link counts have to do with each other. */
module LinkCount {
  import opened Dir

  datatype Kind = IsDir | IsFile | IsDevice

  datatype Node = Node(kind: Kind, nlink: nat, size: nat, slots: seq<Slot>)

  type Tree = map<int, Node>

  predicate DirIn(t: Tree, d: int) {
    d in t && t[d].kind == IsDir
  }

  predicate Dots(name: seq<char>) {
    name == "." || name == ".."
  }

  /** Entry `k` of directory `d` names `n`, by a name other than "." and "..". */
  predicate IsName(t: Tree, d: int, k: int, n: int) {
    && DirIn(t, d) && 0 <= k < 32 && k < |t[d].slots|
    && Used(t[d].slots[k]) && t[d].slots[k].inum == n && !Dots(Text(t[d].slots[k].name))
  }

  /** The entries that name `n`. */
  ghost function NamesOf(t: Tree, n: int): set<(int, int)> {
    set d, k | d in t && 0 <= k < 32 && IsName(t, d, k, n) :: (d, k)
  }

  function Parent(t: Tree, d: int): int
    requires DirIn(t, d)
  {
    Lookup(t[d].slots, "..")
  }

  ghost predicate IsSub(t: Tree, d: int, c: int) {
    c != 0 && DirIn(t, c) && Parent(t, c) == d
  }

  /** The subdirectories of `d`, by their "..". */
  ghost function SubDirs(t: Tree, d: int): set<int> {
    set c | c in t && IsSub(t, d, c)
  }

  /** A directory has distinct names, itself as "." and a directory as "..", and no dangling entry. */
  ghost predicate DirOk(t: Tree, d: int)
    requires DirIn(t, d)
  {
    && SlotsOk(t[d].slots)
    && "." in Entries(t[d].slots) && Lookup(t[d].slots, ".") == d
    && ".." in Entries(t[d].slots) && DirIn(t, Parent(t, d)) && (d == 0 <==> Parent(t, d) == d)
    && forall k {:trigger t[d].slots[k]} :: 0 <= k < 32 && Used(t[d].slots[k]) ==> t[d].slots[k].inum in t
  }

  /**
   * A directory other than the root is named once, in its parent; a file as
   * often as its link count says, and at least once.
   */
  ghost predicate NamesOk(t: Tree, n: int)
    requires n in t
  {
    if n == 0 then NamesOf(t, n) == {}
    else if t[n].kind == IsDir then DirIn(t, n) && exists k :: NamesOf(t, n) == {(Parent(t, n), k)}
    else t[n].nlink == |NamesOf(t, n)| && t[n].nlink > 0
  }

  /** A directory's link count is 1 plus its subdirectories. */
  ghost predicate CountOk(t: Tree, d: int)
    requires DirIn(t, d)
  {
    t[d].nlink == 1 + |SubDirs(t, d)|
  }

  ghost predicate DirsOk(t: Tree) {
    forall d :: DirIn(t, d) ==> DirOk(t, d)
  }

  ghost predicate AllNamed(t: Tree) {
    forall n :: n in t ==> NamesOk(t, n)
  }

  ghost predicate AllCounted(t: Tree) {
    forall d :: DirIn(t, d) ==> CountOk(t, d)
  }

  ghost predicate RootOk(t: Tree) {
    DirIn(t, 0) && forall d :: d in t ==> 0 <= d < 0xFFFF
  }

  ghost predicate TreeOk(t: Tree) {
    RootOk(t) && DirsOk(t) && AllNamed(t) && AllCounted(t)
  }

  // ---------- one entry more or less ----------

  /** `u` is `t` with entry `k` of `d` set to `x`, up to link counts and sizes. */
  ghost predicate SetsSlot(t: Tree, u: Tree, d: int, k: nat, x: Slot) {
    && DirIn(t, d) && SlotsOk(t[d].slots) && k < 32 && u.Keys == t.Keys
    && (forall n :: n in t ==>
        u[n].kind == t[n].kind && u[n].slots == if n == d then t[d].slots[k := x] else t[n].slots)
  }

  lemma NamesAdded(t: Tree, u: Tree, d: int, k: nat, x: Slot, n: int)
    requires SetsSlot(t, u, d, k, x) && !Used(t[d].slots[k]) && Used(x) && !Dots(Text(x.name))
    ensures NamesOf(u, n) == NamesOf(t, n) + (if x.inum == n then {(d, k)} else {})
    ensures (d, k) !in NamesOf(t, n)
  {
    forall e, i ensures IsName(u, e, i, n) <==> IsName(t, e, i, n) || (e == d && i == k && x.inum == n) {
    }
  }

  lemma SlotIn(slots: seq<Slot>, k: nat)
    requires SlotsOk(slots) && k < 32 && Used(slots[k])
    ensures Text(slots[k].name) in Entries(slots) && Lookup(slots, Text(slots[k].name)) == slots[k].inum
  {
    EntriesAt(slots, k);
  }

  /** Changing an entry with an ordinary name leaves "." and ".." alone. */
  lemma DotsKept(slots: seq<Slot>, k: nat, x: Slot, name: seq<char>)
    requires SlotsOk(slots) && k < 32 && SlotsOk(slots[k := x])
    requires (Used(slots[k]) ==> !Dots(Text(slots[k].name))) && (Used(x) ==> !Dots(Text(x.name))) && Dots(name)
    ensures (name in Entries(slots[k := x]) <==> name in Entries(slots))
            && Lookup(slots[k := x], name) == Lookup(slots, name)
  {
    var s2 := slots[k := x];
    EntriesHas(slots, name);
    EntriesHas(s2, name);
    if i :| 0 <= i < |slots| && Names(slots[i], name) {
      assert Names(s2[i], name);
      EntriesAt(slots, i);
      EntriesAt(s2, i);
    }
  }

  lemma TargetsIn(t: Tree, e: int, i: int)
    requires DirIn(t, e) && DirOk(t, e) && 0 <= i < |t[e].slots| && Used(t[e].slots[i])
    ensures t[e].slots[i].inum in t
  {
  }

  /** A directory whose entries did not change stays one, as long as what it names stays. */
  lemma SameSlotsDirOk(t: Tree, u: Tree, e: int)
    requires DirIn(t, e) && DirOk(t, e) && DirIn(u, e) && u[e].slots == t[e].slots
    requires forall m :: m in t && (m !in u || u[m].kind != t[m].kind) ==>
      m != Parent(t, e) && forall i :: 0 <= i < 32 && Used(t[e].slots[i]) ==> t[e].slots[i].inum != m
    ensures DirOk(u, e) && Parent(u, e) == Parent(t, e)
  {
    hide Entries, Used;
  }

  /** So does one with a changed ordinary entry. */
  lemma ChangedSlotDirOk(t: Tree, u: Tree, d: int, k: nat, x: Slot)
    requires DirIn(t, d) && DirOk(t, d) && DirIn(u, d) && k < 32 && u[d].slots == t[d].slots[k := x]
             && SlotsOk(u[d].slots)
    requires (Used(t[d].slots[k]) ==> !Dots(Text(t[d].slots[k].name)))
             && (Used(x) ==> !Dots(Text(x.name)) && x.inum in u)
    requires forall i :: 0 <= i < 32 && i != k && Used(t[d].slots[i]) ==> t[d].slots[i].inum in u
    requires DirIn(u, Parent(t, d))
    ensures DirOk(u, d) && Parent(u, d) == Parent(t, d)
  {
    DotsKept(t[d].slots, k, x, ".");
    DotsKept(t[d].slots, k, x, "..");
    hide Entries, Used, Lookup, SlotsOk, Text;
  }

  /** A directory with nothing but "." and "..". */
  lemma NewDirOk(u: Tree, e: int, d: int)
    requires DirIn(u, e) && SlotsOk(u[e].slots) && Entries(u[e].slots) == map["." := e, ".." := d] && DirIn(u, d)
             && e != 0 && d != e
    ensures DirOk(u, e) && Parent(u, e) == d
  {
    forall i {:trigger u[e].slots[i]} | 0 <= i < 32 && Used(u[e].slots[i]) ensures u[e].slots[i].inum in u {
      SlotIn(u[e].slots, i);
    }
    hide Entries, Used, SlotsOk, Text;
  }

  // ---------- create ----------

  /**
   * A new inode with one entry; a new directory has "." and ".." only, and
   * counts for its parent. The parent's size is where the new entry ends.
   */
  ghost predicate Creates(t: Tree, u: Tree, d: int, k: nat, x: Slot, kind: Kind) {
    && DirIn(t, d) && SlotsOk(t[d].slots) && k < 32 && !Used(t[d].slots[k]) && Used(x) && !Dots(Text(x.name))
    && SlotsOk(t[d].slots[k := x])
    && x.inum !in t && 0 <= x.inum < 0xFFFF && x.inum != 0 && u.Keys == t.Keys + {x.inum}
    && (forall n :: n in t ==>
        u[n].kind == t[n].kind && u[n].slots == (if n == d then t[d].slots[k := x] else t[n].slots)
                               && u[n].nlink == (if n == d && kind == IsDir then t[n].nlink + 1 else t[n].nlink))
    && u[x.inum].kind == kind && u[x.inum].nlink == 1
    && (forall n :: n in t ==> u[n].size == if n == d then 32 * k + 32 else t[n].size)
    && u[x.inum].size == (if kind == IsDir then 64 else 0)
    && (kind == IsDir ==> SlotsOk(u[x.inum].slots) && Entries(u[x.inum].slots) == map["." := x.inum, ".." := d])
  }

  lemma CreateName(t: Tree, u: Tree, d: int, k: nat, x: Slot, kind: Kind, n: int, e: int, i: int)
    requires Creates(t, u, d, k, x, kind)
    ensures IsName(u, e, i, n) <==> IsName(t, e, i, n) || (e == d && i == k && n == x.inum)
  {
    if e == x.inum && IsName(u, e, i, n) {
      SlotIn(u[e].slots, i);
    }
  }

  lemma InNames(t: Tree, p: (int, int), m: int)
    ensures p in NamesOf(t, m) <==> IsName(t, p.0, p.1, m)
  {
  }

  lemma NewIsUnnamed(t: Tree, e: int, i: int, n: int)
    requires DirsOk(t) && n !in t
    ensures !IsName(t, e, i, n)
  {
    if DirIn(t, e) { assert DirOk(t, e); }
  }

  lemma CreateNames(t: Tree, u: Tree, d: int, k: nat, x: Slot, kind: Kind, n: int)
    requires Creates(t, u, d, k, x, kind)
    ensures NamesOf(u, n) == NamesOf(t, n) + (if x.inum == n then {(d, k as int)} else {})
    ensures DirsOk(t) ==> NamesOf(t, x.inum) == {}
  {
    hide IsName, NamesOf, DirsOk;
    assert x.inum !in t;
    hide Creates;
    forall p: (int, int) ensures p in NamesOf(u, n) <==> p in NamesOf(t, n) || (p == (d, k as int) && n == x.inum) {
      CreateName(t, u, d, k, x, kind, n, p.0, p.1);
      InNames(t, p, n);
      InNames(u, p, n);
    }
    if DirsOk(t) {
      forall p: (int, int) ensures p !in NamesOf(t, x.inum) {
        InNames(t, p, x.inum);
        NewIsUnnamed(t, p.0, p.1, x.inum);
      }
    }
  }

  lemma CreateDirOk(t: Tree, u: Tree, d: int, k: nat, x: Slot, kind: Kind, e: int)
    requires Creates(t, u, d, k, x, kind) && DirsOk(t) && DirIn(u, e)
    ensures DirOk(u, e)
    ensures e != x.inum ==> DirIn(t, e) && Parent(u, e) == Parent(t, e)
    ensures e == x.inum ==> Parent(u, e) == d
  {
    hide SlotsOk, Entries, Lookup, Text, Used, Dots;
    if e == x.inum {
      NewDirOk(u, e, d);
    } else {
      assert DirIn(t, e) && DirOk(t, e);
      if e == d {
        forall i | 0 <= i < |t[d].slots| && Used(t[d].slots[i]) ensures t[d].slots[i].inum in u { TargetsIn(t, d, i); }
        ChangedSlotDirOk(t, u, d, k, x);
      } else {
        SameSlotsDirOk(t, u, e);
      }
    }
  }

  lemma ParentIn(t: Tree, c: int)
    requires DirsOk(t) && DirIn(t, c)
    ensures DirIn(t, Parent(t, c))
  {
    assert DirOk(t, c);
  }

  lemma CreateInum(t: Tree, u: Tree, d: int, k: nat, x: Slot, kind: Kind)
    requires Creates(t, u, d, k, x, kind)
    ensures x.inum !in t && x.inum in u && x.inum != 0 && (DirIn(u, x.inum) <==> kind == IsDir)
    ensures u[x.inum].nlink == 1 && u[x.inum].kind == kind && u.Keys == t.Keys + {x.inum} && 0 <= x.inum < 0xFFFF
  {
  }

  lemma CreateKind(t: Tree, u: Tree, d: int, k: nat, x: Slot, kind: Kind, n: int)
    requires Creates(t, u, d, k, x, kind) && n in t
    ensures n in u && u[n].kind == t[n].kind && n != x.inum
    ensures u[n].nlink == if n == d && kind == IsDir then t[n].nlink + 1 else t[n].nlink
  {
  }

  lemma CreateSub(t: Tree, u: Tree, d: int, k: nat, x: Slot, kind: Kind, e: int, c: int)
    requires Creates(t, u, d, k, x, kind) && DirsOk(t)
    ensures IsSub(u, e, c) <==> IsSub(t, e, c) || (kind == IsDir && e == d && c == x.inum)
  {
    hide DirOk, Parent;
    CreateInum(t, u, d, k, x, kind);
    if c in t { CreateKind(t, u, d, k, x, kind, c); }
    if DirIn(u, c) { CreateDirOk(t, u, d, k, x, kind, c); }
    hide Creates, DirsOk;
  }

  lemma CreateSubs(t: Tree, u: Tree, d: int, k: nat, x: Slot, kind: Kind, e: int)
    requires Creates(t, u, d, k, x, kind) && DirsOk(t)
    ensures SubDirs(u, e) == SubDirs(t, e) + (if kind == IsDir && e == d then {x.inum} else {})
    ensures x.inum !in SubDirs(t, e) && (e == x.inum ==> SubDirs(t, e) == {})
  {
    hide Creates, DirsOk, DirOk, Parent;
    CreateInum(t, u, d, k, x, kind);
    forall c ensures IsSub(u, e, c) <==> IsSub(t, e, c) || (kind == IsDir && e == d && c == x.inum) {
      CreateSub(t, u, d, k, x, kind, e, c);
    }
    forall c ensures e == x.inum ==> !IsSub(t, e, c) {
      if DirIn(t, c) { ParentIn(t, c); }
    }
  }

  lemma CreateKeeps(t: Tree, u: Tree, d: int, k: nat, x: Slot, kind: Kind)
    requires TreeOk(t) && Creates(t, u, d, k, x, kind)
    ensures TreeOk(u)
  {
    hide DirsOk, AllNamed, AllCounted;
    CreateInum(t, u, d, k, x, kind);
    CreateKind(t, u, d, k, x, kind, 0);
    CreateAllDirs(t, u, d, k, x, kind);
    CreateAllCounts(t, u, d, k, x, kind);
    CreateAllNames(t, u, d, k, x, kind);
  }

  lemma CreateAllDirs(t: Tree, u: Tree, d: int, k: nat, x: Slot, kind: Kind)
    requires DirsOk(t) && Creates(t, u, d, k, x, kind)
    ensures DirsOk(u)
  {
    hide Creates, DirOk;
    forall e | DirIn(u, e) ensures DirOk(u, e) {
      CreateDirOk(t, u, d, k, x, kind, e);
    }
  }

  lemma CreateAllCounts(t: Tree, u: Tree, d: int, k: nat, x: Slot, kind: Kind)
    requires DirsOk(t) && AllCounted(t) && Creates(t, u, d, k, x, kind)
    ensures AllCounted(u)
  {
    hide Creates, DirsOk, CountOk;
    forall e | DirIn(u, e) ensures CountOk(u, e) {
      CreateCount(t, u, d, k, x, kind, e);
    }
  }

  lemma CreateAllNames(t: Tree, u: Tree, d: int, k: nat, x: Slot, kind: Kind)
    requires DirsOk(t) && AllNamed(t) && Creates(t, u, d, k, x, kind)
    ensures AllNamed(u)
  {
    hide Creates, DirsOk, NamesOk;
    forall n | n in u ensures NamesOk(u, n) {
      CreateNamesOk(t, u, d, k, x, kind, n);
    }
  }

  lemma CreateCount(t: Tree, u: Tree, d: int, k: nat, x: Slot, kind: Kind, e: int)
    requires Creates(t, u, d, k, x, kind) && DirsOk(t) && DirIn(u, e) && (DirIn(t, e) ==> CountOk(t, e))
    ensures CountOk(u, e)
  {
    hide DirsOk, SubDirs;
    CreateInum(t, u, d, k, x, kind);
    CreateSubs(t, u, d, k, x, kind, e);
    if e != x.inum {
      assert e in t;
      CreateKind(t, u, d, k, x, kind, e);
    } else {
      assert d in t;
    }
    hide Creates;
  }

  lemma CreateNamesOk(t: Tree, u: Tree, d: int, k: nat, x: Slot, kind: Kind, n: int)
    requires Creates(t, u, d, k, x, kind) && DirsOk(t) && n in u && (n in t ==> NamesOk(t, n))
    ensures NamesOk(u, n)
  {
    hide DirsOk, NamesOf, Parent, DirOk;
    CreateInum(t, u, d, k, x, kind);
    CreateNames(t, u, d, k, x, kind, n);
    if n in t { CreateKind(t, u, d, k, x, kind, n); }
    if DirIn(u, n) { CreateDirOk(t, u, d, k, x, kind, n); }
    var id: (int, int) := (d, k);
    assert n == x.inum ==> NamesOf(u, n) == {id};
    hide Creates;
  }

  // ---------- link ----------

  ghost predicate Links(t: Tree, u: Tree, d: int, k: nat, x: Slot) {
    && SetsSlot(t, u, d, k, x) && !Used(t[d].slots[k]) && Used(x) && !Dots(Text(x.name)) && SlotsOk(t[d].slots[k := x])
    && x.inum in t && t[x.inum].kind != IsDir && x.inum != 0
    && (forall n :: n in t ==> u[n].nlink == if n == x.inum then t[n].nlink + 1 else t[n].nlink)
    && (forall n :: n in t ==> u[n].size == if n == d then 32 * k + 32 else t[n].size)
  }

  /** "." and ".." stay, so parents and subdirectories do. */
  lemma SetSlotDirs(t: Tree, u: Tree, d: int, k: nat, x: Slot, e: int)
    requires SetsSlot(t, u, d, k, x) && SlotsOk(t[d].slots[k := x]) && DirsOk(t)
    requires (Used(t[d].slots[k]) ==> !Dots(Text(t[d].slots[k].name)))
             && (Used(x) ==> !Dots(Text(x.name)) && x.inum in t)
    ensures DirIn(u, e) <==> DirIn(t, e)
    ensures DirIn(u, e) ==> DirOk(u, e) && Parent(u, e) == Parent(t, e)
  {
    hide SlotsOk, Entries, Lookup, Text, Used, Dots;
    if DirIn(t, e) {
      assert DirOk(t, e);
      if e == d {
        forall i | 0 <= i < |t[d].slots| && Used(t[d].slots[i]) ensures t[d].slots[i].inum in u { TargetsIn(t, d, i); }
        ChangedSlotDirOk(t, u, d, k, x);
      } else {
        SameSlotsDirOk(t, u, e);
      }
    }
  }

  lemma SetSlotSubs(t: Tree, u: Tree, d: int, k: nat, x: Slot, e: int)
    requires SetsSlot(t, u, d, k, x) && SlotsOk(t[d].slots[k := x]) && DirsOk(t)
    requires (Used(t[d].slots[k]) ==> !Dots(Text(t[d].slots[k].name)))
             && (Used(x) ==> !Dots(Text(x.name)) && x.inum in t)
    ensures SubDirs(u, e) == SubDirs(t, e)
  {
    hide DirOk, Parent, DirsOk, SetsSlot;
    forall c ensures IsSub(u, e, c) <==> IsSub(t, e, c) {
      SetSlotDirs(t, u, d, k, x, c);
    }
  }

  lemma LinkKeeps(t: Tree, u: Tree, d: int, k: nat, x: Slot)
    requires TreeOk(t) && Links(t, u, d, k, x)
    ensures TreeOk(u)
  {
    hide DirsOk, AllNamed, AllCounted;
    LinkNode(t, u, d, k, x, 0);
    LinkAllDirs(t, u, d, k, x);
    LinkAllNames(t, u, d, k, x);
  }

  lemma LinkAllDirs(t: Tree, u: Tree, d: int, k: nat, x: Slot)
    requires DirsOk(t) && AllCounted(t) && Links(t, u, d, k, x)
    ensures DirsOk(u) && AllCounted(u)
  {
    hide Links, DirOk, CountOk;
    forall e | DirIn(u, e) ensures DirOk(u, e) && CountOk(u, e) {
      LinkNode(t, u, d, k, x, e);
      LinkDir(t, u, d, k, x, e);
    }
  }

  lemma LinkAllNames(t: Tree, u: Tree, d: int, k: nat, x: Slot)
    requires DirsOk(t) && AllNamed(t) && Links(t, u, d, k, x)
    ensures AllNamed(u)
  {
    hide Links, DirsOk, NamesOk;
    forall n | n in u ensures NamesOk(u, n) {
      LinkNode(t, u, d, k, x, n);
      LinkNames(t, u, d, k, x, n);
    }
  }

  lemma LinkNode(t: Tree, u: Tree, d: int, k: nat, x: Slot, n: int)
    requires Links(t, u, d, k, x)
    ensures u.Keys == t.Keys
    ensures n in t ==> u[n].kind == t[n].kind && u[n].nlink == if n == x.inum then t[n].nlink + 1 else t[n].nlink
    ensures x.inum in t && t[x.inum].kind != IsDir && x.inum != 0
  {
  }

  lemma LinkDir(t: Tree, u: Tree, d: int, k: nat, x: Slot, e: int)
    requires Links(t, u, d, k, x) && DirsOk(t) && DirIn(u, e) && DirIn(t, e) && CountOk(t, e)
    ensures DirOk(u, e) && CountOk(u, e)
  {
    hide DirsOk, DirOk, Parent, SubDirs;
    SetSlotDirs(t, u, d, k, x, e);
    SetSlotSubs(t, u, d, k, x, e);
    LinkNode(t, u, d, k, x, e);
    hide Links, SetsSlot;
  }

  lemma LinkNames(t: Tree, u: Tree, d: int, k: nat, x: Slot, n: int)
    requires Links(t, u, d, k, x) && DirsOk(t) && n in t && n in u && NamesOk(t, n)
    ensures NamesOk(u, n)
  {
    hide DirsOk, DirOk, Parent, NamesOf;
    NamesAdded(t, u, d, k, x, n);
    SetSlotDirs(t, u, d, k, x, n);
    LinkNode(t, u, d, k, x, n);
    hide Links, SetsSlot;
  }

  // ---------- unlink ----------

  /** Entry `k` of `d` goes, and the inode it named when that was its last name. */
  ghost predicate Unlinks(t: Tree, u: Tree, d: int, k: nat, x: Slot, n: int) {
    && DirIn(t, d) && SlotsOk(t[d].slots) && k < 32 && Used(t[d].slots[k]) && t[d].slots[k].inum == n
    && !Dots(Text(t[d].slots[k].name)) && !Used(x) && SlotsOk(t[d].slots[k := x])
    && n in t && n != d
    && (t[n].kind == IsDir ==> |Live(t[n].slots)| == 2)
    && t[n].nlink >= 1
    && u.Keys == (if t[n].nlink == 1 then t.Keys - {n} else t.Keys)
    && (forall m :: m in u ==> u[m].kind == t[m].kind && u[m].size == t[m].size)
    && (forall m :: m in u ==> u[m].slots == if m == d then t[d].slots[k := x] else t[m].slots)
    && (forall m :: m in u ==>
        u[m].nlink == if m == n || (m == d && t[n].kind == IsDir) then t[m].nlink - 1 else t[m].nlink)
  }

  lemma TwoOnly(slots: seq<Slot>, i: nat)
    requires SlotsOk(slots) && |Live(slots)| == 2 && "." in Entries(slots) && ".." in Entries(slots)
    requires i < 32 && Used(slots[i])
    ensures Dots(Text(slots[i].name))
  {
    LiveCount(slots);
    SlotIn(slots, i);
    var keys, name := Entries(slots).Keys, Text(slots[i].name);
    assert |keys| == 2;
    var three: set<seq<char>> := {".", "..", name};
    FewerKeys(three, keys);
    assert !Dots(name) ==> |three| == 3;
  }

  lemma FewerKeys(a: set<seq<char>>, b: set<seq<char>>)
    requires a <= b
    ensures |a| <= |b|
  {
    assert b == a + (b - a);
  }

  lemma NameIn(t: Tree, d: int, k: int, n: int)
    requires IsName(t, d, k, n)
    ensures (d, k) in NamesOf(t, n)
  {
  }

  lemma SubIn(t: Tree, n: int, e: int)
    ensures IsSub(t, n, e) <==> e in SubDirs(t, n)
  {
  }

  lemma OnlyNameIs(t: Tree, c: int)
    requires AllNamed(t) && DirIn(t, c) && c != 0
    ensures exists i :: NamesOf(t, c) == {(Parent(t, c), i)} && IsName(t, Parent(t, c), i, c)
  {
    assert NamesOk(t, c);
    var i :| NamesOf(t, c) == {(Parent(t, c), i)};
    assert (Parent(t, c), i) in NamesOf(t, c);
  }

  lemma DirAt(t: Tree, d: int)
    requires DirsOk(t) && DirIn(t, d)
    ensures DirOk(t, d)
  {
  }

  lemma FileNames(t: Tree, n: int)
    requires AllNamed(t) && n in t && t[n].kind != IsDir && n != 0
    ensures t[n].nlink == |NamesOf(t, n)| && t[n].nlink > 0
  {
    assert NamesOk(t, n);
  }

  lemma RootHasNoName(t: Tree)
    requires AllNamed(t) && 0 in t
    ensures NamesOf(t, 0) == {}
  {
    assert NamesOk(t, 0);
  }

  lemma CountAt(t: Tree, d: int)
    requires AllCounted(t) && DirIn(t, d)
    ensures t[d].nlink == 1 + |SubDirs(t, d)|
  {
    assert CountOk(t, d);
  }

  /** A directory with two entries in use names nothing. */
  lemma NamesNothing(t: Tree, n: int, i: int, c: int)
    requires DirIn(t, n) && DirOk(t, n) && |Live(t[n].slots)| == 2
    ensures !IsName(t, n, i, c)
  {
    if IsName(t, n, i, c) {
      TwoOnly(t[n].slots, i);
    }
  }

  /** So it has no subdirectories. */
  lemma EmptyDir(t: Tree, n: int)
    requires DirsOk(t) && AllNamed(t) && AllCounted(t) && DirIn(t, n) && |Live(t[n].slots)| == 2
    ensures SubDirs(t, n) == {} && t[n].nlink == 1
  {
    DirAt(t, n);
    CountAt(t, n);
    hide DirsOk, AllCounted, DirOk, IsName, Live, AllNamed, NamesOf;
    forall c ensures !IsSub(t, n, c) {
      if IsSub(t, n, c) {
        OnlyNameIs(t, c);
        var i :| NamesOf(t, c) == {(Parent(t, c), i)} && IsName(t, Parent(t, c), i, c);
        NamesNothing(t, n, i, c);
      }
    }
  }

  /** What the invariant says of the inode whose entry goes. */
  ghost predicate Gone(t: Tree, u: Tree, d: int, k: nat, n: int) {
    && n != 0 && n in t && (d, k as int) in NamesOf(t, n)
    && (DirIn(t, n) ==> n !in u && Parent(t, n) == d && SubDirs(t, n) == {})
    && (n !in u ==> NamesOf(t, n) == {(d, k as int)})
    && (n !in u && !DirIn(t, n) ==> SubDirs(t, n) == {})
  }

  lemma UnlinkShape(t: Tree, u: Tree, d: int, k: nat, x: Slot, n: int)
    requires Unlinks(t, u, d, k, x, n)
    ensures IsName(t, d, k, n) && n in t && (DirIn(t, n) ==> |Live(t[n].slots)| == 2)
    ensures n in u <==> t[n].nlink != 1
    ensures u.Keys == if t[n].nlink == 1 then t.Keys - {n} else t.Keys
    ensures forall m :: m in u ==>
            u[m].kind == t[m].kind && u[m].nlink == (if m == n
            || (m == d && t[n].kind == IsDir) then t[m].nlink - 1 else t[m].nlink)
    ensures d in u && n != d
  {
  }

  lemma UnlinkedIs(t: Tree, u: Tree, d: int, k: nat, x: Slot, n: int)
    requires TreeOk(t) && Unlinks(t, u, d, k, x, n)
    ensures Gone(t, u, d, k, n)
  {
    hide Unlinks, DirsOk, AllNamed, AllCounted, IsName, NamesOf, SubDirs, Live, Parent;
    UnlinkShape(t, u, d, k, x, n);
    NameIn(t, d, k, n);
    RootHasNoName(t);
    if DirIn(t, n) {
      EmptyDir(t, n);
      OnlyNameIs(t, n);
    } else {
      FileNames(t, n);
      if n !in u { OneElement(NamesOf(t, n), (d, k as int)); }
      NoSubs(t, n);
    }
  }

  lemma NoSubs(t: Tree, n: int)
    requires DirsOk(t) && !DirIn(t, n)
    ensures SubDirs(t, n) == {}
  {
    hide DirOk;
    forall c ensures !IsSub(t, n, c) {
      if IsSub(t, n, c) { ParentIn(t, c); }
    }
  }

  lemma OneElement(s: set<(int, int)>, e: (int, int))
    requires |s| == 1 && e in s
    ensures s == {e}
  {
    assert |s - {e}| == 0;
    assert s == {e} + (s - {e});
  }

  /** Nobody else's entries name an inode that is gone. */
  lemma NoOtherNames(t: Tree, u: Tree, d: int, k: nat, n: int, e: int, i: nat)
    requires Gone(t, u, d, k, n) && n !in u && DirIn(t, e) && DirOk(t, e) && e != n
    requires i < 32 && i < |t[e].slots| && Used(t[e].slots[i]) && (e != d || i != k)
    ensures t[e].slots[i].inum != n
  {
    SlotIn(t[e].slots, i);
    NotParent(t, u, d, k, n, e);
    hide Gone, Entries, SlotsOk, Used, Text, NamesOf, SubDirs;
    if t[e].slots[i].inum == n && !Dots(Text(t[e].slots[i].name)) {
      NameIn(t, e, i, n);
      OnlyName(t, u, d, k, n, e, i);
    }
  }

  lemma OnlyName(t: Tree, u: Tree, d: int, k: nat, n: int, e: int, i: int)
    requires Gone(t, u, d, k, n) && n !in u && (e, i) in NamesOf(t, n)
    ensures e == d && i == k
  {
    hide NamesOf;
  }

  lemma NotParent(t: Tree, u: Tree, d: int, k: nat, n: int, e: int)
    requires Gone(t, u, d, k, n) && n !in u && DirIn(t, e) && DirOk(t, e) && e != n
    ensures Parent(t, e) != n
  {
    SubIn(t, n, e);
    hide SubDirs, NamesOf, Entries, SlotsOk;
  }

  lemma UnlinkDirOk(t: Tree, u: Tree, d: int, k: nat, x: Slot, n: int, e: int)
    requires DirsOk(t) && Unlinks(t, u, d, k, x, n) && Gone(t, u, d, k, n) && DirIn(u, e)
    ensures DirIn(t, e) && DirOk(u, e) && Parent(u, e) == Parent(t, e)
  {
    DirAt(t, e);
    hide DirsOk, Gone, NamesOf, SubDirs, Entries, Used, Lookup, Live, Text, SlotsOk;
    UnlinkParent(t, u, d, k, x, n, e);
    forall i: nat | i < |t[e].slots| && Used(t[e].slots[i]) && (e != d || i != k) ensures t[e].slots[i].inum in u {
      UnlinkTarget(t, u, d, k, x, n, e, i);
    }
    SlotCount(t, e);
    if e == d {
      ChangedSlotDirOk(t, u, d, k, x);
    } else {
      assert u[e].slots == t[e].slots;
      SameSlotsDirOk(t, u, e);
    }
  }

  lemma SlotCount(t: Tree, e: int)
    requires DirIn(t, e) && DirOk(t, e)
    ensures |t[e].slots| == 32
  {
  }

  lemma UnlinkTarget(t: Tree, u: Tree, d: int, k: nat, x: Slot, n: int, e: int, i: nat)
    requires Unlinks(t, u, d, k, x, n) && Gone(t, u, d, k, n) && DirIn(t, e) && DirOk(t, e) && e in u
    requires i < |t[e].slots| && Used(t[e].slots[i]) && (e != d || i != k)
    ensures t[e].slots[i].inum in u
  {
    SlotCount(t, e);
    TargetsIn(t, e, i);
    UnlinkShape(t, u, d, k, x, n);
    if n !in u { NoOtherNames(t, u, d, k, n, e, i); }
    hide Unlinks, Gone, DirOk, Used, NamesOf;
  }

  lemma UnlinkParent(t: Tree, u: Tree, d: int, k: nat, x: Slot, n: int, e: int)
    requires Unlinks(t, u, d, k, x, n) && Gone(t, u, d, k, n) && DirIn(t, e) && DirOk(t, e) && e in u
    ensures DirIn(u, Parent(t, e))
  {
    UnlinkShape(t, u, d, k, x, n);
    if n !in u { NotParent(t, u, d, k, n, e); }
    hide Unlinks, Gone, Entries, SlotsOk, NamesOf;
  }

  lemma UnlinkNames(t: Tree, u: Tree, d: int, k: nat, x: Slot, n: int, m: int)
    requires DirsOk(t) && Unlinks(t, u, d, k, x, n) && Gone(t, u, d, k, n) && m in u && m in t && NamesOk(t, m)
    ensures NamesOk(u, m)
  {
    hide DirsOk, Gone, SubDirs, Parent, Live;
    UnlinkNamesOf(t, u, d, k, x, n, m);
    UnlinkShape(t, u, d, k, x, n);
    if DirIn(u, m) { UnlinkDirOk(t, u, d, k, x, n, m); }
    GoneIs(t, u, d, k, n);
    hide Unlinks, NamesOf, DirOk, IsName;
  }

  lemma GoneIs(t: Tree, u: Tree, d: int, k: nat, n: int)
    requires Gone(t, u, d, k, n)
    ensures n != 0 && (d, k as int) in NamesOf(t, n) && (DirIn(t, n) ==> n !in u)
  {
  }

  lemma UnlinkNamesOf(t: Tree, u: Tree, d: int, k: nat, x: Slot, n: int, m: int)
    requires DirsOk(t) && Unlinks(t, u, d, k, x, n) && m in u
    ensures NamesOf(u, m) == NamesOf(t, m) - (if m == n then {(d, k as int)} else {})
  {
    hide Unlinks, IsName, DirsOk, NamesOf;
    forall p: (int, int) ensures p in NamesOf(u, m) <==> p in NamesOf(t, m) && !(m == n && p == (d, k as int)) {
      UnlinkName(t, u, d, k, x, n, m, p.0, p.1);
      InNames(t, p, m);
      InNames(u, p, m);
    }
  }

  lemma UnlinkName(t: Tree, u: Tree, d: int, k: nat, x: Slot, n: int, m: int, e: int, i: int)
    requires DirsOk(t) && Unlinks(t, u, d, k, x, n) && m in u
    ensures IsName(u, e, i, m) <==> IsName(t, e, i, m) && !(m == n && e == d && i == k)
  {
    hide DirsOk, Unlinks, Live, Text, Used, Dots;
    UnlinkShape(t, u, d, k, x, n);
    UnlinkSlots(t, u, d, k, x, n, e);
    if DirIn(t, n) {
      DirAt(t, n);
      NamesNothing(t, n, i, m);
    }
    hide DirOk, SlotsOk;
  }

  lemma UnlinkSlots(t: Tree, u: Tree, d: int, k: nat, x: Slot, n: int, e: int)
    requires Unlinks(t, u, d, k, x, n)
    ensures k < 32 && |t[d].slots| == 32 && DirIn(t, d) && !Used(x)
    ensures e in u ==> u[e].slots == if e == d then t[d].slots[k := x] else t[e].slots
  {
  }

  lemma UnlinkSubs(t: Tree, u: Tree, d: int, k: nat, x: Slot, n: int, e: int)
    requires DirsOk(t) && Unlinks(t, u, d, k, x, n) && Gone(t, u, d, k, n)
    ensures SubDirs(u, e) == if DirIn(t, n) && e == d then SubDirs(t, e) - {n} else SubDirs(t, e)
    ensures DirIn(t, n) ==> n in SubDirs(t, d)
  {
    hide DirsOk, SubDirs, Parent;
    UnlinkShape(t, u, d, k, x, n);
    forall c ensures IsSub(u, e, c) <==> IsSub(t, e, c) && !(DirIn(t, n) && c == n) {
      if DirIn(u, c) { UnlinkDirOk(t, u, d, k, x, n, c); }
    }
    GoneSub(t, u, d, k, n);
    hide Unlinks, Gone, IsSub;
    forall c ensures c in SubDirs(u, e) <==> c in SubDirs(t, e) && !(DirIn(t, n) && c == n) {
      SubIn(t, e, c);
      SubIn(u, e, c);
    }
    SubIn(t, e, n);
    SubIn(t, d, n);
  }

  lemma GoneSub(t: Tree, u: Tree, d: int, k: nat, n: int)
    requires Gone(t, u, d, k, n)
    ensures DirIn(t, n) ==> IsSub(t, d, n) && forall e :: e != d ==> !IsSub(t, e, n)
  {
  }

  lemma UnlinkCount(t: Tree, u: Tree, d: int, k: nat, x: Slot, n: int, e: int)
    requires DirsOk(t) && Unlinks(t, u, d, k, x, n) && Gone(t, u, d, k, n) && DirIn(u, e) && DirIn(t, e)
             && CountOk(t, e)
    ensures CountOk(u, e)
  {
    hide DirsOk, SubDirs;
    UnlinkSubs(t, u, d, k, x, n, e);
    UnlinkShape(t, u, d, k, x, n);
    GoneIs(t, u, d, k, n);
    hide Unlinks, Gone;
  }

  lemma UnlinkKeeps(t: Tree, u: Tree, d: int, k: nat, x: Slot, n: int)
    requires TreeOk(t) && Unlinks(t, u, d, k, x, n)
    ensures TreeOk(u)
  {
    hide DirsOk, AllNamed, AllCounted, Unlinks, Gone, NamesOf, IsName;
    UnlinkedIs(t, u, d, k, x, n);
    UnlinkShape(t, u, d, k, x, n);
    GoneIs(t, u, d, k, n);
    UnlinkAllDirs(t, u, d, k, x, n);
    UnlinkAllNames(t, u, d, k, x, n);
  }

  lemma UnlinkAllDirs(t: Tree, u: Tree, d: int, k: nat, x: Slot, n: int)
    requires DirsOk(t) && AllCounted(t) && Unlinks(t, u, d, k, x, n) && Gone(t, u, d, k, n)
    ensures DirsOk(u) && AllCounted(u)
  {
    hide Unlinks, Gone, DirOk, CountOk;
    forall e | DirIn(u, e) ensures DirOk(u, e) && CountOk(u, e) {
      UnlinkDirOk(t, u, d, k, x, n, e);
      UnlinkCount(t, u, d, k, x, n, e);
    }
  }

  lemma UnlinkAllNames(t: Tree, u: Tree, d: int, k: nat, x: Slot, n: int)
    requires DirsOk(t) && AllNamed(t) && Unlinks(t, u, d, k, x, n) && Gone(t, u, d, k, n)
    ensures AllNamed(u)
  {
    UnlinkShape(t, u, d, k, x, n);
    hide Unlinks, Gone, DirsOk, NamesOk;
    forall m | m in u ensures NamesOk(u, m) {
      UnlinkNames(t, u, d, k, x, n, m);
    }
  }

  /** The tree of a fresh file system: the root directory alone. */
  lemma RootAlone(t: Tree)
    requires t.Keys == {0} && t[0].kind == IsDir && t[0].nlink == 1
    requires SlotsOk(t[0].slots) && Entries(t[0].slots) == map["." := 0, ".." := 0]
    ensures TreeOk(t)
  {
    forall i {:trigger t[0].slots[i]} | 0 <= i < 32 && Used(t[0].slots[i])
        ensures t[0].slots[i].inum in t && Dots(Text(t[0].slots[i].name)) {
      SlotIn(t[0].slots, i);
    }
    assert NamesOf(t, 0) == {};
    assert SubDirs(t, 0) == {};
  }

  // ---------- 16 bits are enough ----------

  lemma {:induction false} RowBound(s: set<(int, int)>, d: int, n: nat)
    requires forall p :: p in s ==> p.0 == d && 0 <= p.1 < n
    ensures |s| <= n
  {
    if n == 0 {
      assert s == {};
    } else {
      RowBound(s - {(d, n - 1)}, d, n - 1);
      assert s <= s - {(d, n - 1)} + {(d, n - 1)};
      Smaller(s, s - {(d, n - 1)} + {(d, n - 1)});
    }
  }

  /** At most 32 entries in each directory. */
  lemma {:induction false} EntriesBound(s: set<(int, int)>, dirs: set<int>)
    requires forall p :: p in s ==> p.0 in dirs && 0 <= p.1 < 32
    ensures |s| <= 32 * |dirs|
    decreases dirs
  {
    if s != {} {
      var p :| p in s;
      var d := p.0;
      var row := set p | p in s && p.0 == d;
      RowBound(row, d, 32);
      EntriesBound(s - row, dirs - {d});
      assert s == (s - row) + row;
    }
  }

  lemma Smaller<T>(a: set<T>, b: set<T>)
    requires a <= b
    ensures |a| <= |b|
  {
    assert b == a + (b - a);
  }

  /** On a volume of 2048 inodes no link count leaves its 16 bits. */
  lemma LinksFit(t: Tree, n: int)
    requires TreeOk(t) && |t| <= 2048 && n in t
    ensures t[n].nlink < 0x1_0000
  {
    hide DirsOk, AllNamed, AllCounted;
    if DirIn(t, n) {
      CountAt(t, n);
      Smaller(SubDirs(t, n), t.Keys);
    } else {
      FileNames(t, n);
      var dirs := t.Keys - {n};
      forall p | p in NamesOf(t, n) ensures p.0 in dirs && 0 <= p.1 < 32 {
        assert IsName(t, p.0, p.1, n);
      }
      EntriesBound(NamesOf(t, n), dirs);
      assert t.Keys == dirs + {n};
    }
  }
}
