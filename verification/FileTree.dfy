/**
 * Operations on path names (kernel/fs/dir.c:210-479) over the tree of inodes,
 * with the slots, references and locks of the inode cache.
 */
module FileTree {
  import opened Dir
  import opened Path
  import opened LinkCount
  import opened PathWalk
  import opened PathEffects
  import opened InodeCache

  /**
   * The entries are on disk as the tree has them; an inode without names that is
   * still referenced has no links left.
   */
  ghost predicate Agree(t: Tree, refs: map<int, nat>, disk: map<int, Meta>) {
    && (forall n :: n in t ==> n in disk && disk[n].nlink == t[n].nlink)
    && (forall n :: n in refs && n !in t ==> n in disk && disk[n].nlink == 0)
    && (forall n :: n in refs ==> refs[n] > 0)
    && 0 in refs
  }

  /** Panic comes before anything was stored in the tree, PanicsAtEnd at the very end of path_unlink. */
  datatype Outcome = Ok(inum: int) | Fail | Panic | PanicsAtEnd(last: int)

  datatype Visited = Locked | NoDir | ParentDir | Next(n: int)

  class Fs {
    var nodes: Tree
    const cache: Cache

    /** The locks `held`, and the references `refs`; the root is referenced from fs_init on. */
    ghost predicate Ready(held: set<int>, refs: map<int, nat>)
      reads this, cache
    {
      TreeOk(nodes) && Agree(nodes, refs, cache.disk) && CacheIs(cache, held, refs, refs.Keys)
    }

    /** fs_init: the cache is empty but for the root. */
    constructor (t: Tree, disk: map<int, Meta>)
      requires TreeOk(t) && forall n :: n in t ==> n in disk && disk[n].nlink == t[n].nlink
      ensures Ready({}, map[0 := 1]) && nodes == t && fresh(cache) && cache.disk == disk
    {
      hide TreeOk, Refs, Held, Loaded, CacheOk;
      nodes := t;
      var c := new Cache(disk);
      RootIn(t);
      FirstReference(c);
      cache := c;
    }

    /** search_inode: from the root for every path. */
    method Search(path: seq<char>, parent: bool, ghost held: set<int>, ghost refs: map<int, nat>)
      returns (r: Found, name: seq<char>, k: int)
      requires Ready(held, refs) && NoNul(path) && 0 !in held
      modifies cache`slots
      ensures r == Walk(nodes, 0, Components(path), parent, held, refs)
      ensures r == NotFound ==> Ready(held, refs)
      ensures r.Inode? ==> CacheIs(cache, held, Took(refs, r.i), refs.Keys) && At(cache.slots, k, r.i)
      ensures r.Inode? ==> r.i in nodes && nodes[r.i].nlink >= 1
      ensures LockedStay(old(cache.slots), cache.slots)
      ensures Components(path) != [] && r.Inode? ==> name == Components(path)[|Components(path)| - 1]
    {
      hide TreeOk, Refs, Held, Loaded, Walk, Fields, Took;
      var ip := 0;
      var p := path;
      var done := false;
      r, name := NotFound, [];
      ghost var comps := Components(path);
      RootIn(nodes);
      k := cache.Alloc(0);
      while !done
        invariant NoNul(p) && LockedStay(old(cache.slots), cache.slots)
        invariant !done ==>
                  CacheIs(cache, held, Took(refs, ip), refs.Keys) && At(cache.slots, k, ip) && ip in nodes
                      && nodes[ip].nlink >= 1
        invariant !done && parent && Components(p) == [] ==> ip == 0
        invariant if done then r == Walk(nodes, 0, comps, parent, held, refs)
                  else Walk(nodes, 0, comps, parent, held, refs) == Walk(nodes, ip, Components(p), parent, held, refs)
        invariant !done || r.Inode? ==> LastSeen(comps, Components(p), name)
        invariant done && r.Inode? ==>
                  Components(p) == [] && CacheIs(cache, held, Took(refs, r.i), refs.Keys) && At(cache.slots, k, r.i)
        invariant done && r.Inode? ==> r.i in nodes && nodes[r.i].nlink >= 1
        invariant done && r == NotFound ==> CacheIs(cache, held, refs, refs.Keys)
        decreases if done then 0 else 1 + |p|
      {
        done, r, ip, k, p, name := Round(ip, k, p, parent, held, refs, name, comps);
      }
    }

    /** One round of its loop. */
    method Round(ip: int, k: int, p: seq<char>, parent: bool, ghost held: set<int>, ghost refs: map<int, nat>,
                 name0: seq<char>, ghost comps: seq<seq<char>>)
      returns (done: bool, r: Found, ip2: int, k2: int, p2: seq<char>, name: seq<char>)
      requires TreeOk(nodes) && Agree(nodes, refs, cache.disk) && CacheIs(cache, held, Took(refs, ip), refs.Keys)
               && At(cache.slots, k, ip)
      requires NoNul(p) && ip in nodes && nodes[ip].nlink >= 1 && LastSeen(comps, Components(p), name0)
      requires (parent && Components(p) == [] ==> ip == 0) && 0 !in held
      modifies cache`slots
      ensures LockedStay(old(cache.slots), cache.slots)
      ensures done ==> r == Walk(nodes, ip, Components(p), parent, held, refs)
      ensures done && r.Inode? ==> Components(p2) == [] && LastSeen(comps, [], name)
      ensures done && r.Inode? ==> CacheIs(cache, held, Took(refs, r.i), refs.Keys) && At(cache.slots, k2, r.i)
      ensures done && r.Inode? ==> r.i == ip
      ensures done && r == NotFound ==> CacheIs(cache, held, refs, refs.Keys)
      ensures !done ==>
              CacheIs(cache, held, Took(refs, ip2), refs.Keys) && At(cache.slots, k2, ip2) && ip2 in nodes
                  && nodes[ip2].nlink >= 1
      ensures !done && parent ==> Components(p2) != []
      ensures !done ==>
              Walk(nodes, ip2, Components(p2), parent, held, refs) == Walk(nodes, ip, Components(p), parent, held, refs)
      ensures !done ==> |p2| < |p| && LastSeen(comps, Components(p2), name)
      ensures NoNul(p2)
    {
      hide TreeOk, Lookup, Fields, Refs, Held, Loaded, CacheOk, LockedStay, NoNul, Agree, Took, LastSeen;
      done, r, ip2, k2, p2, name := true, NotFound, ip, k, [], name0;
      NothingLeft();
      LockedStayRefl(cache.slots);
      var more, rest, n1, _, _, _ := SkipElement(p);
      if !more {
        if parent {
          GiveBackRoot(k, held, refs);
        } else {
          r := Inode(ip);
        }
        return;
      }
      name := n1;
      LastStep(comps, Components(p), name0, name);
      var v := Visit(ip, k, name, parent && rest == [], p, held, refs);
      match v {
        case Locked => r := SelfLock;
        case NoDir =>
        case ParentDir => r := Inode(ip);
        case Next(next) =>
          if next != 0xFFFF {
            ghost var s := cache.slots;
            k2 := cache.Alloc(next);
            LockedStayTrans(old(cache.slots), s, cache.slots);
            if k2 == -1 {
              r := NoSlot;
            } else {
              done, ip2, p2 := false, next, rest;
            }
          }
      }
    }

    /** The end of a search for the parent of a path without components. */
    method GiveBackRoot(k: int, ghost held: set<int>, ghost refs: map<int, nat>)
      requires Agree(nodes, refs, cache.disk) && CacheIs(cache, held, Took(refs, 0), refs.Keys) && At(cache.slots, k, 0)
               && 0 !in held
      modifies cache`slots
      ensures CacheIs(cache, held, refs, refs.Keys) && LockedStay(old(cache.slots), cache.slots)
    {
      hide Refs, Held, Loaded, CacheOk;
      TookGave(refs, 0);
      IsHeld(cache.slots, cache.disk, cache.dirty, k, 0);
      var freed := cache.Free(k);
      assert freed == Freed;
    }

    /** Locking an inode on the way, looking at it, and giving it back unless it is what was looked for. */
    method Visit(ip: int, k: int, name: seq<char>, last: bool, ghost p: seq<char>, ghost held: set<int>,
        ghost refs: map<int, nat>)
      returns (v: Visited)
      requires TreeOk(nodes) && Agree(nodes, refs, cache.disk) && CacheIs(cache, held, Took(refs, ip), refs.Keys)
               && At(cache.slots, k, ip)
      requires ip in nodes && nodes[ip].nlink >= 1 && NoNul(p) && Components(p) != [] && name == Components(p)[0]
      modifies cache`slots
      ensures LockedStay(old(cache.slots), cache.slots)
      ensures v == if ip in held then Locked else if !DirIn(nodes, ip) then NoDir else if last then ParentDir
                   else Next(Lookup(nodes[ip].slots, name))
      ensures v.NoDir? || v.Next? ==> CacheIs(cache, held, refs, refs.Keys)
      ensures v.ParentDir? ==> CacheIs(cache, held, Took(refs, ip), refs.Keys) && At(cache.slots, k, ip)
      ensures v.Next? && v.n != 0xFFFF ==> v.n in nodes && 0 <= v.n < 0xFFFF && nodes[v.n].nlink >= 1
    {
      hide TreeOk, Lookup, Fields, Refs, Held, Loaded, CacheOk, NoNul, Agree, Took;
      LinksOf(nodes, refs, cache.disk, ip);
      IsHeld(cache.slots, cache.disk, cache.dirty, k, ip);
      if cache.slots[k].locked {
        return Locked;
      }
      cache.Lock(k);
      if nodes[ip].kind != IsDir {
        v := NoDir;
      } else if last {
        cache.Unlock(k);
        return ParentDir;
      } else {
        var next := SearchIn(ip, name, p);
        v := Next(next);
      }
      var freed := cache.UnlockFree(k);
      assert freed == Freed;
    }

    /** dir_search_entry on an inode of the tree. */
    method SearchIn(d: int, name: seq<char>, ghost p: seq<char>) returns (n: int)
      requires TreeOk(nodes) && DirIn(nodes, d) && NoNul(p) && Components(p) != [] && name == Components(p)[0]
      ensures n == Lookup(nodes[d].slots, name)
      ensures n != 0xFFFF ==> n in nodes && 0 <= n < 0xFFFF && nodes[n].nlink >= 1
    {
      hide TreeOk, Lookup, Dir.SlotsOk, Fields;
      FirstNoNul(p);
      DirIsOk(nodes, d);
      var buf := new Directory(nodes[d].slots, nodes[d].size);
      n := buf.Search(name);
      if n != 0xFFFF { FoundIsLinked(nodes, d, name); }
    }

    /** A parent directory was found, and is referenced and locked. */
    ghost predicate InParent(d: int, k: int, name: seq<char>, held: set<int>, refs: map<int, nat>)
      reads this, cache
    {
      && TreeOk(nodes) && Agree(nodes, refs, cache.disk) && DirIn(nodes, d) && Dir.SlotsOk(nodes[d].slots)
      && CacheIs(cache, held + {d}, Took(refs, d), refs.Keys + {d}) && At(cache.slots, k, d) && cache.slots[k].locked
      && d !in held && d in cache.disk && cache.disk[d].nlink == nodes[d].nlink && nodes[d].nlink >= 1
      && NoNul(name) && 0 < |name| < 30
    }

    /** path_to_pinode and the lock that its callers take then. */
    method ParentLocked(path: seq<char>, ghost held: set<int>, ghost refs: map<int, nat>)
        returns (r: Found, name: seq<char>, k: int)
      requires Ready(held, refs) && NoNul(path) && 0 !in held
      modifies cache`slots
      ensures r == SelfLock || r == NoSlot <==> Stuck(nodes, 0, Components(path), true, held, refs)
      ensures !Stuck(nodes, 0, Components(path), true, held, refs) ==> r == Look(nodes, 0, Components(path), true)
      ensures r == NotFound ==> CacheIs(cache, held, refs, refs.Keys)
      ensures r.Inode? ==> Target(nodes, Components(path), r.i, name) && InParent(r.i, k, name, held, refs)
      ensures LockedStay(old(cache.slots), cache.slots)
    {
      hide TreeOk, CacheIs, Look, Fields, Stuck, Agree, Took, LockedStay, Target;
      r, name, k := ParentOf(path, held, refs);
      if r.Inode? {
        TargetIs(nodes, Components(path), r.i, name);
        LinksOf(nodes, refs, cache.disk, r.i);
        DirLinked(nodes, r.i);
        ghost var s := cache.slots;
        Hold(k, r.i, held, Took(refs, r.i), refs.Keys);
        LockedStayTrans(old(cache.slots), s, cache.slots);
      }
    }

    /** inode_lock, by number. */
    method Hold(k: int, n: int, ghost held: set<int>, ghost refs: map<int, nat>, ghost base: set<int>)
      requires CacheIs(cache, held, refs, base) && At(cache.slots, k, n) && n !in held && n in cache.disk
      modifies cache`slots
      ensures CacheIs(cache, held + {n}, refs, base + {n}) && At(cache.slots, k, n) && cache.slots[k].locked
      ensures cache.slots == old(cache.slots)[k := cache.slots[k]]
      ensures LockedStay(old(cache.slots), cache.slots)
    {
      hide Refs, Held, Loaded, CacheOk, LockedStay;
      cache.Lock(k);
    }

    /** inode_alloc, by number; -1 is its panic. */
    method TakeRef(n: int, ghost held: set<int>, ghost refs: map<int, nat>, ghost base: set<int>) returns (k: int)
      requires CacheIs(cache, held, refs, base) && 0 <= n < 0xFFFF
      modifies cache`slots
      ensures k == -1 <==> n !in refs && |refs| == 32
      ensures k == -1 ==> CacheIs(cache, held, refs, base)
      ensures k != -1 ==> CacheIs(cache, held, Took(refs, n), base) && At(cache.slots, k, n)
      ensures LockedStay(old(cache.slots), cache.slots)
    {
      hide Refs, Held, Loaded, CacheOk, LockedStay, Took;
      k := cache.Alloc(n);
    }

    /** path_to_pinode, with what it and the invariant say of the directory found. */
    method ParentOf(path: seq<char>, ghost held: set<int>, ghost refs: map<int, nat>)
        returns (r: Found, name: seq<char>, k: int)
      requires Ready(held, refs) && NoNul(path) && 0 !in held
      modifies cache`slots
      ensures r == SelfLock || r == NoSlot <==> Stuck(nodes, 0, Components(path), true, held, refs)
      ensures !Stuck(nodes, 0, Components(path), true, held, refs) ==> r == Look(nodes, 0, Components(path), true)
      ensures r == NotFound ==> CacheIs(cache, held, refs, refs.Keys)
      ensures r.Inode? ==> CacheIs(cache, held, Took(refs, r.i), refs.Keys) && At(cache.slots, k, r.i) && r.i !in held
      ensures r.Inode? ==> Target(nodes, Components(path), r.i, name) && Dir.SlotsOk(nodes[r.i].slots)
      ensures NoNul(name) && |name| < 30 && (r.Inode? ==> name != [])
      ensures LockedStay(old(cache.slots), cache.slots)
    {
      hide TreeOk, Refs, Held, Loaded, CacheOk, Walk, Look, Fields, Stuck, DirsOk;
      r, name, k := Search(path, true, held, refs);
      WalkIs(nodes, 0, Components(path), true, held, refs);
      ParentNotHeld(nodes, 0, Components(path), held, refs);
      if r.Inode? {
        ParentIsTarget(nodes, Components(path));
        ParentStays(nodes, Components(path));
        DirIsOk(nodes, r.i);
        LastNoNul(path);
      } else {
        name := [];
      }
    }

    /** inode_unlock_free of a directory on the tree. */
    method Leave(d: int, k: int, ghost held: set<int>, ghost refs: map<int, nat>)
      requires CacheIs(cache, held + {d}, Took(refs, d), refs.Keys + {d}) && At(cache.slots, k, d) && d !in held
      requires d in cache.disk && cache.disk[d].nlink >= 1 && (d in refs ==> refs[d] > 0)
      modifies cache`slots
      ensures CacheIs(cache, held, refs, refs.Keys) && cache.slots == old(cache.slots)[k := cache.slots[k]]
    {
      hide Refs, Held, Loaded, CacheOk;
      TookGave(refs, d);
      var freed := cache.UnlockFree(k);
      assert freed == Freed;
    }

    /**
     * inode_create once it has a number, and the lock that path_create_inode
     * takes then; -1 is the panic of inode_alloc.
     */
    method NewInode(inode: int, ghost held: set<int>, ghost refs: map<int, nat>) returns (k: int)
      requires CacheIs(cache, held, refs, refs.Keys) && 0 < inode < 0xFFFF && inode !in refs && inode !in held
               && inode in cache.disk
      modifies cache`slots, cache`disk, cache`dirty
      ensures k == -1 <==> |refs| == 32
      ensures k == -1 ==> cache.disk == old(cache.disk)
      ensures k != -1 ==>
              CacheIs(cache, held + {inode}, Took(refs, inode), refs.Keys + {inode}) && At(cache.slots, k, inode)
      ensures k != -1 ==> LockedStay(old(cache.slots), cache.slots)
      ensures k != -1 ==> cache.disk == old(cache.disk)[inode := old(cache.disk)[inode].(nlink := 1)]
    {
      hide Refs, Held, Loaded, CacheOk, Took, LockedStay;
      ghost var s0 := cache.slots;
      k := TakeRef(inode, held, refs, refs.Keys);
      if k == -1 {
        return;
      }
      ghost var s1 := cache.slots;
      FirstWrite(inode, k, held, Took(refs, inode), refs.Keys);
      Hold(k, inode, held, Took(refs, inode), refs.Keys);
      LockedStayAt(s0, s1, cache.slots, k);
    }

    /** The new inode is written for the first time. */
    method FirstWrite(inode: int, k: int, ghost held: set<int>, ghost refs: map<int, nat>, ghost base: set<int>)
      requires CacheIs(cache, held, refs, base) && At(cache.slots, k, inode) && inode !in held && inode in cache.disk
      modifies cache`slots, cache`disk, cache`dirty
      ensures CacheIs(cache, held, refs, base) && At(cache.slots, k, inode)
      ensures cache.slots == old(cache.slots)[k := cache.slots[k]]
      ensures cache.disk == old(cache.disk)[inode := old(cache.disk)[inode].(nlink := 1)]
    {
      hide Refs, Held, Loaded, CacheOk, LockedStay;
      cache.Lock(k);
      cache.SetLinks(k, 1);
      cache.Unlock(k);
      assert held + {inode} - {inode} == held;
    }

    /** The last cache operations of path_create_inode. */
    method CloseNew(d: int, k: int, inode: int, k2: int, dir: bool, nlink: nat, ghost refs: map<int, nat>)
      requires CacheIs(cache, {d} + {inode}, Took(Took(refs, d), inode), Took(refs, d).Keys + {inode})
               && At(cache.slots, k, d)
               && At(cache.slots, k2, inode)
      requires d != inode && inode !in refs && (d in refs ==> refs[d] > 0)
      requires d in cache.disk && cache.disk[d].nlink == nlink && nlink >= 1
      modifies cache`slots, cache`disk, cache`dirty
      ensures CacheIs(cache, {}, Took(refs, inode), Took(refs, inode).Keys)
      ensures LinksSet(old(cache.disk), cache.disk, if dir then map[inode := 1, d := nlink + 1] else map[inode := 1])
    {
      hide Refs, Held, Loaded, CacheOk, Took;
      ghost var disk0 := cache.disk;
      if dir {
        cache.SetLinks(k, nlink + 1);
      }
      cache.SetLinks(k2, 1);
      cache.Unlock(k2);
      TookTwo(refs, d, inode);
      TookKeys(refs, d);
      TookKeys(refs, inode);
      assert {d} + {inode} - {inode} == {} + {d};
      Leave(d, k, {}, Took(refs, inode));
    }

    /**
     * path_create_inode, given the inode that the bitmap yields (0 for none)
     * and whether a block is free. No slot for the new inode, a full parent
     * directory, or no block for a new directory ends in a panic.
     */
    method Create(path: seq<char>, kind: Kind, inode: int, block: bool, ghost refs: map<int, nat>) returns (o: Outcome)
      requires Ready({}, refs) && NoNul(path)
      requires inode == 0 || (0 < inode < 0xFFFF && inode !in nodes && inode !in refs && inode in cache.disk)
      modifies this, cache
      ensures o.Ok? ==> o.inum == inode && CreatedAt(old(nodes), nodes, Components(path), kind, inode)
      ensures o.Ok? ==> Look(nodes, 0, Components(path), false) == Inode(inode)
      ensures o.Ok? ==> OldPathsStay(old(nodes), nodes)
      ensures o.Ok? ==> Ready({}, Took(refs, inode))
      ensures o == Fail ==> Ready({}, refs)
      ensures !o.Ok? ==> nodes == old(nodes)
      ensures !o.PanicsAtEnd? && (o == Panic <==> CreatePanics(old(nodes), Components(path), kind, inode, block, refs))
      ensures o == Fail <==>
              !Stuck(old(nodes), 0, Components(path), true, {}, refs) && !MayCreate(old(nodes), Components(path), inode)
    {
      hide TreeOk, Look, Fields, Stuck, Agree, CacheIs, Took, Target, Entries, Creates, Used, OldPathsStay;
      var r, name, k := ParentLocked(path, {}, refs);
      if r == NoSlot || r == SelfLock {
        return Panic;
      }
      if r == NotFound {
        NoTarget(nodes, Components(path));
        return Fail;
      }
      CreateHere(nodes, Components(path), r.i, name, kind, inode, block, refs);
      ghost var t, i, x := nodes, 0, Dir.Slot(0, []);
      o, i, x := CreateIn(r.i, k, name, kind, inode, block, refs);
      if o.Ok? {
        CreatedHere(t, nodes, Components(path), r.i, name, kind, i, x);
        CreatedEffect(t, nodes, Components(path), kind, inode);
      }
    }

    /** path_create_inode from the locked parent directory on. */
    method CreateIn(d: int, k: int, name: seq<char>, kind: Kind, inode: int, block: bool, ghost refs: map<int, nat>)
        returns (o: Outcome, ghost i: nat, ghost x: Dir.Slot)
      requires InParent(d, k, name, {}, refs)
      requires inode == 0 || (0 < inode < 0xFFFF && inode !in nodes && inode !in refs && inode in cache.disk)
      modifies this, cache
      ensures o == Fail || o == Panic || o == Ok(inode)
      ensures o.Ok? ==> Creates(old(nodes), nodes, d, i, x, kind) && x.inum == inode && Text(x.name) == name
      ensures o.Ok? ==> Ready({}, Took(refs, inode))
      ensures o == Fail ==> Ready({}, refs)
      ensures !o.Ok? ==> nodes == old(nodes)
      ensures o == Fail <==> inode == 0 || name in Entries(old(nodes)[d].slots)
      ensures o == Panic <==>
        inode != 0 && name !in Entries(old(nodes)[d].slots)
        && ((kind == IsDir && !block) || |Took(refs, d)| == 32 || IsFull(old(nodes)[d].slots))
    {
      hide TreeOk, DirsOk, Entries, Lookup, Creates, CacheIs, Took, LockedStay, Agree, Text;
      i, x := 0, Dir.Slot(0, []);
      RefsPositive(nodes, refs, cache.disk);
      var buf := new Directory(nodes[d].slots, nodes[d].size);
      var there := buf.Search(name);
      if there != 0xFFFF || inode == 0 {
        Leave(d, k, {}, refs);
        o := Fail;
        return;
      }
      ghost var locked, disk0 := cache.slots, cache.disk;
      TookKeys(refs, d);
      assert {} + {d} == {d};
      var k2 := NewInode(inode, {d}, Took(refs, d));
      if k2 == -1 {
        o := Panic;
        return;
      }
      StillAt(cache, locked, k, d, {d} + {inode}, Took(Took(refs, d), inode), Took(refs, d).Keys + {inode});
      AgreeElsewhere(nodes, refs, disk0, inode, cache.disk[inode]);
      var offset := buf.Add(inode, name);
      if offset == 1024 || (kind == IsDir && !block) {
        o := Panic;
        return;
      }
      NotDots(nodes, d, name);
      var slots, size := [], 0;
      if kind == IsDir {
        DirInRange(nodes, d);
        slots, size := DotBlock(inode, d);
      }
      i, x := offset / 32, buf.slots[offset / 32];
      Complete(d, k, offset / 32, buf.slots, buf.size, kind, inode, k2, slots, size, refs);
      o := Ok(inode);
    }

    /** The end of path_link: the link count is written, and both inodes are given back. */
    method Count(f: int, kf: int, d: int, k: int, i: nat, slots: seq<Dir.Slot>, size: nat, ghost refs: map<int, nat>)
      requires size == 32 * i + 32
      requires TreeOk(nodes) && DirIn(nodes, d) && Dir.SlotsOk(nodes[d].slots) && i < 32 && !Used(nodes[d].slots[i])
      requires Dir.SlotsOk(slots) && slots == nodes[d].slots[i := slots[i]] && Used(slots[i]) && slots[i].inum == f
      requires !Dots(Text(slots[i].name)) && f in nodes && nodes[f].kind != IsDir && f != 0
      requires CacheIs(cache, {f} + {d}, Took(Took(refs, f), d), Took(refs, f).Keys + {d}) && At(cache.slots, kf, f)
               && At(cache.slots, k, d)
      requires Agree(nodes, refs, cache.disk) && nodes[f].nlink >= 1 && nodes[d].nlink >= 1
      modifies `nodes, cache`slots, cache`disk, cache`dirty
      ensures Ready({}, refs) && LinkCount.Links(old(nodes), nodes, d, i, slots[i])
    {
      hide TreeOk, Entries, Refs, Held, Loaded, CacheOk, Took, LinkCount.Links, Agree, Used, Text;
      ghost var t, disk0 := nodes, cache.disk;
      LinksOf(nodes, refs, cache.disk, d);
      LinksOf(nodes, refs, cache.disk, f);
      cache.SetLinks(kf, nodes[f].nlink + 1);
      LeaveTwo(f, kf, d, k, refs);
      Name(d, i, slots, size, f);
      LinkAgrees(t, nodes, d, i, slots[i], refs, disk0, cache.disk);
    }

    /** A directory and another inode on the tree, both locked, are given back in that order. */
    method LeaveTwo(f: int, kf: int, d: int, k: int, ghost refs: map<int, nat>)
      requires CacheIs(cache, {f} + {d}, Took(Took(refs, f), d), Took(refs, f).Keys + {d}) && At(cache.slots, kf, f)
               && At(cache.slots, k, d)
               && f != d
      requires f in cache.disk && cache.disk[f].nlink >= 1 && d in cache.disk && cache.disk[d].nlink >= 1
      requires (f in refs ==> refs[f] > 0) && (d in refs ==> refs[d] > 0)
      modifies cache`slots
      ensures CacheIs(cache, {}, refs, refs.Keys)
    {
      hide Refs, Held, Loaded, CacheOk;
      hide Took;
      TookKeys(refs, f);
      TookTwo(refs, d, f);
      assert {} + {f} == {f};
      Leave(d, k, {f}, Took(refs, f));
      Leave(f, kf, {}, refs);
    }

    /**
     * path_link: only files can be linked. It panics when the walk to the new
     * name passes the file itself, or when an inode on a path has no slot.
     */
    method Link(oldPath: seq<char>, newPath: seq<char>, ghost refs: map<int, nat>) returns (o: Outcome)
      requires Ready({}, refs) && NoNul(oldPath) && NoNul(newPath)
      modifies this, cache
      ensures o.Ok? || o.Fail? || o.Panic?
      ensures o.Ok? ==> LinkedAt(old(nodes), nodes, Components(oldPath), Components(newPath), o.inum)
      ensures o.Ok? ==> Look(nodes, 0, Components(newPath), false) == Inode(o.inum)
      ensures o.Ok? ==> Look(nodes, 0, Components(oldPath), false) == Inode(o.inum) && OldPathsStay(old(nodes), nodes)
      ensures o.Ok? || o.Fail? ==> Ready({}, refs)
      ensures !o.Ok? ==> nodes == old(nodes)
      ensures o == Panic <==> LinkPanics(old(nodes), Components(oldPath), Components(newPath), refs)
      ensures o.Ok? ==> MayLink(old(nodes), Components(oldPath), Components(newPath))
      ensures o == Fail ==> !MayLink(old(nodes), Components(oldPath), Components(newPath))
    {
      hide TreeOk, Walk, Look, Entries, LinkCount.Links, Fields, CacheIs, Took, LockedStay, Agree, Stuck, Target, Used,
          OldPathsStay;
      var a, _, kf := Search(oldPath, false, {}, refs);
      RootRef(nodes, refs, cache.disk);
      WalkIs(nodes, 0, Components(oldPath), false, {}, refs);
      if a == SelfLock || a == NoSlot {
        return Panic;
      }
      if a == NotFound {
        return Fail;
      }
      var f := a.i;
      LinksOf(nodes, refs, cache.disk, f);
      TookKeys(refs, f);
      assert {} + {f} == {f};
      Hold(kf, f, {}, Took(refs, f), refs.Keys);
      if nodes[f].kind == IsDir {
        Leave(f, kf, {}, refs);
        return Fail;
      }
      FileInRange(nodes, f);
      AgreeTook(nodes, refs, cache.disk, f);
      ghost var locked := cache.slots;
      var r, name, k := ParentLocked(newPath, {f}, Took(refs, f));
      if r == SelfLock || r == NoSlot {
        return Panic;
      }
      if r == NotFound {
        NoTarget(nodes, Components(newPath));
        StillAt(cache, locked, kf, f, {f}, Took(refs, f), refs.Keys + {f});
        Leave(f, kf, {}, refs);
        return Fail;
      }
      StillAt(cache, locked, kf, f, {f} + {r.i}, Took(Took(refs, f), r.i), Took(refs, f).Keys + {r.i});
      LinkHere(nodes, Components(newPath), r.i, name);
      ghost var t, i, x := nodes, 0, Dir.Slot(0, []);
      o, i, x := LinkIn(f, kf, r.i, k, name, refs);
      if o.Ok? {
        LinkedHere(t, nodes, Components(oldPath), Components(newPath), f, r.i, name, i, x);
        LinkedEffect(t, nodes, Components(oldPath), Components(newPath), f);
      }
    }

    /** path_link from the locked parent directory of the new name on. */
    method LinkIn(f: int, kf: int, d: int, k: int, name: seq<char>, ghost refs: map<int, nat>)
        returns (o: Outcome, ghost i: nat, ghost x: Dir.Slot)
      requires InParent(d, k, name, {f}, Took(refs, f)) && At(cache.slots, kf, f)
      requires f in nodes && nodes[f].kind != IsDir && nodes[f].nlink >= 1 && Agree(nodes, refs, cache.disk)
      modifies this, cache
      ensures o == Fail || o == Ok(f)
      ensures Ready({}, refs)
      ensures o.Ok? ==> LinkCount.Links(old(nodes), nodes, d, i, x) && x.inum == f && Text(x.name) == name
      ensures o == Fail ==> nodes == old(nodes)
      ensures o == Fail <==> name in Entries(old(nodes)[d].slots) || IsFull(old(nodes)[d].slots)
    {
      hide TreeOk, Entries, LinkCount.Links, CacheIs, Took, Agree, Text;
      FileInRange(nodes, f);
      LinksOf(nodes, refs, cache.disk, f);
      RefsPositive(nodes, refs, cache.disk);
      var buf := new Directory(nodes[d].slots, nodes[d].size);
      var offset := buf.Add(f, name);
      if offset == 1024 {
        LeaveTwo(f, kf, d, k, refs);
        return Fail, 0, Dir.Slot(0, []);
      }
      NotDots(nodes, d, name);
      i, x := offset / 32, buf.slots[offset / 32];
      Count(f, kf, d, k, offset / 32, buf.slots, buf.size, refs);
      o := Ok(f);
    }

    /** The end of path_unlink: an inode without names leaves the tree, and its last reference ends in the panic. */
    method Forget(n: int, kn: int, d: int, k: int, ghost i: nat, slots: seq<Dir.Slot>, ghost refs: map<int, nat>)
        returns (r: FreeResult)
      requires TreeOk(nodes) && DirIn(nodes, d) && Dir.SlotsOk(nodes[d].slots) && Dir.SlotsOk(slots) && i < 32
      requires slots == nodes[d].slots[i := slots[i]] && Used(nodes[d].slots[i]) && nodes[d].slots[i].inum == n
               && !Used(slots[i])
      requires !Dots(Text(nodes[d].slots[i].name)) && n in nodes && n != d && nodes[n].nlink >= 1
      requires nodes[d].nlink >= if DirIn(nodes, n) then 2 else 1
      requires DirIn(nodes, n) ==> |Live(nodes[n].slots)| == 2
      requires CacheIs(cache, {d} + {n}, Took(Took(refs, d), n), Took(refs, d).Keys + {n}) && At(cache.slots, kn, n)
               && At(cache.slots, k, d)
      requires Agree(nodes, refs, cache.disk)
      modifies `nodes, cache`slots, cache`disk, cache`dirty
      ensures TreeOk(nodes) && LinkCount.Unlinks(old(nodes), nodes, d, i, slots[i], n)
      ensures r == DestroyPanics <==> old(nodes)[n].nlink == 1 && n !in refs
      ensures r != DestroyPanics ==> Ready({}, refs)
    {
      hide TreeOk, Entries, Refs, Held, Loaded, CacheOk, Took, LinkCount.Unlinks, Agree, Used, Text, Live;
      ghost var t, disk0 := nodes, cache.disk;
      LinksOf(nodes, refs, cache.disk, d);
      LinksOf(nodes, refs, cache.disk, n);
      r := CloseGone(n, kn, nodes[n].nlink, d, k, nodes[d].nlink, nodes[n].kind == IsDir, refs);
      Drop(d, i, slots, n);
      RootIn(nodes);
      UnlinkAgrees(t, nodes, d, i, slots[i], n, refs, disk0, cache.disk);
    }

    /** Its cache operations. */
    method CloseGone(n: int, kn: int, nlink: nat, d: int, k: int, dlink: nat, dir: bool, ghost refs: map<int, nat>)
      returns (r: FreeResult)
      requires CacheIs(cache, {d} + {n}, Took(Took(refs, d), n), Took(refs, d).Keys + {n}) && At(cache.slots, kn, n)
               && At(cache.slots, k, d)
               && n != d
      requires n in cache.disk && cache.disk[n].nlink == nlink >= 1 && d in cache.disk && cache.disk[d].nlink == dlink
      requires dlink >= (if dir then 2 else 1) && (n in refs ==> refs[n] > 0) && (d in refs ==> refs[d] > 0)
      modifies cache`slots, cache`disk, cache`dirty
      ensures r == DestroyPanics <==> nlink == 1 && n !in refs
      ensures CacheIs(cache, {}, refs, refs.Keys)
      ensures LinksSet(old(cache.disk), cache.disk, if dir then map[n := nlink - 1, d := dlink - 1]
              else map[n := nlink - 1])
    {
      hide Refs, Held, Loaded, CacheOk, Took;
      if dir {
        cache.SetLinks(k, dlink - 1);
      }
      TookTwo(refs, d, n);
      TookKeys(refs, d);
      TookKeys(refs, n);
      assert {d} + {n} == {n} + {d} && Took(refs, d).Keys + {n} == Took(refs, n).Keys + {d};
      Leave(d, k, {n}, Took(refs, n));
      cache.SetLinks(kn, nlink - 1);
      TookGave(refs, n);
      TookOnce(refs, n);
      r := cache.UnlockFree(kn);
    }

    /** check_unlink: its panic is not reached. */
    method CheckUnlink(n: int) returns (empty: bool)
      requires TreeOk(nodes) && DirIn(nodes, n)
      ensures empty <==> |Live(nodes[n].slots)| == 2
    {
      hide TreeOk, Live;
      AtLeastTwo(nodes, n);
      var sub := new Directory(nodes[n].slots, nodes[n].size);
      var list := sub.GetEntries(96);
      assert |list| == 2 || |list| == 3;
      empty := |list| != 3;
    }

    /**
     * path_unlink. When the entry was the last name of an inode that nobody
     * else references, the call ends in the panic of inode_destroy, after the
     * entry was deleted and the link count written.
     */
    method Unlink(path: seq<char>, ghost refs: map<int, nat>) returns (o: Outcome)
      requires Ready({}, refs) && NoNul(path)
      modifies this, cache
      ensures TreeOk(nodes) && (o.Ok? || o == Fail ==> Ready({}, refs))
      ensures o.Ok? ==> UnlinkedAt(old(nodes), nodes, Components(path), o.inum)
      ensures o.PanicsAtEnd? ==> UnlinkedAt(old(nodes), nodes, Components(path), o.last)
      ensures o.Ok? || o.PanicsAtEnd? ==>
        Look(nodes, 0, Components(path), false) == NotFound && OldPathsStay(nodes, old(nodes))
      ensures o == Fail || o == Panic ==> nodes == old(nodes)
      ensures o == Panic <==> UnlinkPanics(old(nodes), Components(path), refs)
      ensures o == Fail ==> forall n :: !MayUnlink(old(nodes), Components(path), n)
      ensures o.Ok? ==> MayUnlink(old(nodes), Components(path), o.inum)
      ensures o.PanicsAtEnd? <==>
              !UnlinkPanics(old(nodes), Components(path), refs) && LastName(old(nodes), Components(path), refs)
    {
      hide TreeOk, Look, Fields, CacheIs, Took, Agree, Stuck, NamesChild, Target, Live, Entries, Lookup,
          LinkCount.Unlinks, OldPathsStay;
      var r, name, k := ParentLocked(path, {}, refs);
      if r == NoSlot || r == SelfLock {
        return Panic;
      }
      if r == NotFound {
        NoChild(nodes, Components(path));
        return Fail;
      }
      UnlinkHere(nodes, Components(path), r.i, name, refs);
      ghost var t, i, x := nodes, 0, Dir.Slot(0, []);
      o, i, x := UnlinkIn(r.i, k, name, refs);
      if o.Ok? || o.PanicsAtEnd? {
        UnlinkedHere(t, nodes, Components(path), r.i, name, i, x, Lookup(t[r.i].slots, name));
        UnlinkedEffect(t, nodes, Components(path), Lookup(t[r.i].slots, name));
      }
    }

    /** path_unlink from the locked parent directory on. */
    method UnlinkIn(d: int, k: int, name: seq<char>, ghost refs: map<int, nat>)
        returns (o: Outcome, ghost i: nat, ghost x: Dir.Slot)
      requires InParent(d, k, name, {}, refs)
      modifies this, cache
      ensures TreeOk(nodes) && (o.Ok? || o == Fail ==> Ready({}, refs))
      ensures o == Fail || o == Panic ==> nodes == old(nodes)
      ensures var t := old(nodes); var n := Lookup(t[d].slots, name);
        && (o == Panic <==> IsEntry(t, d, name) && |Took(refs, d)| == 32 && n !in refs)
        && (o == Fail <==> !(IsEntry(t, d, name) && |Took(refs, d)| == 32 && n !in refs) && !Removable(t, d, name))
        && (o.Ok? ==> o.inum == n) && (o.PanicsAtEnd? ==> o.last == n)
        && (Removable(t, d, name) ==> n in t && (o.PanicsAtEnd? <==> o != Panic && t[n].nlink == 1 && n !in refs))
        && (o.Ok? || o.PanicsAtEnd? ==>
              LinkCount.Unlinks(t, nodes, d, i, x, n) && i < |t[d].slots| && Names(t[d].slots[i], name))
    {
      hide TreeOk, DirsOk, Entries, Lookup, LinkCount.Unlinks, Live, CacheIs, Took, LockedStay, Agree;
      i, x := 0, Dir.Slot(0, []);
      RefsPositive(nodes, refs, cache.disk);
      var buf := new Directory(nodes[d].slots, nodes[d].size);
      if name == "." || name == ".." {
        Leave(d, k, {}, refs);
        o := Fail;
        return;
      }
      var n := buf.Search(name);
      if n == 0xFFFF {
        Leave(d, k, {}, refs);
        o := Fail;
        return;
      }
      NamedChild(nodes, d, name, n);
      var kn := BothLocked(d, k, n, refs);
      if kn == -1 {
        o := Panic;
        return;
      }
      LinksOf(nodes, refs, cache.disk, n);
      var empty := true;
      if nodes[n].kind == IsDir {
        empty := CheckUnlink(n);
      }
      if !empty {
        LeaveTwo(d, k, n, kn, refs);
        o := Fail;
        return;
      }
      var _, at := buf.Delete(name);
      i, x := at, buf.slots[at];
      var freed := Forget(n, kn, d, k, at, buf.slots, refs);
      o := if freed == DestroyPanics then PanicsAtEnd(n) else Ok(n);
    }

    /** inode_alloc and inode_lock of an inode beside its locked directory; -1 is the panic of the first. */
    method BothLocked(d: int, k: int, n: int, ghost refs: map<int, nat>) returns (kn: int)
      requires TreeOk(nodes) && Agree(nodes, refs, cache.disk) && n in nodes && n != d && d in nodes
      requires CacheIs(cache, {} + {d}, Took(refs, d), refs.Keys + {d}) && At(cache.slots, k, d)
               && cache.slots[k].locked
      modifies cache`slots
      ensures kn == -1 <==> n !in refs && |Took(refs, d)| == 32
      ensures kn != -1 ==>
        && CacheIs(cache, {d} + {n}, Took(Took(refs, d), n), Took(refs, d).Keys + {n})
        && At(cache.slots, kn, n) && At(cache.slots, k, d)
    {
      hide TreeOk, CacheIs, Took, LockedStay, Agree;
      DirInRange(nodes, n);
      TookTwo(refs, n, d);
      TookKeys(refs, d);
      assert {} + {d} == {d};
      ghost var locked := cache.slots;
      kn := TakeRef(n, {d}, Took(refs, d), Took(refs, d).Keys);
      if kn == -1 {
        return;
      }
      LinksOf(nodes, refs, cache.disk, n);
      StillAt(cache, locked, k, d, {d}, Took(Took(refs, d), n), Took(refs, d).Keys);
      locked := cache.slots;
      Hold(kn, n, {d}, Took(Took(refs, d), n), Took(refs, d).Keys);
      StillAt(cache, locked, k, d, {d} + {n}, Took(Took(refs, d), n), Took(refs, d).Keys + {n});
    }

    /** The lock that file_open takes on what it found, and gives back: the inode is loaded then. */
    method Load(n: int, k: int, ghost refs: map<int, nat>) returns (isDir: bool)
      requires TreeOk(nodes) && Agree(nodes, refs, cache.disk) && n in nodes
      requires CacheIs(cache, {}, Took(refs, n), refs.Keys) && At(cache.slots, k, n)
      modifies cache`slots
      ensures Ready({}, Took(refs, n)) && (isDir <==> DirIn(nodes, n))
    {
      hide TreeOk, Agree, Refs, Held, Loaded, CacheOk, Took;
      LinksOf(nodes, refs, cache.disk, n);
      AgreeTook(nodes, refs, cache.disk, n);
      TookKeys(refs, n);
      cache.Lock(k);
      isDir := nodes[n].kind == IsDir;
      cache.Unlock(k);
    }

    /**
     * inode_free of an open file's inode, whose slot is found by its number
     * here: the panic comes exactly with the last reference to an inode that
     * has no name any more.
     */
    method Put(n: int, ghost refs: map<int, nat>) returns (r: FreeResult)
      requires Ready({}, refs) && n in refs && (n == 0 ==> refs[0] > 1)
      modifies cache`slots
      ensures r == DestroyPanics <==> refs[n] == 1 && n !in nodes
      ensures Ready({}, Gave(refs, n))
    {
      hide TreeOk, Agree, Refs, Held, Loaded, CacheOk;
      PutAgrees(nodes, refs, cache.disk, n);
      var k := cache.Find(n);
      SlotFound(cache.slots, cache.disk, cache.dirty, n, k);
      IsHeld(cache.slots, cache.disk, cache.dirty, k, n);
      IsLoaded(cache.slots, cache.disk, cache.dirty, k, n);
      LoadedFreesCleanly(cache.slots, cache.disk, cache.dirty, k);
      r := cache.Free(k);
    }

    /** The block of a new directory: zeroed, then "." and ".." are added. */
    method DotBlock(inum: int, parent: int) returns (slots: seq<Dir.Slot>, size: nat)
      requires 0 <= inum < 0xFFFF && 0 <= parent < 0xFFFF
      ensures SlotsOk(slots) && Entries(slots) == map["." := inum, ".." := parent] && size == 64
    {
      var field := seq(30, _ => '\0');
      var zeroed := seq(32, _ => Dir.Slot(0, field));
      ZeroBlock(zeroed, field);
      var buf := new Directory(zeroed, 0);
      var first := buf.Add(inum, ".");
      assert first == 0 by { assert !Used(zeroed[0]); }
      assert buf.slots[1] == zeroed[1] && Used(buf.slots[0]);
      var second := buf.Add(parent, "..");
      slots, size := buf.slots, buf.size;
    }

    /** The end of path_create_inode: the inodes are written and given back, and the tree has the new one. */
    method Complete(d: int, k: int, i: nat, slots: seq<Dir.Slot>, size: nat, kind: Kind, inum: int, k2: int,
                    own: seq<Dir.Slot>, ownSize: nat, ghost refs: map<int, nat>)
      requires size == 32 * i + 32 && ownSize == if kind == IsDir then 64 else 0
      requires TreeOk(nodes) && DirIn(nodes, d) && Dir.SlotsOk(nodes[d].slots) && i < 32 && !Used(nodes[d].slots[i])
      requires Dir.SlotsOk(slots) && slots == nodes[d].slots[i := slots[i]] && Used(slots[i]) && slots[i].inum == inum
      requires !Dots(Text(slots[i].name)) && 0 < inum < 0xFFFF && inum !in nodes
      requires kind == IsDir ==> Dir.SlotsOk(own) && Entries(own) == map["." := inum, ".." := d]
      requires CacheIs(cache, {d} + {inum}, Took(Took(refs, d), inum), Took(refs, d).Keys + {inum})
               && At(cache.slots, k, d)
               && At(cache.slots, k2, inum)
      requires Agree(nodes, refs, cache.disk) && nodes[d].nlink >= 1 && d != inum && inum !in refs && inum in cache.disk
      modifies `nodes, cache`slots, cache`disk, cache`dirty
      ensures Ready({}, Took(refs, inum)) && Creates(old(nodes), nodes, d, i, slots[i], kind)
    {
      hide TreeOk, Entries, Refs, Held, Loaded, CacheOk, Took, Creates, Agree, Used, Text;
      ghost var t, disk0 := nodes, cache.disk;
      LinksOf(nodes, refs, cache.disk, d);
      CloseNew(d, k, inum, k2, kind == IsDir, nodes[d].nlink, refs);
      Enter(d, i, slots, size, kind, inum, own, ownSize);
      CreateAgrees(t, nodes, d, i, slots[i], kind, refs, disk0, cache.disk);
    }

    /** The stores at the end of path_create_inode. */
    method Enter(d: int, k: nat, slots: seq<Dir.Slot>, size: nat, kind: Kind, inum: int, own: seq<Dir.Slot>,
        ownSize: nat)
      requires size == 32 * k + 32 && ownSize == if kind == IsDir then 64 else 0
      requires TreeOk(nodes) && DirIn(nodes, d) && SlotsOk(nodes[d].slots) && k < 32 && !Used(nodes[d].slots[k])
      requires SlotsOk(slots) && slots == nodes[d].slots[k := slots[k]] && Used(slots[k]) && slots[k].inum == inum
      requires !Dots(Text(slots[k].name)) && 0 < inum < 0xFFFF && inum !in nodes
      requires kind == IsDir ==> SlotsOk(own) && Entries(own) == map["." := inum, ".." := d]
      modifies `nodes
      ensures TreeOk(nodes) && Creates(old(nodes), nodes, d, k, slots[k], kind)
    {
      hide TreeOk, Entries;
      ghost var t := nodes;
      var dir := nodes[d].(slots := slots, size := size);
      if kind == IsDir {
        dir := dir.(nlink := dir.nlink + 1);
      }
      nodes := nodes[d := dir][inum := Node(kind, 1, ownSize, own)];
      CreateKeeps(t, nodes, d, k, slots[k], kind);
    }

    /** The stores of path_unlink; an inode without names leaves the tree. */
    method Drop(d: int, ghost k: nat, slots: seq<Dir.Slot>, n: int)
      requires TreeOk(nodes) && DirIn(nodes, d) && SlotsOk(nodes[d].slots) && SlotsOk(slots) && k < 32
      requires slots == nodes[d].slots[k := slots[k]] && Used(nodes[d].slots[k]) && nodes[d].slots[k].inum == n
               && !Used(slots[k])
      requires !Dots(Text(nodes[d].slots[k].name)) && n in nodes && n != d && nodes[n].nlink >= 1
      requires DirIn(nodes, n) ==> |Live(nodes[n].slots)| == 2
      requires DirIn(nodes, n) ==> nodes[d].nlink >= 1
      modifies `nodes
      ensures TreeOk(nodes) && LinkCount.Unlinks(old(nodes), nodes, d, k, slots[k], n)
    {
      hide TreeOk, Live, LinkCount.Unlinks, Text, Used;
      ghost var t := nodes;
      DropUnlinks(t, d, k, slots, n);
      if nodes[n].kind == IsDir {
        nodes := nodes[d := nodes[d].(nlink := nodes[d].nlink - 1)];
      }
      nodes := nodes[d := nodes[d].(slots := slots)];
      nodes := nodes[n := nodes[n].(nlink := nodes[n].nlink - 1)];
      if nodes[n].nlink == 0 {
        nodes := nodes - {n};
      }
      UnlinkKeeps(t, nodes, d, k, slots[k], n);
    }

    /** The stores at the end of path_link. */
    method Name(d: int, k: nat, slots: seq<Dir.Slot>, size: nat, f: int)
      requires size == 32 * k + 32
      requires TreeOk(nodes) && DirIn(nodes, d) && SlotsOk(nodes[d].slots) && k < 32 && !Used(nodes[d].slots[k])
      requires SlotsOk(slots) && slots == nodes[d].slots[k := slots[k]] && Used(slots[k]) && slots[k].inum == f
      requires !Dots(Text(slots[k].name)) && f in nodes && nodes[f].kind != IsDir && f != 0
      modifies `nodes
      ensures TreeOk(nodes) && LinkCount.Links(old(nodes), nodes, d, k, slots[k])
    {
      hide TreeOk;
      ghost var t := nodes;
      nodes := nodes[d := nodes[d].(slots := slots, size := size)];
      nodes := nodes[f := nodes[f].(nlink := nodes[f].nlink + 1)];
      LinkKeeps(t, nodes, d, k, slots[k]);
    }

  }

  /** The rest of the walk is the end of the path, and `name` the component before it. */
  ghost predicate LastSeen(comps: seq<seq<char>>, rest: seq<seq<char>>, name: seq<char>) {
    && |rest| <= |comps| && rest == comps[|comps| - |rest|..]
    && (|rest| < |comps| ==> name == comps[|comps| - |rest| - 1])
  }

  lemma NothingLeft()
    ensures Components([]) == [] && NoNul([])
  {
  }

  lemma FirstNoNul(path: seq<char>)
    requires NoNul(path) && Components(path) != []
    ensures NoNul(Components(path)[0]) && Components(path)[0] != [] && |Components(path)[0]| < 30
  {
    ComponentsOk(path, []);
    assert Components(path)[0] in Components(path);
  }

  lemma LastNoNul(path: seq<char>)
    requires NoNul(path) && Components(path) != []
    ensures var c := Components(path)[|Components(path)| - 1]; NoNul(c) && c != [] && |c| < 30
  {
    ComponentsOk(path, []);
    assert Components(path)[|Components(path)| - 1] in Components(path);
  }

  lemma ZeroBlock(slots: seq<Dir.Slot>, field: seq<char>)
    requires |field| == 30 && (forall i :: 0 <= i < 30 ==> field[i] == '\0') && |slots| == 32
    requires forall k :: 0 <= k < 32 ==> slots[k] == Dir.Slot(0, field)
    ensures SlotsOk(slots) && Entries(slots) == map[] && forall k :: 0 <= k < 32 ==> !Used(slots[k])
  {
    NothingUsed(slots);
  }

  lemma {:induction false} NothingUsed(slots: seq<Dir.Slot>)
    requires forall k :: 0 <= k < |slots| ==> !Used(slots[k])
    ensures Entries(slots) == map[]
  {
    if slots != [] { NothingUsed(slots[..|slots| - 1]); }
  }

  lemma NotDots(t: Tree, d: int, name: seq<char>)
    requires TreeOk(t) && DirIn(t, d) && name !in Entries(t[d].slots)
    ensures !Dots(name)
  {
    assert DirOk(t, d);
  }

  lemma DirInRange(t: Tree, d: int)
    requires TreeOk(t) && d in t
    ensures 0 <= d < 0xFFFF
  {
  }

  lemma FileInRange(t: Tree, f: int)
    requires TreeOk(t) && f in t && t[f].kind != IsDir
    ensures 0 < f < 0xFFFF
  {
  }

  lemma LockedStayRefl(s: seq<InodeCache.Slot>)
    ensures LockedStay(s, s)
  {
  }

  lemma LockedStayTrans(s: seq<InodeCache.Slot>, u: seq<InodeCache.Slot>, w: seq<InodeCache.Slot>)
    requires LockedStay(s, u) && LockedStay(u, w)
    ensures LockedStay(s, w)
  {
    assert forall j :: 0 <= j < |s| && s[j].locked ==> u[j].locked;
  }

  lemma LinksOf(t: Tree, refs: map<int, nat>, disk: map<int, Meta>, n: int)
    requires Agree(t, refs, disk) && n in t
    ensures n in disk && disk[n].nlink == t[n].nlink
    ensures Gave(Took(refs, n), n) == refs && n in Took(refs, n) && Took(refs, n)[n] >= 1
  {
    TookGave(refs, n);
  }

  lemma LockedStayAt(s: seq<InodeCache.Slot>, u: seq<InodeCache.Slot>, w: seq<InodeCache.Slot>, k: int)
    requires LockedStay(s, u) && IsSlot(k) && |u| == 32 && |w| == 32 && w == u[k := w[k]] && w[k].locked
             && w[k].num == u[k].num
    ensures LockedStay(s, w)
  {
    assert forall j :: 0 <= j < |s| && s[j].locked ==> u[j].locked;
  }

  lemma TookTwo(refs: map<int, nat>, d: int, n: int)
    requires d != n
    ensures Took(Took(refs, d), n) == Took(Took(refs, n), d)
    ensures d in Took(refs, n) <==> d in refs
    ensures d in refs ==> Took(refs, n)[d] == refs[d]
  {
  }

  /** A locked slot stays a reference to its inode. */
  lemma StillAt(c: Cache, was: seq<InodeCache.Slot>, k: int, n: int, held: set<int>, refs: map<int, nat>,
      base: set<int>)
    requires LockedStay(was, c.slots) && CacheIs(c, held, refs, base) && At(was, k, n) && was[k].locked
    ensures At(c.slots, k, n) && c.slots[k].locked
  {
  }

  lemma TookKeys(refs: map<int, nat>, n: int)
    ensures Took(refs, n).Keys == refs.Keys + {n}
  {
  }

  lemma RefsPositive(t: Tree, refs: map<int, nat>, disk: map<int, Meta>)
    requires Agree(t, refs, disk)
    ensures forall n :: n in refs ==> refs[n] > 0
  {
  }

  lemma DirLinked(t: Tree, d: int)
    requires TreeOk(t) && DirIn(t, d)
    ensures t[d].nlink >= 1
  {
    CountAt(t, d);
  }

  lemma AgreeElsewhere(t: Tree, refs: map<int, nat>, disk: map<int, Meta>, n: int, m: Meta)
    requires Agree(t, refs, disk) && n !in t && n !in refs
    ensures Agree(t, refs, disk[n := m])
  {
  }

  lemma CreateAgrees(t: Tree, u: Tree, d: int, k: nat, x: Dir.Slot, kind: Kind, refs: map<int, nat>,
      disk0: map<int, Meta>, disk1: map<int, Meta>)
    requires Agree(t, refs, disk0) && Creates(t, u, d, k, x, kind) && x.inum !in refs && x.inum !in t && x.inum in disk0
    requires d in t && LinksSet(disk0, disk1, if kind == IsDir then map[x.inum := 1, d := t[d].nlink + 1]
             else map[x.inum := 1])
    ensures Agree(u, Took(refs, x.inum), disk1)
  {
  }

  lemma RootRef(t: Tree, refs: map<int, nat>, disk: map<int, Meta>)
    requires Agree(t, refs, disk)
    ensures 0 in refs
  {
  }

  /** The directory, the name and the inode of a path are determined by it. */
  lemma ChildIs(t: Tree, comps: seq<seq<char>>, d: int, name: seq<char>)
    requires Target(t, comps, d, name)
    ensures forall e, n :: NamesChild(t, comps, e, n) <==>
              e == d && !Dots(name) && name in Entries(t[d].slots) && n == Lookup(t[d].slots, name)
  {
  }

  lemma NoChild(t: Tree, comps: seq<seq<char>>)
    requires !Look(t, 0, comps, true).Inode?
    ensures forall e, n :: !NamesChild(t, comps, e, n)
  {
    ParentIsTarget(t, comps);
  }

  lemma TookOnce(refs: map<int, nat>, n: int)
    requires n in refs ==> refs[n] > 0
    ensures Took(refs, n)[n] == 1 <==> n !in refs
  {
  }

  lemma AgreeTook(t: Tree, refs: map<int, nat>, disk: map<int, Meta>, n: int)
    requires Agree(t, refs, disk) && n in t
    ensures Agree(t, Took(refs, n), disk)
  {
  }

  lemma LinkAgrees(t: Tree, u: Tree, d: int, k: nat, x: Dir.Slot, refs: map<int, nat>, disk0: map<int, Meta>,
      disk1: map<int, Meta>)
    requires Agree(t, refs, disk0) && LinkCount.Links(t, u, d, k, x) && x.inum in t
    requires LinksSet(disk0, disk1, map[x.inum := t[x.inum].nlink + 1])
    ensures Agree(u, refs, disk1)
  {
  }

  lemma UnlinkAgrees(t: Tree, u: Tree, d: int, k: nat, x: Dir.Slot, n: int, refs: map<int, nat>,
                     disk0: map<int, Meta>, disk1: map<int, Meta>)
    requires Agree(t, refs, disk0) && LinkCount.Unlinks(t, u, d, k, x, n) && n in t && d in t && n != d && 0 in u
    requires t[n].nlink >= 1 && t[d].nlink >= 1
    requires LinksSet(disk0, disk1, if DirIn(t, n) then map[n := t[n].nlink - 1, d := t[d].nlink - 1]
             else map[n := t[n].nlink - 1])
    ensures Agree(u, refs, disk1)
  {
  }

  /** Some link counts changed on disk. */
  ghost predicate LinksSet(disk0: map<int, Meta>, disk1: map<int, Meta>, links: map<int, nat>) {
    forall n :: n in disk0 ==> n in disk1 && disk1[n].nlink == if n in links then links[n] else disk0[n].nlink
  }

  lemma ParentStays(t: Tree, comps: seq<seq<char>>)
    requires TreeOk(t)
    ensures Look(t, 0, comps, true).Inode? ==> DirIn(t, Look(t, 0, comps, true).i) && comps != []
  {
    LookStays(t, 0, comps, true);
  }

  lemma LastStep(comps: seq<seq<char>>, rest: seq<seq<char>>, name0: seq<char>, name: seq<char>)
    requires LastSeen(comps, rest, name0) && rest != [] && name == rest[0]
    ensures LastSeen(comps, rest[1..], name)
  {
  }

  lemma EmptyCache(slots: seq<InodeCache.Slot>, disk: map<int, Meta>, dirty: set<int>)
    requires CacheOk(slots, disk, dirty) && forall i {:trigger slots[i]} :: 0 <= i < 32 ==> slots[i].refs == 0
    ensures Refs(slots) == map[] && Held(slots) == {}
  {
    IsDistinct(slots, disk, dirty);
    hide Refs;
    forall n ensures n !in Refs(slots) {
      if n in Refs(slots) {
        var j := SlotOf(slots, n);
        assert false;
      }
    }
    assert Held(slots) == {};
    assert Refs(slots) == map[];
  }

  /** The tree after the stores of path_unlink. */
  function UnlinkedTree(t: Tree, d: int, slots: seq<Dir.Slot>, n: int): Tree
    requires d in t && n in t && n != d && t[n].nlink >= 1 && (DirIn(t, n) ==> t[d].nlink >= 1)
  {
    var t1 := if t[n].kind == IsDir then t[d := t[d].(nlink := t[d].nlink - 1)] else t;
    var t2 := t1[d := t1[d].(slots := slots)];
    var t3 := t2[n := t2[n].(nlink := t2[n].nlink - 1)];
    if t3[n].nlink == 0 then t3 - {n} else t3
  }

  lemma DropUnlinks(t: Tree, d: int, k: nat, slots: seq<Dir.Slot>, n: int)
    requires DirIn(t, d) && Dir.SlotsOk(t[d].slots) && Dir.SlotsOk(slots) && k < 32
    requires slots == t[d].slots[k := slots[k]] && Used(t[d].slots[k]) && t[d].slots[k].inum == n && !Used(slots[k])
    requires !Dots(Text(t[d].slots[k].name)) && n in t && n != d && t[n].nlink >= 1
    requires DirIn(t, n) ==> |Live(t[n].slots)| == 2 && t[d].nlink >= 1
    ensures LinkCount.Unlinks(t, UnlinkedTree(t, d, slots, n), d, k, slots[k], n)
  {
    hide Live, Text, Used;
  }

  lemma SlotFound(slots: seq<InodeCache.Slot>, disk: map<int, Meta>, dirty: set<int>, n: int, i: nat)
    requires CacheOk(slots, disk, dirty) && n in Refs(slots) && i <= 32 && (i < 32 ==> slots[i].num == n)
    requires i == 32 ==> forall j :: 0 <= j < 32 ==> !Holds(slots[j], n)
    ensures At(slots, i, n)
  {
    IsDistinct(slots, disk, dirty);
    var j := SlotOf(slots, n);
    assert Holds(slots[j], n);
  }

  lemma PutAgrees(t: Tree, refs: map<int, nat>, disk: map<int, Meta>, n: int)
    requires TreeOk(t) && Agree(t, refs, disk) && n in refs && (n == 0 ==> refs[0] > 1)
    ensures n in disk && (disk[n].nlink == 0 <==> n !in t)
    ensures Agree(t, Gave(refs, n), disk)
    ensures n in refs && Gave(refs, n).Keys == refs.Keys - (if refs[n] == 1 then {n} else {})
  {
    hide TreeOk;
    if n in t { InTreeIsLinked(t, n); }
  }

  lemma InTreeIsLinked(t: Tree, n: int)
    requires TreeOk(t) && n in t
    ensures t[n].nlink > 0
  {
    hide DirsOk, AllNamed, AllCounted;
    if DirIn(t, n) { CountAt(t, n); } else { FileNames(t, n); }
  }

  /** fs_init takes the root's slot and reads it. */
  method FirstReference(c: Cache)
    requires c.Valid() && c.dirty == {} && 0 in c.disk && forall i {:trigger c.slots[i]} :: 0 <= i < 32 ==>
             c.slots[i].refs == 0
    modifies c`slots
    ensures CacheIs(c, {}, map[0 := 1], {0})
  {
    EmptyCache(c.slots, c.disk, c.dirty);
    hide Refs, Held, Loaded, CacheOk;
    var k := c.Alloc(0);
    c.Lock(k);
    c.Unlock(k);
    assert Refs(c.slots) == map[0 := 1];
  }

  lemma RootIn(t: Tree)
    requires TreeOk(t)
    ensures DirIn(t, 0) && t[0].nlink >= 1
  {
    CountAt(t, 0);
  }

  lemma DirIsOk(t: Tree, d: int)
    requires TreeOk(t) && DirIn(t, d)
    ensures Dir.SlotsOk(t[d].slots)
  {
    DirAt(t, d);
  }

  /** What an entry leads to is in the tree and has a link. */
  lemma FoundIsLinked(t: Tree, d: int, name: seq<char>)
    requires TreeOk(t) && DirIn(t, d) && Lookup(t[d].slots, name) != 0xFFFF
    ensures Lookup(t[d].slots, name) in t && 0 <= Lookup(t[d].slots, name) < 0xFFFF
            && t[Lookup(t[d].slots, name)].nlink >= 1
  {
    hide DirsOk, AllNamed, AllCounted, Entries, Dir.SlotsOk;
    LookupFound(t, d, name);
    var n := Lookup(t[d].slots, name);
    if DirIn(t, n) {
      CountAt(t, n);
    } else {
      DirAt(t, d);
      assert !Dots(name);
      NamedChild(t, d, name, n);
    }
  }

  // ---------- the operations on paths ----------

  /** The path without its last component leads to directory `d`, and the last component is `name`. */
  ghost predicate Target(t: Tree, comps: seq<seq<char>>, d: int, name: seq<char>) {
    && comps != [] && name == comps[|comps| - 1]
    && Look(t, 0, comps[..|comps| - 1], false) == Inode(d) && DirIn(t, d)
  }

  /** That is what the search for a parent finds. */
  lemma ParentIsTarget(t: Tree, comps: seq<seq<char>>)
    ensures forall d, name :: Target(t, comps, d, name) <==>
              comps != [] && Look(t, 0, comps, true) == Inode(d) && name == comps[|comps| - 1]
    ensures Look(t, 0, comps, true).Inode? ==> comps != [] && DirIn(t, Look(t, 0, comps, true).i)
  {
    PathIs(t, 0, comps);
  }

  predicate IsFull(slots: seq<Dir.Slot>) {
    forall k :: 0 <= k < |slots| ==> Used(slots[k])
  }

  /** The name stands for an ordinary entry. */
  predicate IsEntry(t: Tree, d: int, name: seq<char>)
    requires d in t
  {
    !Dots(name) && name in Entries(t[d].slots)
  }

  /** And if that is a directory, for one with "." and ".." only. */
  predicate Removable(t: Tree, d: int, name: seq<char>)
    requires d in t
  {
    IsEntry(t, d, name)
    && (DirIn(t, Lookup(t[d].slots, name)) ==> |Live(t[Lookup(t[d].slots, name)].slots)| == 2)
  }

  lemma NoTarget(t: Tree, comps: seq<seq<char>>)
    requires !Look(t, 0, comps, true).Inode?
    ensures forall d, name :: !Target(t, comps, d, name)
  {
    ParentIsTarget(t, comps);
  }

  lemma TargetIs(t: Tree, comps: seq<seq<char>>, d: int, name: seq<char>)
    requires Target(t, comps, d, name)
    ensures DirIn(t, d) && forall e, s :: Target(t, comps, e, s) <==> e == d && s == name
  {
  }

  /** The conditions of path_create_inode, for the parent directory and the name that the path leads to. */
  lemma CreateHere(t: Tree, comps: seq<seq<char>>, d: int, name: seq<char>, kind: Kind, inode: int, block: bool,
                   refs: map<int, nat>)
    requires Target(t, comps, d, name)
    ensures DirIn(t, d) && (MayCreate(t, comps, inode) <==> inode != 0 && name !in Entries(t[d].slots))
    ensures NoPlace(t, comps, kind, block, refs) <==>
      (kind == IsDir && !block) || |Took(refs, d)| == 32 || IsFull(t[d].slots)
  {
    TargetIs(t, comps, d, name);
    hide Target, Took, IsFull, Entries;
  }

  lemma CreatedHere(t: Tree, u: Tree, comps: seq<seq<char>>, d: int, name: seq<char>, kind: Kind, k: nat, x: Dir.Slot)
    requires Target(t, comps, d, name) && Creates(t, u, d, k, x, kind) && Text(x.name) == name
    ensures CreatedAt(t, u, comps, kind, x.inum)
  {
    hide Target, Creates, Text;
  }

  lemma LinkHere(t: Tree, comps: seq<seq<char>>, d: int, name: seq<char>)
    requires Target(t, comps, d, name)
    ensures DirIn(t, d)
    ensures (exists e, s :: Target(t, comps, e, s) && s !in Entries(t[e].slots) && !IsFull(t[e].slots))
            <==> name !in Entries(t[d].slots) && !IsFull(t[d].slots)
  {
    TargetIs(t, comps, d, name);
    hide Target, IsFull, Entries;
  }

  lemma LinkedHere(t: Tree, u: Tree, old1: seq<seq<char>>, new1: seq<seq<char>>, f: int, d: int, name: seq<char>,
      k: nat,
                   x: Dir.Slot)
    requires Look(t, 0, old1, false) == Inode(f) && Target(t, new1, d, name)
    requires LinkCount.Links(t, u, d, k, x) && x.inum == f && Text(x.name) == name
    ensures LinkedAt(t, u, old1, new1, f)
  {
    hide Look, Target, LinkCount.Links, Text;
  }

  /** The conditions of path_unlink, for the parent directory and the name that the path leads to. */
  lemma UnlinkHere(t: Tree, comps: seq<seq<char>>, d: int, name: seq<char>, refs: map<int, nat>)
    requires Target(t, comps, d, name) && TreeOk(t)
    ensures DirIn(t, d)
    ensures var n := Lookup(t[d].slots, name);
      && (UnlinkPanics(t, comps, refs) <==>
            Stuck(t, 0, comps, true, {}, refs) || (IsEntry(t, d, name) && |Took(refs, d)| == 32 && n !in refs))
      && (forall m :: MayUnlink(t, comps, m) <==> Removable(t, d, name) && m == n)
      && (LastName(t, comps, refs) <==> Removable(t, d, name) && n in t && t[n].nlink == 1 && n !in refs)
  {
    hide NamesChild, Target, Took, Stuck, TreeOk, Live, Lookup, Entries;
    ChildIs(t, comps, d, name);
    TargetIs(t, comps, d, name);
    var n := Lookup(t[d].slots, name);
    assert NamesChild(t, comps, d, n) <==> IsEntry(t, d, name);
    forall m ensures MayUnlink(t, comps, m) <==> Removable(t, d, name) && m == n {
      if MayUnlink(t, comps, m) {
        var e :| NamesChild(t, comps, e, m);
      }
    }
    hide MayUnlink;
  }

  lemma UnlinkedHere(t: Tree, u: Tree, comps: seq<seq<char>>, d: int, name: seq<char>, k: nat, x: Dir.Slot, n: int)
    requires Target(t, comps, d, name) && LinkCount.Unlinks(t, u, d, k, x, n) && k < |t[d].slots|
             && Names(t[d].slots[k], name)
    ensures UnlinkedAt(t, u, comps, n)
  {
    hide Target, LinkCount.Unlinks, Names;
  }

  /** What creating needs of the path: a parent directory that does not have the name. */
  ghost predicate MayCreate(t: Tree, comps: seq<seq<char>>, inode: int) {
    inode != 0 && exists d, name :: Target(t, comps, d, name) && name !in Entries(t[d].slots)
  }

  /** No slot for the new inode beside its directory, a full directory, or no block for a new directory's entries. */
  ghost predicate NoPlace(t: Tree, comps: seq<seq<char>>, kind: Kind, block: bool, refs: map<int, nat>) {
    || (kind == IsDir && !block)
    || exists d, name :: Target(t, comps, d, name)
         && (|Took(refs, d)| == 32 || IsFull(t[d].slots))
  }

  ghost predicate CreatePanics(t: Tree, comps: seq<seq<char>>, kind: Kind, inode: int, block: bool,
      refs: map<int, nat>) {
    Stuck(t, 0, comps, true, {}, refs) || (MayCreate(t, comps, inode) && NoPlace(t, comps, kind, block, refs))
  }

  ghost predicate CreatedAt(t: Tree, u: Tree, comps: seq<seq<char>>, kind: Kind, inum: int) {
    exists d, name, k: nat, x :: Target(t, comps, d, name) && Creates(t, u, d, k, x, kind) && x.inum == inum
        && Text(x.name) == name
  }

  /** The old path names a file, and the walk to the new name passes it or finds no slot while the file keeps one. */
  ghost predicate LinkPanics(t: Tree, old1: seq<seq<char>>, new1: seq<seq<char>>, refs: map<int, nat>) {
    || Stuck(t, 0, old1, false, {}, refs)
    || (Look(t, 0, old1, false).Inode? && !DirIn(t, Look(t, 0, old1, false).i)
        && Stuck(t, 0, new1, true, {Look(t, 0, old1, false).i}, Took(refs, Look(t, 0, old1, false).i)))
  }

  /** The old path names a file, and the new one a free name in a directory with a free entry. */
  ghost predicate MayLink(t: Tree, old1: seq<seq<char>>, new1: seq<seq<char>>) {
    && Look(t, 0, old1, false).Inode? && !DirIn(t, Look(t, 0, old1, false).i)
    && exists d, name :: Target(t, new1, d, name) && name !in Entries(t[d].slots)
                         && !IsFull(t[d].slots)
  }

  ghost predicate LinkedAt(t: Tree, u: Tree, old1: seq<seq<char>>, new1: seq<seq<char>>, f: int) {
    && Look(t, 0, old1, false) == Inode(f)
    && exists d, name, k: nat, x :: Target(t, new1, d, name) && LinkCount.Links(t, u, d, k, x) && x.inum == f
        && Text(x.name) == name
  }

  /** The path's last component is an ordinary entry `n`. */
  ghost predicate NamesChild(t: Tree, comps: seq<seq<char>>, d: int, n: int) {
    exists name :: Target(t, comps, d, name) && !Dots(name) && name in Entries(t[d].slots)
        && n == Lookup(t[d].slots, name)
  }

  /** No slot for an inode on the path, or for the entry's inode beside its directory. */
  ghost predicate UnlinkPanics(t: Tree, comps: seq<seq<char>>, refs: map<int, nat>) {
    || Stuck(t, 0, comps, true, {}, refs)
    || exists d, n :: NamesChild(t, comps, d, n) && |Took(refs, d)| == 32 && n !in refs
  }

  /** The last component is an ordinary entry, and if a directory one with "." and ".." only. */
  ghost predicate MayUnlink(t: Tree, comps: seq<seq<char>>, n: int) {
    exists d :: NamesChild(t, comps, d, n) && (DirIn(t, n) ==> |Live(t[n].slots)| == 2)
  }

  /** The entry is the last name of an inode that nobody references. */
  ghost predicate LastName(t: Tree, comps: seq<seq<char>>, refs: map<int, nat>) {
    exists n :: MayUnlink(t, comps, n) && n in t && t[n].nlink == 1 && n !in refs
  }

  /** A path names a place for something new: it leads to a directory, and the last component has no entry there. */
  lemma MayCreateIs(t: Tree, comps: seq<seq<char>>, inode: int)
    requires TreeOk(t)
    ensures MayCreate(t, comps, inode) <==>
      && inode != 0 && comps != []
      && exists d :: Look(t, 0, comps[..|comps| - 1], false) == Inode(d) && DirIn(t, d)
                     && Lookup(t[d].slots, comps[|comps| - 1]) == 0xFFFF
  {
    hide DirsOk, AllNamed, AllCounted, Look, Entries;
    forall d, name | DirIn(t, d) ensures Lookup(t[d].slots, name) == 0xFFFF <==> name !in Entries(t[d].slots) {
      LookupIn(t, d, name);
    }
    if MayCreate(t, comps, inode) {
      var d, name :| Target(t, comps, d, name) && name !in Entries(t[d].slots);
      assert Lookup(t[d].slots, name) == 0xFFFF;
    }
    if comps != [] && inode != 0 {
      if d :| Look(t, 0, comps[..|comps| - 1], false) == Inode(d) && DirIn(t, d)
              && Lookup(t[d].slots, comps[|comps| - 1]) == 0xFFFF {
        assert Target(t, comps, d, comps[|comps| - 1]);
      }
    }
  }

  /** A directory is down to two entries when it has no other names than "." and "..". */
  lemma EmptyMeans(t: Tree, n: int)
    requires TreeOk(t) && DirIn(t, n)
    ensures |t[n].slots| == 32
    ensures |Live(t[n].slots)| == 2 <==>
      forall k :: 0 <= k < 32 && Used(t[n].slots[k]) ==>
          Text(t[n].slots[k].name) == "." || Text(t[n].slots[k].name) == ".."
  {
    hide DirsOk, AllNamed, AllCounted, Live, Entries, Text, Used;
    DirAt(t, n);
    var slots := t[n].slots;
    if |Live(slots)| == 2 {
      forall k | 0 <= k < 32 && Used(slots[k]) ensures Dots(Text(slots[k].name)) {
        TwoOnly(slots, k);
      }
    }
    if forall k :: 0 <= k < 32 && Used(slots[k]) ==> Dots(Text(slots[k].name)) {
      forall name | name in Entries(slots) ensures name in {".", ".."} {
        EntriesHas(slots, name);
        var k :| 0 <= k < |slots| && Names(slots[k], name);
      }
      LiveCount(slots);
      assert Entries(slots).Keys == {".", ".."};
      assert |Entries(slots).Keys| == |Entries(slots)|;
    }
  }

  /** What can be unlinked: an ordinary name, of anything but a directory with further names in it. */
  lemma MayUnlinkIs(t: Tree, comps: seq<seq<char>>, n: int)
    requires TreeOk(t)
    ensures MayUnlink(t, comps, n) <==>
      && comps != [] && comps[|comps| - 1] != "." && comps[|comps| - 1] != ".."
      && Look(t, 0, comps, false) == Inode(n)
      && (DirIn(t, n) ==> |t[n].slots| == 32 && forall k :: 0 <= k < 32 && Used(t[n].slots[k]) ==>
            Text(t[n].slots[k].name) == "." || Text(t[n].slots[k].name) == "..")
  {
    hide DirsOk, AllNamed, AllCounted, Look, Live, Entries, Text, Used;
    if DirIn(t, n) { EmptyMeans(t, n); }
    PathIs(t, 0, comps);
    forall d, name | DirIn(t, d) ensures name in Entries(t[d].slots) <==> Lookup(t[d].slots, name) != 0xFFFF {
      LookupIn(t, d, name);
    }
    hide Lookup;
    if comps != [] {
      var name := comps[|comps| - 1];
      forall d ensures Target(t, comps, d, name) <==>
        Look(t, 0, comps[..|comps| - 1], false) == Inode(d) && DirIn(t, d)
      {
      }
      forall d ensures NamesChild(t, comps, d, n) <==>
        Target(t, comps, d, name) && !Dots(name) && Lookup(t[d].slots, name) == n != 0xFFFF
      {
        if Target(t, comps, d, name) { ChildIs(t, comps, d, name); }
      }
    }
  }

  /** What can be linked: a file, under a name that is new in a directory with a free entry. */
  lemma MayLinkIs(t: Tree, old1: seq<seq<char>>, new1: seq<seq<char>>)
    requires TreeOk(t)
    ensures MayLink(t, old1, new1) <==>
      && (exists f :: Look(t, 0, old1, false) == Inode(f) && !DirIn(t, f))
      && new1 != []
      && exists d :: Look(t, 0, new1[..|new1| - 1], false) == Inode(d) && DirIn(t, d)
                     && Lookup(t[d].slots, new1[|new1| - 1]) == 0xFFFF
                     && exists k :: 0 <= k < |t[d].slots| && !Used(t[d].slots[k])
  {
    hide DirsOk, AllNamed, AllCounted, Look, Entries, Used;
    forall d, name | DirIn(t, d) ensures Lookup(t[d].slots, name) == 0xFFFF <==> name !in Entries(t[d].slots) {
      LookupIn(t, d, name);
    }
    if MayLink(t, old1, new1) {
      var d, name :| Target(t, new1, d, name) && name !in Entries(t[d].slots) && !IsFull(t[d].slots);
      assert Lookup(t[d].slots, name) == 0xFFFF;
    }
    if new1 != [] {
      if d :| Look(t, 0, new1[..|new1| - 1], false) == Inode(d) && DirIn(t, d)
              && Lookup(t[d].slots, new1[|new1| - 1]) == 0xFFFF && !IsFull(t[d].slots) {
        assert Target(t, new1, d, new1[|new1| - 1]);
      }
    }
  }

  /** Every directory that can be removed is down to its last name, and so is a removed inode that is not referenced. */
  lemma EmptyDirIsLast(t: Tree, comps: seq<seq<char>>, n: int, refs: map<int, nat>)
    requires TreeOk(t) && MayUnlink(t, comps, n) && DirIn(t, n) && n !in refs
    ensures LastName(t, comps, refs)
  {
    hide Live;
    EmptyDir(t, n);
  }

  ghost predicate UnlinkedAt(t: Tree, u: Tree, comps: seq<seq<char>>, n: int) {
    exists d, name, k: nat, x ::
      Target(t, comps, d, name) && LinkCount.Unlinks(t, u, d, k, x, n) && Names(t[d].slots[k], name)
  }

  // ---------- what that means for all paths ----------

  /** Every path that leads somewhere in `t` leads there in `u`. */
  ghost predicate OldPathsStay(t: Tree, u: Tree) {
    forall q :: Look(t, 0, q, false).Inode? ==> Look(u, 0, q, false) == Look(t, 0, q, false)
  }

  lemma CreatedEffect(t: Tree, u: Tree, comps: seq<seq<char>>, kind: Kind, inum: int)
    requires TreeOk(t) && CreatedAt(t, u, comps, kind, inum)
    ensures Look(u, 0, comps, false) == Inode(inum) && OldPathsStay(t, u)
  {
    hide TreeOk, Creates, Look, Text;
    var d, name, k: nat, x :| Target(t, comps, d, name) && Creates(t, u, d, k, x, kind) && x.inum == inum
      && Text(x.name) == name;
    CreatedPaths(t, u, d, k, x, kind, comps);
    forall q | Look(t, 0, q, false).Inode? ensures Look(u, 0, q, false) == Look(t, 0, q, false) {
      CreatedPaths(t, u, d, k, x, kind, q);
    }
  }

  lemma LinkedEffect(t: Tree, u: Tree, old1: seq<seq<char>>, new1: seq<seq<char>>, f: int)
    requires TreeOk(t) && LinkedAt(t, u, old1, new1, f)
    ensures Look(u, 0, new1, false) == Look(u, 0, old1, false) == Inode(f) && OldPathsStay(t, u)
  {
    hide TreeOk, LinkCount.Links, Look, Text;
    var d, name, k: nat, x :| Target(t, new1, d, name) && LinkCount.Links(t, u, d, k, x) && x.inum == f
      && Text(x.name) == name;
    LinkedPaths(t, u, d, k, x, new1);
    forall q | Look(t, 0, q, false).Inode? ensures Look(u, 0, q, false) == Look(t, 0, q, false) {
      LinkedPaths(t, u, d, k, x, q);
    }
  }

  lemma UnlinkedEffect(t: Tree, u: Tree, comps: seq<seq<char>>, n: int)
    requires TreeOk(t) && UnlinkedAt(t, u, comps, n)
    ensures Look(u, 0, comps, false) == NotFound && OldPathsStay(u, t)
  {
    hide TreeOk, Look, Text;
    var d, name, k: nat, x :|
      Target(t, comps, d, name) && LinkCount.Unlinks(t, u, d, k, x, n) && Names(t[d].slots[k], name);
    hide LinkCount.Unlinks;
    UnlinkedPaths(t, u, d, k, x, n, comps);
    PassesAt(t, comps, d, name, |comps| - 1);
    forall q | Look(u, 0, q, false).Inode? ensures Look(t, 0, q, false) == Look(u, 0, q, false) {
      UnlinkedPaths(t, u, d, k, x, n, q);
    }
  }

  /** An entry other than "." and ".." names another inode, with a link count to take from. */
  lemma NamedChild(t: Tree, d: int, name: seq<char>, n: int)
    requires TreeOk(t) && DirIn(t, d) && name in Entries(t[d].slots) && Lookup(t[d].slots, name) == n && !Dots(name)
    ensures n in t && n != d && t[n].nlink >= 1 && t[d].nlink >= 1
    ensures DirIn(t, n) ==> t[d].nlink >= 2
  {
    hide DirsOk, AllNamed, AllCounted, NamesOf, SubDirs, Entries, Text, SlotsOk, Lookup;
    LookupIn(t, d, name);
    var k := EntryNamed(t, d, name, n);
    NameIn(t, d, k, n);
    RootHasNoName(t);
    CountAt(t, d);
    if DirIn(t, n) {
      OnlyNameIs(t, n);
      CountAt(t, n);
      ParentOfNamed(t, d, k, n);
    } else {
      FileNames(t, n);
      NotEmpty(NamesOf(t, n), (d, k as int));
    }
  }

  lemma EntryNamed(t: Tree, d: int, name: seq<char>, n: int) returns (k: nat)
    requires DirIn(t, d) && SlotsOk(t[d].slots) && name in Entries(t[d].slots) && Lookup(t[d].slots, name) == n
             && !Dots(name)
    ensures k < 32 && IsName(t, d, k, n)
  {
    EntriesHas(t[d].slots, name);
    k :| k < |t[d].slots| && Names(t[d].slots[k], name);
    EntriesAt(t[d].slots, k);
  }

  lemma NotEmpty<T>(s: set<T>, e: T)
    requires e in s
    ensures |s| >= 1
  {
    assert s == {e} + (s - {e});
  }

  lemma ParentOfNamed(t: Tree, d: int, k: nat, n: int)
    requires DirsOk(t) && AllNamed(t) && DirIn(t, n) && n != 0 && (d, k as int) in NamesOf(t, n)
    ensures Parent(t, n) == d && n != d && |SubDirs(t, d)| >= 1
  {
    hide DirsOk, AllNamed, NamesOf, SubDirs, Entries, SlotsOk;
    OnlyNameIs(t, n);
    DirAt(t, n);
    SubIn(t, d, n);
    NotEmpty(SubDirs(t, d), n);
  }

  lemma TwoDots(slots: seq<Dir.Slot>)
    requires SlotsOk(slots) && "." in Entries(slots) && ".." in Entries(slots)
    ensures |Live(slots)| >= 2
  {
    LiveCount(slots);
    var two: set<seq<char>> := {".", ".."};
    FewerKeys(two, Entries(slots).Keys);
    assert |two| == 2 && |Entries(slots).Keys| == |Entries(slots)|;
  }

  lemma AtLeastTwo(t: Tree, n: int)
    requires TreeOk(t) && DirIn(t, n)
    ensures SlotsOk(t[n].slots) && |Live(t[n].slots)| >= 2
  {
    DirAt(t, n);
    hide DirsOk, AllNamed, AllCounted, SlotsOk, Entries, Live;
    TwoDots(t[n].slots);
  }
}
