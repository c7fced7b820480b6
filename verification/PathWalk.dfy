/** Walking path names through the tree of inodes (kernel/fs/dir.c:210-276). */
module PathWalk {
  import opened Dir
  import opened Path
  import opened LinkCount

  datatype Found = Inode(i: int) | NotFound | SelfLock | NoSlot

  /**
   * What `comps` lead to from `ip`: the inode of the last component, or its
   * directory when `parent`.
   */
  function Look(t: Tree, ip: int, comps: seq<seq<char>>, parent: bool): Found
    decreases |comps|
  {
    if comps == [] then (if parent then NotFound else Inode(ip))
    else if !DirIn(t, ip) then NotFound
    else if parent && |comps| == 1 then Inode(ip)
    else
      var n := Lookup(t[ip].slots, comps[0]);
      if n == 0xFFFF then NotFound else Look(t, n, comps[1..], parent)
  }

  /**
   * The walk as it is done: every inode on the way gets a slot of the inode
   * cache and is locked. `held` are the inodes whose locks the caller holds,
   * `refs` the references before the walk. Meeting a held inode is the panic
   * of the second acquire; having no slot left is the panic of inode_alloc.
   */
  function Walk(t: Tree, ip: int, comps: seq<seq<char>>, parent: bool, held: set<int>, refs: map<int, nat>): Found
    decreases |comps|
  {
    if comps == [] then (if parent then NotFound else Inode(ip))
    else if ip in held then SelfLock
    else if !DirIn(t, ip) then NotFound
    else if parent && |comps| == 1 then Inode(ip)
    else
      var n := Lookup(t[ip].slots, comps[0]);
      if n == 0xFFFF then NotFound
      else if n !in refs && |refs| == 32 then NoSlot
      else Walk(t, n, comps[1..], parent, held, refs)
  }

  // ---------- when a walk panics ----------

  /** The first `k` components lead to inode `x`. */
  predicate Leads(t: Tree, ip: int, comps: seq<seq<char>>, k: nat, x: int) {
    k <= |comps| && Look(t, ip, comps[..k], false) == Inode(x)
  }

  /** A proper prefix of the path leads to an inode whose lock is held. */
  ghost predicate PassesHeld(t: Tree, ip: int, comps: seq<seq<char>>, held: set<int>) {
    exists k: nat, x :: k < |comps| && Leads(t, ip, comps, k, x) && x in held
  }

  /** 32 inodes are referenced, and a prefix of the path, a proper one for the parent, leads to another one. */
  ghost predicate RunsOut(t: Tree, ip: int, comps: seq<seq<char>>, parent: bool, refs: map<int, nat>) {
    |refs| == 32 && exists k: nat, x :: (parent ==> k < |comps|) && Leads(t, ip, comps, k, x) && x !in refs
  }

  ghost predicate Stuck(t: Tree, ip: int, comps: seq<seq<char>>, parent: bool, held: set<int>, refs: map<int, nat>) {
    PassesHeld(t, ip, comps, held) || RunsOut(t, ip, comps, parent, refs)
  }

  lemma LeadsStep(t: Tree, ip: int, comps: seq<seq<char>>, k: nat, x: int)
    requires comps != []
    ensures Leads(t, ip, comps, 0, x) <==> x == ip
    ensures Leads(t, ip, comps, k + 1, x) <==>
              DirIn(t, ip) && Lookup(t[ip].slots, comps[0]) != 0xFFFF
                  && Leads(t, Lookup(t[ip].slots, comps[0]), comps[1..], k, x)
  {
    if k + 1 <= |comps| {
      assert comps[..k + 1][0] == comps[0];
      assert comps[..k + 1][1..] == comps[1..][..k];
    }
  }

  lemma HeldStep(t: Tree, ip: int, comps: seq<seq<char>>, held: set<int>)
    requires comps != []
    ensures PassesHeld(t, ip, comps, held) <==>
              || ip in held
              || (DirIn(t, ip) && Lookup(t[ip].slots, comps[0]) != 0xFFFF
                  && PassesHeld(t, Lookup(t[ip].slots, comps[0]), comps[1..], held))
  {
    hide Leads, Lookup;
    LeadsStep(t, ip, comps, 0, ip);
    if k: nat, x :| k < |comps| && Leads(t, ip, comps, k, x) && x in held {
      LeadsStep(t, ip, comps, if k > 0 then k - 1 else 0, x);
    }
    if DirIn(t, ip) {
      var n := Lookup(t[ip].slots, comps[0]);
      if n != 0xFFFF && PassesHeld(t, n, comps[1..], held) {
        var k: nat, x :| k < |comps[1..]| && Leads(t, n, comps[1..], k, x) && x in held;
        LeadsStep(t, ip, comps, k, x);
        assert k + 1 < |comps| && Leads(t, ip, comps, k + 1, x);
      }
    }
  }

  lemma OutStep(t: Tree, ip: int, comps: seq<seq<char>>, parent: bool, refs: map<int, nat>)
    requires comps != [] && (|refs| == 32 ==> ip in refs)
    ensures RunsOut(t, ip, comps, parent, refs) <==>
              && DirIn(t, ip) && Lookup(t[ip].slots, comps[0]) != 0xFFFF
              && RunsOut(t, Lookup(t[ip].slots, comps[0]), comps[1..], parent, refs)
  {
    hide Leads, Lookup;
    if RunsOut(t, ip, comps, parent, refs) {
      var k: nat, x :| (parent ==> k < |comps|) && Leads(t, ip, comps, k, x) && x !in refs;
      LeadsStep(t, ip, comps, if k > 0 then k - 1 else 0, x);
    }
    if DirIn(t, ip) {
      var n := Lookup(t[ip].slots, comps[0]);
      if n != 0xFFFF && RunsOut(t, n, comps[1..], parent, refs) {
        var k: nat, x :| (parent ==> k < |comps[1..]|) && Leads(t, n, comps[1..], k, x) && x !in refs;
        LeadsStep(t, ip, comps, k, x);
        assert (parent ==> k + 1 < |comps|) && Leads(t, ip, comps, k + 1, x);
      }
    }
  }

  lemma OutEnd(t: Tree, ip: int, comps: seq<seq<char>>, parent: bool, held: set<int>, refs: map<int, nat>)
    ensures |comps| <= 1 && parent ==>
            (RunsOut(t, ip, comps, parent, refs) <==> |refs| == 32 && ip !in refs && comps != [])
    ensures comps == [] && !parent ==> (RunsOut(t, ip, comps, parent, refs) <==> |refs| == 32 && ip !in refs)
    ensures comps == [] ==> !PassesHeld(t, ip, comps, held)
    ensures !parent && |refs| == 32 && ip !in refs ==> RunsOut(t, ip, comps, parent, refs)
    ensures parent && |refs| == 32 && ip !in refs && comps != [] ==> RunsOut(t, ip, comps, parent, refs)
  {
    assert Leads(t, ip, comps, 0, ip);
  }

  /**
   * A walk panics exactly when the path passes an inode that is locked already
   * or when the cache has no slot for an inode on it; else it finds what the
   * path leads to.
   */
  lemma {:induction false} WalkIs(t: Tree, ip: int, comps: seq<seq<char>>, parent: bool, held: set<int>,
      refs: map<int, nat>)
    requires |refs| == 32 ==> ip in refs
    ensures Walk(t, ip, comps, parent, held, refs) == SelfLock || Walk(t, ip, comps, parent, held, refs) == NoSlot
            <==> Stuck(t, ip, comps, parent, held, refs)
    ensures !Stuck(t, ip, comps, parent, held, refs) ==>
            Walk(t, ip, comps, parent, held, refs) == Look(t, ip, comps, parent)
    decreases |comps|
  {
    hide PassesHeld, RunsOut, Lookup;
    OutEnd(t, ip, comps, parent, held, refs);
    if comps != [] {
      HeldStep(t, ip, comps, held);
      OutStep(t, ip, comps, parent, refs);
      if DirIn(t, ip) && !(parent && |comps| == 1) {
        var n := Lookup(t[ip].slots, comps[0]);
        OutEnd(t, n, comps[1..], parent, held, refs);
        if n != 0xFFFF && (|refs| == 32 ==> n in refs) {
          WalkIs(t, n, comps[1..], parent, held, refs);
        }
      } else if DirIn(t, ip) {
        OutEnd(t, Lookup(t[ip].slots, comps[0]), comps[1..], parent, held, refs);
      }
    }
  }

  /** A parent that a walk finds was locked and looked at. */
  lemma {:induction false} ParentNotHeld(t: Tree, ip: int, comps: seq<seq<char>>, held: set<int>, refs: map<int, nat>)
    ensures Walk(t, ip, comps, true, held, refs).Inode? ==> Walk(t, ip, comps, true, held, refs).i !in held
    decreases |comps|
  {
    if |comps| > 1 && DirIn(t, ip) {
      ParentNotHeld(t, Lookup(t[ip].slots, comps[0]), comps[1..], held, refs);
    }
  }

  // ---------- what a path leads to ----------

  /** A lookup goes through the parent: path_to_inode is the last component's entry in what path_to_pinode finds. */
  lemma {:induction false} InodeByParent(t: Tree, ip: int, comps: seq<seq<char>>)
    requires comps != []
    ensures Look(t, ip, comps, false) ==
      match Look(t, ip, comps, true)
      case Inode(d) =>
        if !DirIn(t, d) || Lookup(t[d].slots, comps[|comps| - 1]) == 0xFFFF then NotFound
        else Inode(Lookup(t[d].slots, comps[|comps| - 1]))
      case _ => NotFound
    decreases |comps|
  {
    if DirIn(t, ip) && |comps| > 1 {
      var n := Lookup(t[ip].slots, comps[0]);
      if n != 0xFFFF {
        InodeByParent(t, n, comps[1..]);
      }
    }
  }

  lemma {:induction false} ParentByPrefix(t: Tree, ip: int, comps: seq<seq<char>>)
    requires comps != []
    ensures Look(t, ip, comps, true) ==
      match Look(t, ip, comps[..|comps| - 1], false)
      case Inode(d) => if DirIn(t, d) then Inode(d) else NotFound
      case _ => NotFound
    decreases |comps|
  {
    if |comps| == 1 {
      assert comps[..|comps| - 1] == [];
    } else if DirIn(t, ip) {
      var n := Lookup(t[ip].slots, comps[0]);
      assert comps[..|comps| - 1][0] == comps[0] && comps[..|comps| - 1][1..] == comps[1..][..|comps| - 2];
      if n != 0xFFFF {
        ParentByPrefix(t, n, comps[1..]);
      }
    }
  }

  /**
   * What a path leads to, from its last component: the parent is what the path
   * before that leads to, when that is a directory, whether or not the
   * component has an entry in it; the inode is that entry's.
   */
  lemma PathIs(t: Tree, ip: int, comps: seq<seq<char>>)
    ensures Look(t, ip, [], false) == Inode(ip) && Look(t, ip, [], true) == NotFound
    ensures comps != [] ==> forall d :: Look(t, ip, comps, true) == Inode(d) <==>
      Look(t, ip, comps[..|comps| - 1], false) == Inode(d) && DirIn(t, d)
    ensures comps != [] && !Look(t, ip, comps, true).Inode? ==> Look(t, ip, comps, true) == NotFound
    ensures comps != [] ==> forall n :: Look(t, ip, comps, false) == Inode(n) <==>
      exists d :: Look(t, ip, comps[..|comps| - 1], false) == Inode(d) && DirIn(t, d)
                  && Lookup(t[d].slots, comps[|comps| - 1]) == n && n != 0xFFFF
    ensures !Look(t, ip, comps, false).Inode? ==> Look(t, ip, comps, false) == NotFound
  {
    hide Lookup;
    if comps != [] {
      ParentByPrefix(t, ip, comps);
      InodeByParent(t, ip, comps);
    }
  }

  /** Paths lead through the tree and stay in it; a parent is a directory. */
  lemma {:induction false} LookStays(t: Tree, ip: int, comps: seq<seq<char>>, parent: bool)
    requires DirsOk(t) && ip in t
    ensures Look(t, ip, comps, parent).Inode? ==> Look(t, ip, comps, parent).i in t
    ensures Look(t, ip, comps, parent).Inode? && parent ==> DirIn(t, Look(t, ip, comps, parent).i)
    decreases |comps|
  {
    hide DirsOk, Lookup;
    if comps != [] && DirIn(t, ip) && !(parent && |comps| == 1) {
      var n := Lookup(t[ip].slots, comps[0]);
      if n != 0xFFFF {
        LookupFound(t, ip, comps[0]);
        LookStays(t, n, comps[1..], parent);
      }
    }
  }

  lemma LookupIn(t: Tree, d: int, name: seq<char>)
    requires DirsOk(t) && DirIn(t, d)
    ensures SlotsOk(t[d].slots)
            && (name in Entries(t[d].slots) ==> Lookup(t[d].slots, name) in t && Lookup(t[d].slots, name) != 0xFFFF)
  {
    assert DirOk(t, d);
    EntriesHas(t[d].slots, name);
    if name in Entries(t[d].slots) {
      var k :| 0 <= k < 32 && Names(t[d].slots[k], name);
      EntriesAt(t[d].slots, k);
    }
  }

  lemma LookupFound(t: Tree, d: int, name: seq<char>)
    requires DirsOk(t) && DirIn(t, d) && Lookup(t[d].slots, name) != 0xFFFF
    ensures Lookup(t[d].slots, name) in t
  {
    LookupIn(t, d, name);
  }
}
