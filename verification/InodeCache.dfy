/** The inode cache (kernel/fs/inode.c:13-90, 152-206): 32 slots of in-memory inodes with reference counts. */
module InodeCache {

  const UNUSED: int := 0xFFFF

  /**
   * The part of an inode that is on disk: its link count, and its type, device
   * numbers and addresses as one value. The size is kept by FileTree.
   */
  datatype Meta = Meta(nlink: nat, rest: int)

  datatype Slot = Slot(num: int, refs: nat, valid: bool, locked: bool, meta: Meta)

  /** How inode_free ends: its last reference to an inode without links runs into the assertion of inode_lock. */
  datatype FreeResult = Freed | DestroyPanics

  predicate IsSlot(i: int) { 0 <= i < 32 }

  /**
   * No inode has two slots; a locked one is referenced and loaded; a loaded one
   * holds what is on disk, changes of its lock holder apart.
   */
  predicate CacheOk(slots: seq<Slot>, disk: map<int, Meta>, dirty: set<int>) {
    && |slots| == 32
    && (forall i, j :: 0 <= i < j < 32 && slots[i].num != UNUSED ==> slots[i].num != slots[j].num)
    && (forall i {:trigger slots[i]} :: 0 <= i < 32 ==>
          && (slots[i].refs > 0 ==> slots[i].num != UNUSED)
          && (slots[i].locked ==> slots[i].refs > 0 && slots[i].valid)
          && (slots[i].valid && i !in dirty ==> slots[i].num in disk && slots[i].meta == disk[slots[i].num]))
    && (forall i :: i in dirty ==> IsSlot(i) && slots[i].locked)
  }

  predicate Holds(x: Slot, num: int) {
    x.num == num
  }

  // ---------- references and locks, by inode number ----------

  ghost predicate Distinct(slots: seq<Slot>) {
    forall i, j :: 0 <= i < j < |slots| && slots[i].refs > 0 && slots[j].refs > 0 ==> slots[i].num != slots[j].num
  }

  /** How often each referenced inode is referenced. */
  ghost function Refs(slots: seq<Slot>): map<int, nat> {
    if slots == [] then map[]
    else
      var x, m := slots[|slots| - 1], Refs(slots[..|slots| - 1]);
      if x.refs > 0 then m[x.num := x.refs] else m
  }

  ghost predicate Referenced(slots: seq<Slot>, n: int) {
    exists i :: 0 <= i < |slots| && slots[i].refs > 0 && Holds(slots[i], n)
  }

  ghost predicate AllReferenced(slots: seq<Slot>) {
    forall i {:trigger slots[i]} :: 0 <= i < |slots| ==> slots[i].refs > 0
  }

  lemma ReferencedStep(slots: seq<Slot>, n: int)
    requires slots != []
    ensures var x := slots[|slots| - 1];
            Referenced(slots, n) <==> Referenced(slots[..|slots| - 1], n) || (x.refs > 0 && x.num == n)
  {
    var init, x := slots[..|slots| - 1], slots[|slots| - 1];
    if i :| 0 <= i < |slots| && slots[i].refs > 0 && Holds(slots[i], n) {
      assert i < |init| ==> init[i] == slots[i];
    }
    if i :| 0 <= i < |init| && init[i].refs > 0 && Holds(init[i], n) {
      assert slots[i] == init[i];
    }
    assert x.refs > 0 && x.num == n ==> Holds(slots[|slots| - 1], n);
  }

  lemma SlotReferenced(slots: seq<Slot>, i: nat)
    requires i < |slots| && slots[i].refs > 0
    ensures Referenced(slots, slots[i].num)
  {
    assert Holds(slots[i], slots[i].num);
  }

  lemma {:induction false} RefsAre(slots: seq<Slot>)
    requires Distinct(slots)
    ensures forall n :: n in Refs(slots) <==> Referenced(slots, n)
    ensures forall i {:trigger slots[i]} :: 0 <= i < |slots| && slots[i].refs > 0 ==>
              slots[i].num in Refs(slots) && Refs(slots)[slots[i].num] == slots[i].refs
    ensures |Refs(slots)| <= |slots| && (|Refs(slots)| == |slots| <==> AllReferenced(slots))
  {
    hide Referenced, AllReferenced;
    if slots == [] {
      NoSlots();
    } else {
      var init, x := slots[..|slots| - 1], slots[|slots| - 1];
      RefsAre(init);
      forall n ensures n in Refs(slots) <==> Referenced(slots, n) {
        ReferencedStep(slots, n);
      }
      AllStep(slots);
      if x.refs > 0 { LastApart(slots); }
      forall i | 0 <= i < |slots| && slots[i].refs > 0
        ensures slots[i].num in Refs(slots) && Refs(slots)[slots[i].num] == slots[i].refs
      {
        if i < |init| {
          assert init[i] == slots[i];
          SlotReferenced(init, i);
        }
      }
    }
  }

  lemma NoSlots()
    ensures AllReferenced([]) && forall n :: !Referenced([], n)
  {
  }

  lemma AllStep(slots: seq<Slot>)
    requires slots != []
    ensures AllReferenced(slots) <==> AllReferenced(slots[..|slots| - 1]) && slots[|slots| - 1].refs > 0
  {
    var init := slots[..|slots| - 1];
    assert forall i :: 0 <= i < |init| ==> init[i] == slots[i];
  }

  lemma LastApart(slots: seq<Slot>)
    requires Distinct(slots) && slots != [] && slots[|slots| - 1].refs > 0
    ensures !Referenced(slots[..|slots| - 1], slots[|slots| - 1].num)
  {
  }

  /** The references when slot `i` becomes `x`. */
  ghost function RefsWith(slots: seq<Slot>, i: nat, x: Slot): map<int, nat>
    requires i < |slots|
  {
    var others := if slots[i].refs > 0 then Refs(slots) - {slots[i].num} else Refs(slots);
    if x.refs > 0 then others[x.num := x.refs] else others
  }

  lemma RefsSet(slots: seq<Slot>, i: nat, x: Slot)
    requires i < |slots| && Distinct(slots) && Distinct(slots[i := x])
    ensures Refs(slots[i := x]) == RefsWith(slots, i, x)
  {
    hide Referenced, AllReferenced, Refs, RefsWith;
    var t, want := slots[i := x], RefsWith(slots, i, x);
    forall n ensures n in Refs(t) <==> n in want
             ensures n in want ==> n in Refs(t) && Refs(t)[n] == want[n] {
      RefAt(slots, i, x, n);
    }
  }

  lemma SlotRef(slots: seq<Slot>, j: nat)
    requires Distinct(slots) && j < |slots| && slots[j].refs > 0
    ensures slots[j].num in Refs(slots) && Refs(slots)[slots[j].num] == slots[j].refs
  {
    RefsAre(slots);
  }

  lemma SlotOf(slots: seq<Slot>, n: int) returns (j: nat)
    requires Distinct(slots) && n in Refs(slots)
    ensures j < |slots| && slots[j].refs > 0 && slots[j].num == n
  {
    RefsAre(slots);
    j :| 0 <= j < |slots| && slots[j].refs > 0 && Holds(slots[j], n);
  }

  lemma Apart(slots: seq<Slot>, i: nat, j: nat)
    requires Distinct(slots) && i < |slots| && j < |slots| && slots[i].refs > 0 && slots[j].refs > 0
             && slots[i].num == slots[j].num
    ensures i == j
  {
  }

  lemma RefAt(slots: seq<Slot>, i: nat, x: Slot, n: int)
    requires i < |slots| && Distinct(slots) && Distinct(slots[i := x])
    ensures n in Refs(slots[i := x]) <==> n in RefsWith(slots, i, x)
    ensures n in RefsWith(slots, i, x) ==>
            n in Refs(slots[i := x]) && Refs(slots[i := x])[n] == RefsWith(slots, i, x)[n]
  {
    hide Refs, Distinct, Referenced, AllReferenced;
    var t := slots[i := x];
    if n in Refs(t) {
      var j := SlotOf(t, n);
      if j != i {
        SlotRef(slots, j);
        if slots[i].refs > 0 && slots[i].num == n { Apart(slots, i, j); }
      }
    }
    if n in RefsWith(slots, i, x) {
      if x.refs > 0 && n == x.num {
        SlotRef(t, i);
      } else {
        var j := SlotOf(slots, n);
        SlotRef(slots, j);
        SlotRef(t, j);
      }
    }
  }

  /** The inodes that are locked. */
  ghost function Held(slots: seq<Slot>): set<int> {
    set i | 0 <= i < |slots| && slots[i].locked :: slots[i].num
  }

  /** The referenced inodes that were read from the disk. */
  ghost function Loaded(slots: seq<Slot>): set<int> {
    set i | 0 <= i < |slots| && slots[i].refs > 0 && slots[i].valid :: slots[i].num
  }

  function Took(refs: map<int, nat>, n: int): map<int, nat> {
    refs[n := if n in refs then refs[n] + 1 else 1]
  }

  function Gave(refs: map<int, nat>, n: int): map<int, nat> {
    if n in refs && refs[n] > 1 then refs[n := refs[n] - 1] else refs - {n}
  }

  lemma TookGave(refs: map<int, nat>, n: int)
    requires n in refs ==> refs[n] > 0
    ensures Gave(Took(refs, n), n) == refs
  {
  }

  /** Locked slots stay locked and keep their inodes. */
  ghost predicate LockedStay(s: seq<Slot>, u: seq<Slot>) {
    |s| == |u| && forall j {:trigger u[j]} :: 0 <= j < |s| && s[j].locked ==> u[j].locked && u[j].num == s[j].num
  }

  /** Between operations: nothing to be written back, these locks and references, and at least `base` loaded. */
  ghost predicate CacheIs(c: Cache, held: set<int>, refs: map<int, nat>, base: set<int>)
    reads c
  {
    && CacheOk(c.slots, c.disk, c.dirty) && c.dirty == {} && Held(c.slots) == held && Refs(c.slots) == refs
    && base <= Loaded(c.slots)
  }

  /** Slot `k` is a reference to inode `n`. */
  predicate At(slots: seq<Slot>, k: int, n: int) {
    |slots| == 32 && IsSlot(k) && slots[k].refs > 0 && slots[k].num == n
  }

  lemma IsDistinct(slots: seq<Slot>, disk: map<int, Meta>, dirty: set<int>)
    requires CacheOk(slots, disk, dirty)
    ensures Distinct(slots) && |slots| == 32
  {
  }

  lemma IsHeld(slots: seq<Slot>, disk: map<int, Meta>, dirty: set<int>, k: int, n: int)
    requires CacheOk(slots, disk, dirty) && At(slots, k, n)
    ensures slots[k].locked <==> n in Held(slots)
    ensures n in Refs(slots) && Refs(slots)[n] == slots[k].refs
  {
    IsDistinct(slots, disk, dirty);
    SlotRef(slots, k);
  }

  /** What a change of one slot does to references and locks. */
  lemma SlotChanged(slots: seq<Slot>, disk: map<int, Meta>, dirty: set<int>, i: nat, x: Slot, dirty2: set<int>)
    requires CacheOk(slots, disk, dirty) && i < 32 && CacheOk(slots[i := x], disk, dirty2)
    ensures Refs(slots[i := x]) == RefsWith(slots, i, x)
    ensures Held(slots[i := x]) == Held(slots) - (if slots[i].locked then {slots[i].num}
            else {}) + (if x.locked then {x.num} else {})
    ensures LoadedWith(slots, i, x) <= Loaded(slots[i := x])
  {
    IsDistinct(slots, disk, dirty);
    IsDistinct(slots[i := x], disk, dirty2);
    RefsSet(slots, i, x);
    HeldSet(slots, i, x);
    LoadedSet(slots, i, x);
  }

  /** What is certainly loaded when slot `i` becomes `x`. */
  ghost function LoadedWith(slots: seq<Slot>, i: nat, x: Slot): set<int>
    requires i < |slots|
  {
    Loaded(slots) - (if slots[i].refs > 0 then {slots[i].num} else {})
      + (if x.refs > 0 && x.valid then {x.num} else {})
  }

  lemma LoadedSet(slots: seq<Slot>, i: nat, x: Slot)
    requires i < |slots|
    ensures LoadedWith(slots, i, x) <= Loaded(slots[i := x])
  {
    var t := slots[i := x];
    forall n | n in LoadedWith(slots, i, x) ensures n in Loaded(t) {
      if n in Loaded(slots) && !(slots[i].refs > 0 && n == slots[i].num) {
        var j :| 0 <= j < |slots| && slots[j].refs > 0 && slots[j].valid && slots[j].num == n;
        assert t[j] == slots[j];
      } else {
        assert t[i].num == n;
      }
    }
  }

  lemma IsLoaded(slots: seq<Slot>, disk: map<int, Meta>, dirty: set<int>, k: int, n: int)
    requires CacheOk(slots, disk, dirty) && At(slots, k, n)
    ensures slots[k].valid <==> n in Loaded(slots)
  {
    IsDistinct(slots, disk, dirty);
    if n in Loaded(slots) {
      var j :| 0 <= j < |slots| && slots[j].refs > 0 && slots[j].valid && slots[j].num == n;
      Apart(slots, j, k);
    }
  }

  lemma HeldSet(slots: seq<Slot>, i: nat, x: Slot)
    requires i < |slots| && Distinct(slots) && forall j {:trigger slots[j]} :: 0 <= j < |slots| && slots[j].locked ==>
             slots[j].refs > 0
    ensures Held(slots[i := x]) == Held(slots) - (if slots[i].locked then {slots[i].num}
            else {}) + (if x.locked then {x.num} else {})
  {
    var t := slots[i := x];
    forall n ensures n in Held(t) <==>
        (n in Held(slots) && !(slots[i].locked && n == slots[i].num)) || (x.locked && n == x.num) {
      if n in Held(slots) {
        var j :| 0 <= j < |slots| && slots[j].locked && slots[j].num == n;
        assert j != i ==> t[j] == slots[j];
      }
      assert x.locked ==> t[i].num in Held(t);
      if n in Held(t) {
        var j :| 0 <= j < |t| && t[j].locked && t[j].num == n;
        assert j != i ==> slots[j] == t[j];
      }
    }
  }

  class Cache {
    var slots: seq<Slot>
    /** The inode area of the disk, by inode number. */
    var disk: map<int, Meta>
    ghost var dirty: set<int>

    ghost predicate Valid()
      reads this
    {
      CacheOk(slots, disk, dirty)
    }

    /** inode_init */
    constructor (disk: map<int, Meta>)
      ensures Valid() && this.disk == disk && dirty == {}
      ensures forall i {:trigger slots[i]} :: 0 <= i < 32 ==> slots[i] == Slot(UNUSED, 0, false, false, Meta(0, 0))
    {
      slots := seq(32, _ => Slot(UNUSED, 0, false, false, Meta(0, 0)));
      this.disk := disk;
      dirty := {};
    }

    /** The first of inode_alloc's two loops: the slot of an inode, or 32. */
    method Find(num: int) returns (i: nat)
      requires Valid()
      ensures i <= 32 && (i < 32 ==> slots[i].num == num)
      ensures i == 32 ==> forall j :: 0 <= j < 32 ==> !Holds(slots[j], num)
      ensures i == IndexOf(slots, num, 0)
    {
      i := 0;
      while i < 32
        invariant i <= 32 && forall j :: 0 <= j < i ==> !Holds(slots[j], num)
        invariant IndexOf(slots, num, 0) == IndexOf(slots, num, i)
      {
        if slots[i].num == num {
          return;
        }
        i := i + 1;
      }
    }

    /**
     * inode_alloc: everyone who asks for an inode gets the same slot as long
     * as one of them keeps it; -1 is the panic, when 32 other inodes are
     * referenced. A hit keeps what the slot holds, a miss takes the first slot
     * without references and leaves what its last inode had in memory.
     */
    method Alloc(num: int) returns (r: int)
      requires Valid() && 0 <= num < UNUSED
      modifies `slots
      ensures Valid()
      ensures r == -1 <==> num !in Refs(old(slots)) && |Refs(old(slots))| == 32
      ensures |old(slots)| == 32
      ensures r == -1 <==> forall i {:trigger old(slots)[i]} :: 0 <= i < 32 ==>
        old(slots)[i].refs > 0 && old(slots)[i].num != num
      ensures forall i {:trigger old(slots)[i]} :: 0 <= i < 32 && old(slots)[i].num == num ==>
        r == i && slots == old(slots)[i := old(slots)[i].(refs := old(slots)[i].refs + 1)]
      ensures r != -1 && (forall i {:trigger old(slots)[i]} :: 0 <= i < 32 ==> old(slots)[i].num != num) ==>
        && 0 <= r < 32 && old(slots)[r].refs == 0
        && (forall i {:trigger old(slots)[i]} :: 0 <= i < r ==> old(slots)[i].refs > 0)
        && slots == old(slots)[r := old(slots)[r].(num := num, refs := 1, valid := false)]
      ensures r == -1 ==> slots == old(slots)
      ensures r != -1 ==> At(slots, r, num) && slots == old(slots)[r := slots[r]]
      ensures r != -1 ==> Refs(slots) == Took(Refs(old(slots)), num) && Held(slots) == Held(old(slots))
      ensures r != -1 ==> Loaded(old(slots)) <= Loaded(slots)
      ensures LockedStay(old(slots), slots)
      ensures r != -1 ==>
              r == Pick(old(slots), num) && IsSlot(r) && slots[r] == old(slots)[r].(num := num, refs := slots[r].refs,
                            valid := old(slots)[r].num == num && old(slots)[r].valid)
    {
      hide Refs, Held, Loaded, Referenced, CacheOk, Distinct;
      ghost var s := slots;
      IsDistinct(slots, disk, dirty);
      RefsAre(slots);
      var i := Find(num);
      if i < 32 {
        TakeSlot(slots, disk, dirty, i);
        OneSlot(slots, disk, dirty, i);
        slots := slots[i := slots[i].(refs := slots[i].refs + 1)];
        return i;
      }
      assert forall j {:trigger slots[j]} :: 0 <= j < 32 ==> !Holds(slots[j], num);
      NotReferenced(slots, num);
      var k := 0;
      while k < 32
        invariant 0 <= k <= 32 && slots == s && forall j {:trigger slots[j]} :: 0 <= j < k ==> slots[j].refs > 0
        invariant FirstFree(slots, 0) == FirstFree(slots, k)
      {
        if slots[k].refs == 0 {
          NewSlot(slots, disk, dirty, k, num);
          slots := slots[k := slots[k].(num := num, refs := 1, valid := false)];
          return k;
        }
        k := k + 1;
      }
      r := -1;
    }

    /** inode_dup */
    method Dup(i: int)
      requires Valid() && IsSlot(i) && slots[i].refs > 0
      modifies `slots
      ensures Valid() && slots == old(slots)[i := old(slots)[i].(refs := old(slots)[i].refs + 1)]
      ensures Refs(slots) == Took(Refs(old(slots)), slots[i].num) && Held(slots) == Held(old(slots))
      ensures Loaded(old(slots)) <= Loaded(slots)
    {
      TakeSlot(slots, disk, dirty, i);
      slots := slots[i := slots[i].(refs := slots[i].refs + 1)];
    }

    /** inode_lock of a referenced inode whose lock is free: what is in memory is what is on disk. */
    method Lock(i: int)
      requires Valid() && IsSlot(i) && slots[i].refs >= 1 && slots[i].num !in Held(slots) && slots[i].num in disk
      modifies `slots
      ensures Valid() && slots == old(slots)[i := slots[i]]
      ensures slots[i] == old(slots)[i].(locked := true, valid := true, meta := disk[old(slots)[i].num])
      ensures LockedStay(old(slots), slots)
      ensures Refs(slots) == Refs(old(slots)) && Held(slots) == Held(old(slots)) + {slots[i].num}
      ensures Loaded(old(slots)) + {slots[i].num} <= Loaded(slots)
    {
      ghost var s := slots;
      IsHeld(slots, disk, dirty, i, slots[i].num);
      slots := slots[i := slots[i].(locked := true)];
      if !slots[i].valid {
        slots := slots[i := slots[i].(meta := disk[slots[i].num], valid := true)];
      }
      assert slots == s[i := slots[i]];
      SlotChanged(s, disk, dirty, i, slots[i], dirty);
      assert Refs(slots) == Refs(s);
    }

    /** The lock holder sets the link count and writes the inode, inode_rw(ip, true). */
    method SetLinks(i: int, nlink: nat)
      requires Valid() && IsSlot(i) && slots[i].refs >= 1 && slots[i].num in Held(slots)
      modifies `slots, `disk, `dirty
      ensures Valid() && dirty == old(dirty) - {i} && slots == old(slots)[i := old(slots)[i].(meta := slots[i].meta)]
      ensures slots[i].meta == old(slots)[i].meta.(nlink := nlink) && disk == old(disk)[slots[i].num := slots[i].meta]
      ensures i !in old(dirty) ==> slots[i].num in old(disk)
      ensures i !in old(dirty) ==> disk == old(disk)[slots[i].num := old(disk)[slots[i].num].(nlink := nlink)]
      ensures Refs(slots) == Refs(old(slots)) && Held(slots) == Held(old(slots))
      ensures Loaded(old(slots)) <= Loaded(slots)
    {
      ghost var s := slots;
      IsHeld(slots, disk, dirty, i, slots[i].num);
      Modify(i, slots[i].meta.(nlink := nlink));
      SlotChanged(s, disk, old(dirty), i, slots[i], dirty);
      assert Refs(slots) == Refs(s);
      WriteBack(i);
    }

    /** The lock holder changes the inode in memory. */
    method Modify(i: int, meta: Meta)
      requires Valid() && IsSlot(i) && slots[i].locked
      modifies `slots, `dirty
      ensures Valid() && slots == old(slots)[i := old(slots)[i].(meta := meta)] && dirty == old(dirty) + {i}
    {
      slots := slots[i := slots[i].(meta := meta)];
      dirty := dirty + {i};
    }

    /** inode_rw(ip, true) */
    method WriteBack(i: int)
      requires Valid() && IsSlot(i) && slots[i].locked
      modifies `disk, `dirty
      ensures Valid() && dirty == old(dirty) - {i} && disk == old(disk)[slots[i].num := slots[i].meta]
    {
      disk := disk[slots[i].num := slots[i].meta];
      dirty := dirty - {i};
    }

    /** inode_unlock, by a holder that wrote its changes back. */
    method Unlock(i: int)
      requires Valid() && IsSlot(i) && slots[i].refs >= 1 && slots[i].num in Held(slots) && i !in dirty
      modifies `slots
      ensures Valid() && slots == old(slots)[i := old(slots)[i].(locked := false)]
      ensures Refs(slots) == Refs(old(slots)) && Held(slots) == Held(old(slots)) - {slots[i].num}
      ensures Loaded(old(slots)) <= Loaded(slots)
    {
      ghost var s := slots;
      IsHeld(slots, disk, dirty, i, slots[i].num);
      slots := slots[i := slots[i].(locked := false)];
      SlotChanged(s, disk, dirty, i, slots[i], dirty);
      assert Refs(slots) == Refs(s);
    }

    /**
     * inode_free. It looks at the link count in memory even when the inode was
     * never loaded, so what decides is the count in the slot, not on disk.
     */
    method Free(i: int) returns (r: FreeResult)
      requires Valid() && IsSlot(i) && slots[i].refs > 0 && slots[i].num !in Held(slots)
      modifies `slots
      ensures r == DestroyPanics <==> old(slots)[i].refs == 1 && old(slots)[i].meta.nlink == 0
      ensures Valid() && slots == old(slots)[i := old(slots)[i].(refs := old(slots)[i].refs - 1)]
      ensures Refs(slots) == Gave(Refs(old(slots)), slots[i].num) && Held(slots) == Held(old(slots))
      ensures Loaded(old(slots)) - (if old(slots)[i].refs == 1 then {slots[i].num} else {}) <= Loaded(slots)
    {
      ghost var s := slots;
      IsHeld(slots, disk, dirty, i, slots[i].num);
      IsLoaded(slots, disk, dirty, i, slots[i].num);
      slots := slots[i := slots[i].(refs := slots[i].refs - 1)];
      SlotChanged(s, disk, dirty, i, slots[i], dirty);
      assert Refs(slots) == Gave(Refs(s), slots[i].num);
      if slots[i].refs == 0 && slots[i].meta.nlink == 0 {
        r := DestroyPanics;
      } else {
        r := Freed;
      }
    }

    /** inode_unlock_free, by a holder that wrote its changes back: the count on disk decides. */
    method UnlockFree(i: int) returns (r: FreeResult)
      requires Valid() && IsSlot(i) && slots[i].refs >= 1 && slots[i].num in Held(slots) && i !in dirty
      modifies `slots
      ensures Valid() && slots == old(slots)[i := slots[i]] && slots[i].num == old(slots)[i].num
      ensures var n := slots[i].num;
              && n in disk && n in Refs(old(slots))
              && (r == DestroyPanics <==> Refs(old(slots))[n] == 1 && disk[n].nlink == 0)
              && Refs(slots) == Gave(Refs(old(slots)), n) && Held(slots) == Held(old(slots)) - {n}
              && Loaded(old(slots)) - (if Refs(old(slots))[n] == 1 then {n} else {}) <= Loaded(slots)
    {
      IsHeld(slots, disk, dirty, i, slots[i].num);
      LoadedFreesCleanly(slots, disk, dirty, i);
      Unlock(i);
      r := Free(i);
    }

    /**
     * An inode that is taken and given back without having been locked, as
     * search_inode does with the root for a path without components: the
     * panic, exactly when nobody else references it and the slot it gets has a
     * link count of 0 in memory.
     */
    method TakeAndGive(num: int) returns (ok: bool, r: FreeResult)
      requires Valid() && 0 <= num < UNUSED
      requires num in Refs(slots) ==> num !in Held(slots)
      modifies `slots
      ensures Valid()
      ensures !ok <==> num !in Refs(old(slots)) && |Refs(old(slots))| == 32
      ensures ok ==> Refs(slots) == Refs(old(slots)) && Held(slots) == Held(old(slots))
      ensures ok ==> (r == DestroyPanics <==>
                num !in Refs(old(slots)) && IsSlot(Pick(old(slots), num))
                    && old(slots)[Pick(old(slots), num)].meta.nlink == 0)
    {
      ghost var s := slots;
      Positive(slots, disk, dirty);
      r := Freed;
      var i := Alloc(num);
      ok := i != -1;
      if ok {
        TookGave(Refs(s), num);
        HeldIsReferenced(s, disk, dirty, num);
        IsHeld(slots, disk, dirty, i, num);
        r := Free(i);
      }
    }
  }

  /** The slot that inode_alloc chooses: the inode's own, else the first without references, 32 for none. */
  function Pick(slots: seq<Slot>, num: int): int {
    if IndexOf(slots, num, 0) < |slots| then IndexOf(slots, num, 0) else FirstFree(slots, 0)
  }

  function IndexOf(slots: seq<Slot>, num: int, k: nat): nat
    decreases |slots| - k
  {
    if k >= |slots| || slots[k].num == num then k else IndexOf(slots, num, k + 1)
  }

  function FirstFree(slots: seq<Slot>, k: nat): nat
    decreases |slots| - k
  {
    if k >= |slots| || slots[k].refs == 0 then k else FirstFree(slots, k + 1)
  }

  lemma TakeSlot(slots: seq<Slot>, disk: map<int, Meta>, dirty: set<int>, i: nat)
    requires CacheOk(slots, disk, dirty) && i < 32 && slots[i].num != UNUSED
    ensures var t := slots[i := slots[i].(refs := slots[i].refs + 1)];
            CacheOk(t, disk, dirty) && Refs(t) == Took(Refs(slots), slots[i].num) && Held(t) == Held(slots)
            && Loaded(slots) <= Loaded(t)
  {
    hide CacheOk, Refs, Held, Loaded;
    IsDistinct(slots, disk, dirty);
    TakenOk(slots, disk, dirty, i);
    SlotChanged(slots, disk, dirty, i, slots[i].(refs := slots[i].refs + 1), dirty);
    OnlySlot(slots, disk, dirty, i);
  }

  lemma OneSlot(slots: seq<Slot>, disk: map<int, Meta>, dirty: set<int>, i: nat)
    requires CacheOk(slots, disk, dirty) && i < 32 && slots[i].num != UNUSED
    ensures forall j {:trigger slots[j]} :: 0 <= j < 32 && slots[j].num == slots[i].num ==> j == i
  {
  }

  lemma TakenOk(slots: seq<Slot>, disk: map<int, Meta>, dirty: set<int>, i: nat)
    requires CacheOk(slots, disk, dirty) && i < 32 && slots[i].num != UNUSED
    ensures CacheOk(slots[i := slots[i].(refs := slots[i].refs + 1)], disk, dirty)
  {
  }

  lemma NewSlot(slots: seq<Slot>, disk: map<int, Meta>, dirty: set<int>, k: nat, num: int)
    requires CacheOk(slots, disk, dirty) && k < 32 && slots[k].refs == 0 && num != UNUSED
    requires forall j :: 0 <= j < 32 ==> !Holds(slots[j], num)
    ensures var t := slots[k := slots[k].(num := num, refs := 1, valid := false)];
            CacheOk(t, disk, dirty) && Refs(t) == Took(Refs(slots), num) && Held(t) == Held(slots)
            && Loaded(slots) <= Loaded(t)
    ensures num !in Refs(slots) && !slots[k].locked
  {
    hide Refs, Held, Loaded;
    NewSlotOk(slots, disk, dirty, k, num);
    SlotChanged(slots, disk, dirty, k, slots[k].(num := num, refs := 1, valid := false), dirty);
    IsDistinct(slots, disk, dirty);
    RefsAre(slots);
    NotReferenced(slots, num);
    hide CacheOk, Referenced;
  }

  /** The slot of an inode is the one that is referenced, if any is, and a locked one is referenced. */
  lemma OnlySlot(slots: seq<Slot>, disk: map<int, Meta>, dirty: set<int>, i: nat)
    requires CacheOk(slots, disk, dirty) && i < 32 && slots[i].num != UNUSED
    ensures slots[i].num in Refs(slots) <==> slots[i].refs > 0
    ensures slots[i].refs > 0 ==> Refs(slots)[slots[i].num] == slots[i].refs
    ensures slots[i].locked ==> slots[i].num in Held(slots)
    ensures slots[i].refs > 0 ==> (slots[i].valid <==> slots[i].num in Loaded(slots))
  {
    if slots[i].refs > 0 { IsLoaded(slots, disk, dirty, i, slots[i].num); }
    IsDistinct(slots, disk, dirty);
    RefsAre(slots);
    hide Refs;
    if slots[i].num in Refs(slots) {
      var j := SlotOf(slots, slots[i].num);
      assert j == i;
    }
  }

  lemma NotReferenced(slots: seq<Slot>, num: int)
    requires forall j :: 0 <= j < |slots| ==> !Holds(slots[j], num)
    ensures !Referenced(slots, num)
  {
  }

  lemma NewSlotOk(slots: seq<Slot>, disk: map<int, Meta>, dirty: set<int>, k: nat, num: int)
    requires CacheOk(slots, disk, dirty) && k < 32 && slots[k].refs == 0 && num != UNUSED
    requires forall j :: 0 <= j < 32 ==> !Holds(slots[j], num)
    ensures CacheOk(slots[k := slots[k].(num := num, refs := 1, valid := false)], disk, dirty)
  {
    var t := slots[k := slots[k].(num := num, refs := 1, valid := false)];
    forall i, j | 0 <= i < j < 32 && t[i].num != UNUSED ensures t[i].num != t[j].num {
      assert !Holds(slots[i], num) && !Holds(slots[j], num);
    }
  }

  /** A loaded inode that has links on disk is freed without trouble. */
  lemma LoadedFreesCleanly(slots: seq<Slot>, disk: map<int, Meta>, dirty: set<int>, i: int)
    requires CacheOk(slots, disk, dirty) && IsSlot(i) && slots[i].valid && i !in dirty
    ensures slots[i].num in disk && (slots[i].meta.nlink == 0 <==> disk[slots[i].num].nlink == 0)
  {
  }

  lemma Positive(slots: seq<Slot>, disk: map<int, Meta>, dirty: set<int>)
    requires CacheOk(slots, disk, dirty)
    ensures forall n :: n in Refs(slots) ==> Refs(slots)[n] > 0
  {
    IsDistinct(slots, disk, dirty);
    forall n | n in Refs(slots) ensures Refs(slots)[n] > 0 {
      var j := SlotOf(slots, n);
      SlotRef(slots, j);
    }
  }

  lemma HeldIsReferenced(slots: seq<Slot>, disk: map<int, Meta>, dirty: set<int>, num: int)
    requires CacheOk(slots, disk, dirty)
    ensures num in Held(slots) ==> num in Refs(slots)
  {
    IsDistinct(slots, disk, dirty);
    RefsAre(slots);
    if num in Held(slots) {
      var i :| 0 <= i < |slots| && slots[i].locked && slots[i].num == num;
      SlotReferenced(slots, i);
    }
  }

  /** A fresh cache, whatever the links on disk: the root taken and given back is the panic. */
  method NeverLoaded(num: int, disk: map<int, Meta>) returns (ok: bool, r: FreeResult)
    requires 0 <= num < UNUSED
    ensures ok && r == DestroyPanics
  {
    var c := new Cache(disk);
    assert !Referenced(c.slots, num) && c.slots[0].refs == 0;
    IsDistinct(c.slots, c.disk, c.dirty);
    RefsAre(c.slots);
    ok, r := c.TakeAndGive(num);
  }
}
