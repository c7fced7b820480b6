/**
 * What the operations on path names (kernel/fs/dir.c:281-479) do to every path:
 * which paths lead where before and after.
 */
module PathEffects {
  import opened Dir
  import opened LinkCount
  import opened PathWalk

  /** The walk along `comps` from `ip` asks directory `d` for `name`. */
  ghost predicate Passes(t: Tree, ip: int, comps: seq<seq<char>>, d: int, name: seq<char>) {
    exists k: nat :: k < |comps| && Leads(t, ip, comps, k, d) && comps[k] == name
  }

  lemma PassesStep(t: Tree, ip: int, comps: seq<seq<char>>, d: int, name: seq<char>)
    requires comps != []
    ensures Passes(t, ip, comps, d, name) <==>
      || (ip == d && comps[0] == name)
      || (DirIn(t, ip) && Lookup(t[ip].slots, comps[0]) != 0xFFFF
          && Passes(t, Lookup(t[ip].slots, comps[0]), comps[1..], d, name))
  {
    hide Leads, Lookup;
    LeadsStep(t, ip, comps, 0, d);
    if k: nat :| k < |comps| && Leads(t, ip, comps, k, d) && comps[k] == name {
      if k > 0 {
        LeadsStep(t, ip, comps, k - 1, d);
        assert comps[1..][k - 1] == name;
      }
    }
    if DirIn(t, ip) {
      var n := Lookup(t[ip].slots, comps[0]);
      if n != 0xFFFF && Passes(t, n, comps[1..], d, name) {
        var k: nat :| k < |comps[1..]| && Leads(t, n, comps[1..], k, d) && comps[1..][k] == name;
        LeadsStep(t, ip, comps, k, d);
        assert k + 1 < |comps| && Leads(t, ip, comps, k + 1, d) && comps[k + 1] == name;
      }
    }
  }

  /** Both trees answer alike on inode `i`, but for `name` in `d`, and never with `gone`. */
  ghost predicate SameAnswers(t: Tree, u: Tree, i: int, d: int, name: seq<char>, gone: int) {
    && (DirIn(u, i) <==> DirIn(t, i))
    && (DirIn(t, i) ==> forall c :: !(i == d && c == name) ==>
          Lookup(u[i].slots, c) == Lookup(t[i].slots, c) != gone)
  }

  /** The trees differ in the answer to `name` in `d` only, and in inode `gone`, which only that answer leads to. */
  ghost predicate DifferIn(t: Tree, u: Tree, d: int, name: seq<char>, gone: int) {
    0 != gone && forall i :: i != gone ==> SameAnswers(t, u, i, d, name, gone)
  }

  lemma AnswersAt(t: Tree, u: Tree, d: int, name: seq<char>, gone: int, i: int, c: seq<char>)
    requires DifferIn(t, u, d, name, gone) && i != gone
    ensures DirIn(u, i) <==> DirIn(t, i)
    ensures DirIn(t, i) && !(i == d && c == name) ==> Lookup(u[i].slots, c) == Lookup(t[i].slots, c) != gone
  {
    assert SameAnswers(t, u, i, d, name, gone);
  }

  /** A path that does not ask for the changed entry leads where it led. */
  lemma {:induction false} OtherPaths(t: Tree, u: Tree, ip: int, comps: seq<seq<char>>, d: int, name: seq<char>,
                                      gone: int)
    requires DifferIn(t, u, d, name, gone) && ip != gone && !Passes(t, ip, comps, d, name)
    ensures Look(u, ip, comps, false) == Look(t, ip, comps, false)
    decreases |comps|
  {
    hide DifferIn, Passes, Lookup;
    if comps != [] {
      AnswersAt(t, u, d, name, gone, ip, comps[0]);
      PassesStep(t, ip, comps, d, name);
      if DirIn(t, ip) && Lookup(t[ip].slots, comps[0]) != 0xFFFF {
        OtherPaths(t, u, Lookup(t[ip].slots, comps[0]), comps[1..], d, name, gone);
      }
    }
  }

  /** A path that asks for an entry that is not there leads nowhere, and goes on from it once it is there. */
  lemma {:induction false} NewPaths(t: Tree, u: Tree, ip: int, comps: seq<seq<char>>, k: nat, d: int, name: seq<char>,
                                    gone: int)
    requires DifferIn(t, u, d, name, gone) && ip != gone && DirIn(t, d) && Lookup(t[d].slots, name) == 0xFFFF
    requires k < |comps| && Leads(t, ip, comps, k, d) && comps[k] == name && d != gone
    ensures Look(t, ip, comps, false) == NotFound && DirIn(u, d)
    ensures Look(u, ip, comps, false) ==
      if Lookup(u[d].slots, name) == 0xFFFF then NotFound
      else Look(u, Lookup(u[d].slots, name), comps[k + 1..], false)
    decreases k
  {
    hide DifferIn, Lookup, Leads;
    AnswersAt(t, u, d, name, gone, d, name);
    AnswersAt(t, u, d, name, gone, ip, comps[0]);
    LeadsStep(t, ip, comps, if k > 0 then k - 1 else 0, d);
    if k > 0 {
      assert comps[1..][k - 1] == name && comps[1..][k..] == comps[k + 1..];
      NewPaths(t, u, Lookup(t[ip].slots, comps[0]), comps[1..], k - 1, d, name, gone);
    }
  }

  /** A path that asks for an entry that goes leads nowhere then. */
  lemma {:induction false} OldPaths(t: Tree, u: Tree, ip: int, comps: seq<seq<char>>, d: int, name: seq<char>,
                                    gone: int)
    requires DifferIn(t, u, d, name, gone) && ip != gone && DirIn(t, d) && d != gone
    requires DirIn(u, d) ==> Lookup(u[d].slots, name) == 0xFFFF
    requires Passes(t, ip, comps, d, name)
    ensures Look(u, ip, comps, false) == NotFound
    decreases |comps|
  {
    hide DifferIn, Lookup, Passes;
    assert comps != [] by { assert Passes(t, ip, comps, d, name); PassedIsLong(t, ip, comps, d, name); }
    AnswersAt(t, u, d, name, gone, ip, comps[0]);
    PassesStep(t, ip, comps, d, name);
    if !(ip == d && comps[0] == name) {
      OldPaths(t, u, Lookup(t[ip].slots, comps[0]), comps[1..], d, name, gone);
    }
  }

  lemma PassedIsLong(t: Tree, ip: int, comps: seq<seq<char>>, d: int, name: seq<char>)
    requires Passes(t, ip, comps, d, name)
    ensures comps != []
  {
  }

  // ---------- one entry more ----------

  /** `u` has the entry `name` in `d` for `n`, which no other entry of `t` leads to or which is in both trees. */
  lemma AnswersAdded(t: Tree, u: Tree, d: int, k: nat, x: Slot, i: int, c: seq<char>)
    requires DirIn(t, d) && SlotsOk(t[d].slots) && k < 32 && !Used(t[d].slots[k]) && Used(x)
    requires SlotsOk(t[d].slots[k := x]) && DirIn(t, i) && DirIn(u, i)
    requires u[i].slots == if i == d then t[d].slots[k := x] else t[i].slots
    ensures Lookup(u[i].slots, c) == if i == d && c == Text(x.name) then x.inum else Lookup(t[i].slots, c)
    ensures Lookup(t[d].slots, Text(x.name)) == 0xFFFF
  {
    var s := t[d].slots;
    var after := s[k := x];
    EntriesHas(s, Text(x.name));
    forall j | 0 <= j < |s| ensures !Names(s[j], Text(x.name)) {
      assert after[k] == x && (j != k ==> after[j] == s[j]);
    }
    assert FieldOk(after[k].name) && 0 <= after[k].inum < 0xFFFF;
    AddOk(s, k, x);
  }

  lemma TargetsKnown(t: Tree, i: int, c: seq<char>, gone: int)
    requires DirsOk(t) && DirIn(t, i) && gone !in t && gone != 0xFFFF
    ensures Lookup(t[i].slots, c) != gone
  {
    if Lookup(t[i].slots, c) != 0xFFFF { LookupFound(t, i, c); }
  }

  lemma CreateDiffers(t: Tree, u: Tree, d: int, k: nat, x: Slot, kind: Kind)
    requires TreeOk(t) && Creates(t, u, d, k, x, kind)
    ensures DifferIn(t, u, d, Text(x.name), x.inum) && DirIn(t, d) && d != x.inum
    ensures Lookup(t[d].slots, Text(x.name)) == 0xFFFF
    ensures DirIn(u, d) && Lookup(u[d].slots, Text(x.name)) == x.inum != 0xFFFF
  {
    hide Lookup, Text, Used, SlotsOk, Entries, DirsOk, AllNamed, AllCounted;
    AnswersAdded(t, u, d, k, x, d, Text(x.name));
    forall i | i != x.inum ensures SameAnswers(t, u, i, d, Text(x.name), x.inum) {
      if DirIn(t, i) {
        forall c | !(i == d && c == Text(x.name)) ensures Lookup(u[i].slots, c) == Lookup(t[i].slots, c) != x.inum {
          AnswersAdded(t, u, d, k, x, i, c);
          TargetsKnown(t, i, c, x.inum);
        }
      }
    }
  }

  lemma LinkDiffers(t: Tree, u: Tree, d: int, k: nat, x: Slot)
    requires TreeOk(t) && LinkCount.Links(t, u, d, k, x)
    ensures DifferIn(t, u, d, Text(x.name), -1) && DirIn(t, d) && d != -1
    ensures Lookup(t[d].slots, Text(x.name)) == 0xFFFF
    ensures DirIn(u, d) && Lookup(u[d].slots, Text(x.name)) == x.inum != 0xFFFF && x.inum in u && !DirIn(u, x.inum)
  {
    hide Lookup, Text, Used, SlotsOk, Entries, DirsOk, AllNamed, AllCounted;
    AnswersAdded(t, u, d, k, x, d, Text(x.name));
    forall i ensures SameAnswers(t, u, i, d, Text(x.name), -1) {
      if DirIn(t, i) {
        forall c | !(i == d && c == Text(x.name)) ensures Lookup(u[i].slots, c) == Lookup(t[i].slots, c) != -1 {
          AnswersAdded(t, u, d, k, x, i, c);
          TargetsKnown(t, i, c, -1);
        }
      }
    }
  }

  /** The path's last component is `name` in `d`: it leads to the entry and not through it. */
  ghost predicate EndsAt(t: Tree, comps: seq<seq<char>>, d: int, name: seq<char>) {
    comps != [] && Leads(t, 0, comps, |comps| - 1, d) && comps[|comps| - 1] == name
  }

  /**
   * A created inode is found by every path to its place, what was found by any
   * path before still is, and with a file nothing else is found.
   */
  lemma CreatedPaths(t: Tree, u: Tree, d: int, k: nat, x: Slot, kind: Kind, comps: seq<seq<char>>)
    requires TreeOk(t) && Creates(t, u, d, k, x, kind)
    ensures EndsAt(t, comps, d, Text(x.name)) ==>
      Look(t, 0, comps, false) == NotFound && Look(u, 0, comps, false) == Inode(x.inum)
    ensures Look(t, 0, comps, false).Inode? ==> Look(u, 0, comps, false) == Look(t, 0, comps, false)
    ensures kind != IsDir && !EndsAt(t, comps, d, Text(x.name)) ==>
      Look(u, 0, comps, false) == Look(t, 0, comps, false)
  {
    var name := Text(x.name);
    CreateDiffers(t, u, d, k, x, kind);
    CreateInum(t, u, d, k, x, kind);
    AddedPaths(t, u, d, name, x.inum, x.inum, comps);
  }

  /** A linked file is found by every path to the new name, and nothing else changes for any path. */
  lemma LinkedPaths(t: Tree, u: Tree, d: int, k: nat, x: Slot, comps: seq<seq<char>>)
    requires TreeOk(t) && LinkCount.Links(t, u, d, k, x)
    ensures EndsAt(t, comps, d, Text(x.name)) ==> Look(t, 0, comps, false) == NotFound
    ensures Look(u, 0, comps, false) ==
      if EndsAt(t, comps, d, Text(x.name)) then Inode(x.inum) else Look(t, 0, comps, false)
  {
    LinkDiffers(t, u, d, k, x);
    AddedPaths(t, u, d, Text(x.name), x.inum, -1, comps);
  }

  /** With entry `name` of `d` for `n` added. */
  lemma AddedPaths(t: Tree, u: Tree, d: int, name: seq<char>, n: int, gone: int, comps: seq<seq<char>>)
    requires DifferIn(t, u, d, name, gone) && DirIn(t, d) && d != gone && Lookup(t[d].slots, name) == 0xFFFF
    requires DirIn(u, d) && Lookup(u[d].slots, name) == n != 0xFFFF
    ensures EndsAt(t, comps, d, name) ==>
      Look(t, 0, comps, false) == NotFound && Look(u, 0, comps, false) == Inode(n)
    ensures Look(t, 0, comps, false).Inode? ==> Look(u, 0, comps, false) == Look(t, 0, comps, false)
    ensures !DirIn(u, n) && !EndsAt(t, comps, d, name) ==> Look(u, 0, comps, false) == Look(t, 0, comps, false)
  {
    hide DifferIn, Lookup, Leads;
    assert 0 != gone by { assert DifferIn(t, u, d, name, gone); ZeroStays(t, u, d, name, gone); }
    if Passes(t, 0, comps, d, name) {
      var k: nat :| k < |comps| && Leads(t, 0, comps, k, d) && comps[k] == name;
      NewPaths(t, u, 0, comps, k, d, name, gone);
      assert k + 1 == |comps| || comps[k + 1..] != [];
    } else {
      OtherPaths(t, u, 0, comps, d, name, gone);
    }
    if EndsAt(t, comps, d, name) {
      NewPaths(t, u, 0, comps, |comps| - 1, d, name, gone);
    }
  }

  lemma ZeroStays(t: Tree, u: Tree, d: int, name: seq<char>, gone: int)
    requires DifferIn(t, u, d, name, gone)
    ensures 0 != gone
  {
  }

  // ---------- one entry less ----------

  /** `gone` is the unlinked inode when it leaves the tree, and nothing otherwise. */
  function Leaves(u: Tree, n: int): int {
    if n in u then -1 else n
  }

  lemma UnlinkDiffers(t: Tree, u: Tree, d: int, k: nat, x: Slot, n: int)
    requires TreeOk(t) && LinkCount.Unlinks(t, u, d, k, x, n)
    ensures DifferIn(t, u, d, Text(t[d].slots[k].name), Leaves(u, n)) && DirIn(t, d) && d != Leaves(u, n)
    ensures DirIn(u, d) && Lookup(u[d].slots, Text(t[d].slots[k].name)) == 0xFFFF
  {
    hide Lookup, Text, Used, Entries, DirsOk, AllNamed, AllCounted, Live, NamesOf, SubDirs;
    UnlinkedIs(t, u, d, k, x, n);
    GoneIs(t, u, d, k, n);
    var name := Text(t[d].slots[k].name);
    Deleted(t[d].slots, k, x, name);
    forall i | i != Leaves(u, n) ensures SameAnswers(t, u, i, d, name, Leaves(u, n)) {
      UnlinkAnswers(t, u, d, k, x, n, i);
    }
  }

  lemma Deleted(slots: seq<Slot>, k: nat, x: Slot, c: seq<char>)
    requires SlotsOk(slots) && k < 32 && Used(slots[k]) && !Used(x) && SlotsOk(slots[k := x])
    ensures Lookup(slots[k := x], c) == if c == Text(slots[k].name) then 0xFFFF else Lookup(slots, c)
  {
    assert FieldOk(slots[k := x][k].name);
    DeleteOk(slots, k, x);
  }

  lemma UnlinkAnswers(t: Tree, u: Tree, d: int, k: nat, x: Slot, n: int, i: int)
    requires TreeOk(t) && LinkCount.Unlinks(t, u, d, k, x, n) && Gone(t, u, d, k, n) && i != Leaves(u, n)
    ensures SameAnswers(t, u, i, d, Text(t[d].slots[k].name), Leaves(u, n))
  {
    hide Lookup, Text, Used, Entries, DirsOk, AllNamed, AllCounted, Live, NamesOf, SubDirs, Gone;
    UnlinkSlots(t, u, d, k, x, n, i);
    UnlinkShape(t, u, d, k, x, n);
    if DirIn(t, i) {
      forall c | !(i == d && c == Text(t[d].slots[k].name))
        ensures Lookup(u[i].slots, c) == Lookup(t[i].slots, c) != Leaves(u, n)
      {
        if i == d { Deleted(t[d].slots, k, x, c); }
        AnswerStays(t, u, d, k, n, i, c);
      }
    }
  }

  /** No other entry leads to what leaves the tree. */
  lemma AnswerStays(t: Tree, u: Tree, d: int, k: nat, n: int, i: int, c: seq<char>)
    requires TreeOk(t) && Gone(t, u, d, k, n) && DirIn(t, i) && i != Leaves(u, n) && DirIn(t, d)
    requires k < |t[d].slots| && !(i == d && c == Text(t[d].slots[k].name))
    ensures Lookup(t[i].slots, c) != Leaves(u, n)
  {
    assert n in t;
    hide Text, Used, Entries, DirsOk, AllNamed, AllCounted, NamesOf, SubDirs, Gone, SlotsOk;
    LookupIn(t, i, c);
    EntriesHas(t[i].slots, c);
    if c in Entries(t[i].slots) {
      var j: nat :| j < |t[i].slots| && Names(t[i].slots[j], c);
      BlockSlots(t[i].slots);
      SlotIn(t[i].slots, j);
      DirAt(t, i);
      if n !in u {
        NoOtherNames(t, u, d, k, n, i, j);
      }
    }
    assert Leaves(u, n) != 0xFFFF by { assert n in t; }
  }

  lemma BlockSlots(slots: seq<Slot>)
    requires SlotsOk(slots)
    ensures |slots| == 32
  {
  }

  /** After an unlink the paths that ask for the entry lead nowhere, and all others lead where they led. */
  lemma UnlinkedPaths(t: Tree, u: Tree, d: int, k: nat, x: Slot, n: int, comps: seq<seq<char>>)
    requires TreeOk(t) && LinkCount.Unlinks(t, u, d, k, x, n)
    ensures Look(u, 0, comps, false) ==
      if Passes(t, 0, comps, d, Text(t[d].slots[k].name)) then NotFound else Look(t, 0, comps, false)
  {
    var name := Text(t[d].slots[k].name);
    UnlinkDiffers(t, u, d, k, x, n);
    hide Lookup, Text, TreeOk, LinkCount.Unlinks;
    ZeroStays(t, u, d, name, Leaves(u, n));
    if Passes(t, 0, comps, d, name) {
      OldPaths(t, u, 0, comps, d, name, Leaves(u, n));
    } else {
      OtherPaths(t, u, 0, comps, d, name, Leaves(u, n));
    }
  }

  // ---------- there and back ----------

  lemma PassesAt(t: Tree, comps: seq<seq<char>>, d: int, name: seq<char>, k: nat)
    requires k < |comps| && Leads(t, 0, comps, k, d) && comps[k] == name
    ensures Passes(t, 0, comps, d, name)
  {
  }

  /** `v` is `u` without the entry that `u` has more than `t`, in which paths that ask for it lead nowhere. */
  ghost predicate AddedAndGone(t: Tree, u: Tree, v: Tree, d: int, name: seq<char>, n: int) {
    && n != d
    && forall q :: AddedFor(t, u, v, d, name, n, q)
  }

  ghost predicate AddedFor(t: Tree, u: Tree, v: Tree, d: int, name: seq<char>, n: int, q: seq<seq<char>>) {
    && Look(u, 0, q, false) == (if EndsAt(t, q, d, name) then Inode(n) else Look(t, 0, q, false))
    && (Passes(t, 0, q, d, name) ==> Look(t, 0, q, false) == NotFound)
    && Look(v, 0, q, false) == (if Passes(u, 0, q, d, name) then NotFound else Look(u, 0, q, false))
  }

  lemma BackAgain(t: Tree, u: Tree, v: Tree, d: int, name: seq<char>, n: int, comps: seq<seq<char>>)
    requires AddedAndGone(t, u, v, d, name, n)
    ensures Look(v, 0, comps, false) == Look(t, 0, comps, false)
  {
    hide Look, Passes, EndsAt, Leads;
    assert AddedFor(t, u, v, d, name, n, comps);
    if Passes(u, 0, comps, d, name) {
      var j := PassedAt(u, comps, d, name);
      SamePrefix(t, u, v, d, name, n, comps, j);
      PassesAt(t, comps, d, name, j);
    } else if EndsAt(t, comps, d, name) {
      var j := |comps| - 1;
      EndIs(t, comps, d, name);
      PassesAt(t, comps, d, name, j);
      SamePrefix(t, u, v, d, name, n, comps, j);
      PassesAt(u, comps, d, name, j);
    }
  }

  lemma SamePrefix(t: Tree, u: Tree, v: Tree, d: int, name: seq<char>, n: int, comps: seq<seq<char>>, j: nat)
    requires AddedAndGone(t, u, v, d, name, n) && j < |comps|
    ensures Leads(u, 0, comps, j, d) <==> Leads(t, 0, comps, j, d)
  {
    hide Look, Passes, EndsAt;
    var q := comps[..j];
    assert AddedFor(t, u, v, d, name, n, q);
    if EndsAt(t, q, d, name) {
      EndIs(t, q, d, name);
      PassesAt(t, q, d, name, |q| - 1);
    }
  }

  lemma EndIs(t: Tree, comps: seq<seq<char>>, d: int, name: seq<char>)
    requires EndsAt(t, comps, d, name)
    ensures comps != [] && Leads(t, 0, comps, |comps| - 1, d) && comps[|comps| - 1] == name
  {
  }

  lemma PassedAt(t: Tree, comps: seq<seq<char>>, d: int, name: seq<char>) returns (k: nat)
    requires Passes(t, 0, comps, d, name)
    ensures k < |comps| && Leads(t, 0, comps, k, d) && comps[k] == name
  {
    k :| k < |comps| && Leads(t, 0, comps, k, d) && comps[k] == name;
  }

  lemma NowherePassed(t: Tree, u: Tree, d: int, name: seq<char>, gone: int, comps: seq<seq<char>>)
    requires DifferIn(t, u, d, name, gone) && DirIn(t, d) && d != gone && Lookup(t[d].slots, name) == 0xFFFF
    ensures Passes(t, 0, comps, d, name) ==> Look(t, 0, comps, false) == NotFound
  {
    ZeroStays(t, u, d, name, gone);
    hide DifferIn, Look, Lookup, Passes;
    if Passes(t, 0, comps, d, name) {
      var k := PassedAt(t, comps, d, name);
      NewPaths(t, u, 0, comps, k, d, name, gone);
    }
  }

  /** Taking a link away again leaves every path leading where it led before. */
  lemma LinkThenUnlink(t: Tree, u: Tree, v: Tree, d: int, k: nat, x: Slot, k2: nat, x2: Slot, comps: seq<seq<char>>)
    requires TreeOk(t) && LinkCount.Links(t, u, d, k, x) && LinkCount.Unlinks(u, v, d, k2, x2, x.inum)
    requires k2 < |u[d].slots| && Text(u[d].slots[k2].name) == Text(x.name)
    ensures Look(v, 0, comps, false) == Look(t, 0, comps, false)
  {
    var name := Text(x.name);
    hide Text, LinkCount.Links, LinkCount.Unlinks, TreeOk, Look, Lookup, DifferIn, Passes, EndsAt;
    LinkKeeps(t, u, d, k, x);
    LinkDiffers(t, u, d, k, x);
    UnlinkShape(u, v, d, k2, x2, x.inum);
    forall q ensures AddedFor(t, u, v, d, name, x.inum, q) {
      LinkedPaths(t, u, d, k, x, q);
      NowherePassed(t, u, d, name, -1, q);
      UnlinkedPaths(u, v, d, k2, x2, x.inum, q);
    }
    hide AddedFor;
    BackAgain(t, u, v, d, name, x.inum, comps);
  }

  /** So does unlinking a file that was created. */
  lemma CreateThenUnlink(t: Tree, u: Tree, v: Tree, d: int, k: nat, x: Slot, kind: Kind, k2: nat, x2: Slot,
                         comps: seq<seq<char>>)
    requires TreeOk(t) && Creates(t, u, d, k, x, kind) && kind != IsDir && LinkCount.Unlinks(u, v, d, k2, x2, x.inum)
    requires k2 < |u[d].slots| && Text(u[d].slots[k2].name) == Text(x.name)
    ensures Look(v, 0, comps, false) == Look(t, 0, comps, false)
  {
    var name := Text(x.name);
    hide Text, Creates, LinkCount.Unlinks, TreeOk, Look, Lookup, DifferIn, Passes, EndsAt;
    CreateKeeps(t, u, d, k, x, kind);
    CreateDiffers(t, u, d, k, x, kind);
    UnlinkShape(u, v, d, k2, x2, x.inum);
    forall q ensures AddedFor(t, u, v, d, name, x.inum, q) {
      CreatedPaths(t, u, d, k, x, kind, q);
      NowherePassed(t, u, d, name, x.inum, q);
      UnlinkedPaths(u, v, d, k2, x2, x.inum, q);
    }
    hide AddedFor;
    BackAgain(t, u, v, d, name, x.inum, comps);
  }
}
