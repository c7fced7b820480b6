/** The panics of the path operations (kernel/fs/dir.c:281-479), each on a small tree of its own. */
module PathPanics {
  import opened Dir
  import opened Path
  import opened LinkCount
  import opened PathWalk
  import opened FileTree
  import InodeCache

  // ---------- a root directory with m files ----------

  function Padded(s: seq<char>): seq<char> {
    seq(30, i requires 0 <= i < 30 => CharAt(s, i))
  }

  /** ".", "..", then one letter each, from a on. */
  function NameAt(k: nat): seq<char>
    requires k < 32
  {
    if k == 0 then "." else if k == 1 then ".." else [(95 + k) as char]
  }

  function EntryAt(k: nat, m: nat): Slot
    requires k < 32
  {
    if k < 2 + m then Slot(if k < 2 then 0 else k - 1, Padded(NameAt(k))) else Slot(0, Padded(""))
  }

  function RootBlock(m: nat): seq<Slot> {
    seq(32, k requires 0 <= k < 32 => EntryAt(k, m))
  }

  predicate Numbered(i: int, m: nat) {
    0 <= i <= m
  }

  function Crowd(m: nat): Tree {
    map i: int | 0 <= i <= m && Numbered(i, m) :: if i == 0 then Node(IsDir, 1, 1024, RootBlock(m))
        else Node(IsFile, 1, 0, [])
  }

  lemma TextAt(k: nat, m: nat)
    requires k < 32
    ensures Text(EntryAt(k, m).name) == if k < 2 + m then NameAt(k) else ""
    ensures FieldOk(EntryAt(k, m).name)
  {
    TextIs(EntryAt(k, m).name, if k < 2 + m then NameAt(k) else "");
  }

  lemma NamesDiffer(j: nat, k: nat)
    requires j < k < 32
    ensures NameAt(j) != NameAt(k)
  {
  }

  lemma BlockOk(m: nat)
    requires m <= 30
    ensures SlotsOk(RootBlock(m))
    ensures forall k: nat :: k < 32 ==> (Used(RootBlock(m)[k]) <==> k < 2 + m)
  {
    var slots := RootBlock(m);
    hide Text, Padded;
    forall k: nat | k < 32
      ensures FieldOk(slots[k].name) && (Used(slots[k]) <==> k < 2 + m) && 0 <= slots[k].inum < 0xFFFF
    {
      TextAt(k, m);
    }
    forall j: nat, k: nat | j < k < 32 && Used(slots[j]) && Used(slots[k])
        ensures Text(slots[j].name) != Text(slots[k].name) {
      TextAt(j, m);
      TextAt(k, m);
      NamesDiffer(j, k);
    }
  }

  lemma NameIs(m: nat, e: int, k: int, n: int)
    requires m <= 30
    ensures IsName(Crowd(m), e, k, n) <==> e == 0 && 2 <= k < 2 + m && n == k - 1
  {
    hide Text, Padded;
    if 0 <= k < 32 {
      TextAt(k, m);
      BlockOk(m);
    }
  }

  lemma LookupIs(m: nat, k: nat)
    requires m <= 30 && k < 2 + m
    ensures NameAt(k) in Entries(RootBlock(m)) && Lookup(RootBlock(m), NameAt(k)) == if k < 2 then 0 else k - 1
  {
    hide Text, Padded, Entries;
    BlockOk(m);
    TextAt(k, m);
    SlotIn(RootBlock(m), k);
  }

  lemma CrowdOk(m: nat)
    requires m <= 30
    ensures TreeOk(Crowd(m))
  {
    hide Text, Padded, Entries, IsName;
    var t := Crowd(m);
    BlockOk(m);
    LookupIs(m, 0);
    LookupIs(m, 1);
    assert DirOk(t, 0);
    forall n | n in t ensures NamesOk(t, n) {
      CrowdNames(m, n);
    }
    assert SubDirs(t, 0) == {};
  }

  lemma CrowdNames(m: nat, n: int)
    requires m <= 30 && 0 <= n <= m
    ensures NamesOf(Crowd(m), n) == if n == 0 then {} else {(0, n + 1)}
  {
    hide IsName;
    forall e, k ensures IsName(Crowd(m), e, k, n) <==> n > 0 && e == 0 && k == n + 1 {
      NameIs(m, e, k, n);
    }
  }

  function Links(m: nat): map<int, InodeCache.Meta> {
    map i: int | 0 <= i <= m && Numbered(i, m) :: InodeCache.Meta(1, 0)
  }

  // ---------- one panic each ----------

  lemma Paths()
    ensures Components("a") == ["a"] && Components("a/b") == ["a", "b"] && Components("!") == ["!"]
    ensures NoNul("a") && NoNul("a/b") && NoNul("!")
  {
    hide Fields;
    Single("a");
    Single("!");
    Single("b");
    FieldsOf("a/b", [], 1);
    assert [] + "a/b"[..1] == "a" && "a/b"[1..] == "/b" && "/b"[1..] == "b";
    SlashesSkipped("/b");
  }

  lemma Single(s: seq<char>)
    requires |s| == 1 && s[0] != '/'
    ensures Components(s) == [s]
  {
    FieldsOf(s, [], 1);
    assert [] + s[..1] == s && s[1..] == [];
  }

  lemma RootIs(m: nat, name: seq<char>)
    requires m <= 30
    ensures Target(Crowd(m), [name], 0, name) && Look(Crowd(m), 0, [name], true) == Inode(0)
    ensures Lookup(RootBlock(m), name) != 0xFFFF ==>
            Look(Crowd(m), 0, [name], false) == Inode(Lookup(RootBlock(m), name))
  {
    hide Lookup;
    var n := Lookup(RootBlock(m), name);
    assert Look(Crowd(m), 0, [name], false) == if n == 0xFFFF then NotFound else Look(Crowd(m), n, [name][1..], false);
  }

  lemma NoSuchName(m: nat)
    requires m <= 30
    ensures "!" !in Entries(RootBlock(m))
  {
    hide Text, Padded;
    EntriesHas(RootBlock(m), "!");
    forall k: nat | k < 32 ensures !Names(RootBlock(m)[k], "!") {
      TextAt(k, m);
    }
  }

  /** path_create_inode in a root directory of 32 entries. */
  method FullParent() returns (o: Outcome)
    ensures o == Panic
  {
    hide TreeOk, Entries, RootBlock, Fields, Look, Agree, InodeCache.CacheIs;
    CrowdOk(30);
    BlockOk(30);
    Paths();
    RootIs(30, "!");
    NoSuchName(30);
    var fs := new Fs(Crowd(30), Links(31));
    o := fs.Create("!", IsFile, 31, true, map[0 := 1]);
  }

  /** path_link to a name below the file that is to be linked. */
  method LinkThroughItself() returns (o: Outcome)
    ensures o == Panic
  {
    hide TreeOk, Entries, RootBlock, Fields, Look, Lookup, Agree, InodeCache.CacheIs;
    CrowdOk(1);
    Paths();
    LookupIs(1, 2);
    RootIs(1, "a");
    var fs := new Fs(Crowd(1), Links(1));
    ghost var comps := ["a", "b"];
    assert comps[..1] == ["a"];
    assert Leads(Crowd(1), 0, comps, 1, 1);
    assert PassesHeld(Crowd(1), 0, comps, {1});
    o := fs.Link("a", "a/b", map[0 := 1]);
  }

  /** path_unlink of the only name of a file that is not open. */
  method LastNameGoes() returns (o: Outcome)
    ensures o == PanicsAtEnd(1)
  {
    hide TreeOk, Entries, RootBlock, Fields, Look, Lookup, Agree, InodeCache.CacheIs;
    CrowdOk(1);
    Paths();
    LookupIs(1, 2);
    RootIs(1, "a");
    var fs := new Fs(Crowd(1), Links(1));
    assert NamesChild(Crowd(1), ["a"], 0, 1);
    assert MayUnlink(Crowd(1), ["a"], 1);
    assert |InodeCache.Took(map[0 := 1], 0)| == 1;
    o := fs.Unlink("a", map[0 := 1]);
  }
}
