/** One directory (kernel/fs/dir.c:10-138): 32 entries in a block, as a map from names to inode numbers. */
module Dir {

  const UNUSED: int := 0xFFFF

  /** A dirent_t: the name is a 30-byte field, free when it starts with NUL. */
  datatype Slot = Slot(inum: int, name: seq<char>)

  // ---------- names in fixed fields ----------

  predicate NoNul(s: seq<char>) {
    forall i :: 0 <= i < |s| ==> s[i] != '\0'
  }

  /** The C string at the start of a field. */
  function Text(field: seq<char>): seq<char> {
    if field == [] || field[0] == '\0' then [] else [field[0]] + Text(field[1..])
  }

  predicate FieldOk(field: seq<char>) {
    |field| == 30 && field[29] == '\0'
  }

  /** Byte `i` of a NUL-terminated string. */
  function CharAt(s: seq<char>, i: nat): char {
    if i < |s| then s[i] else '\0'
  }

  /** The text is the part of the field before its first NUL. */
  lemma {:induction false} TextShape(field: seq<char>)
    ensures NoNul(Text(field)) && |Text(field)| <= |field|
    ensures forall i :: 0 <= i < |Text(field)| ==> field[i] == Text(field)[i]
    ensures |Text(field)| < |field| ==> field[|Text(field)|] == '\0'
  {
    if field != [] && field[0] != '\0' {
      TextShape(field[1..]);
    }
  }

  lemma TextIs(field: seq<char>, s: seq<char>)
    requires NoNul(s)
    ensures Text(field) == s <==>
      |s| <= |field| && (forall i :: 0 <= i < |s| ==> field[i] == s[i]) && (|s| < |field| ==> field[|s|] == '\0')
  {
    TextShape(field);
  }

  /** strncmp(field, s, 30) == 0, as the loop it is. */
  method SameName(field: seq<char>, s: seq<char>) returns (same: bool)
    requires FieldOk(field) && NoNul(s)
    ensures same <==> Text(field) == s
  {
    TextIs(field, s);
    var n := 0;
    while n < 30 && field[n] != '\0' && field[n] == CharAt(s, n)
      invariant 0 <= n < 30 && n <= |s| && forall i :: 0 <= i < n ==> field[i] == s[i]
    {
      n := n + 1;
    }
    same := n == 30 || field[n] == CharAt(s, n);
  }

  /** strncpy into a field, with the last byte cleared. */
  method PutName(s: seq<char>) returns (field: seq<char>)
    requires NoNul(s)
    ensures FieldOk(field) && Text(field) == (if |s| < 30 then s else s[..29])
  {
    field := seq(30, i requires 0 <= i < 30 => CharAt(s, i));
    field := field[29 := '\0'];
    if |s| < 30 {
      TextIs(field, s);
    } else {
      TextIs(field, s[..29]);
    }
  }

  // ---------- a directory as a map ----------

  predicate Used(x: Slot) {
    Text(x.name) != []
  }

  /** The map that a run of entries stands for. */
  function Entries(slots: seq<Slot>): map<seq<char>, int> {
    if slots == [] then map[]
    else
      var m := Entries(slots[..|slots| - 1]);
      var x := slots[|slots| - 1];
      if Used(x) then m[Text(x.name) := x.inum] else m
  }

  /** 32 entries with distinct names and real inode numbers. */
  predicate SlotsOk(slots: seq<Slot>) {
    && |slots| == 32
    && (forall k {:trigger slots[k]} :: 0 <= k < 32 ==>
        FieldOk(slots[k].name) && (Used(slots[k]) ==> 0 <= slots[k].inum < 0xFFFF))
    && (forall j, k :: 0 <= j < k < 32 && Used(slots[j]) && Used(slots[k]) ==>
        Text(slots[j].name) != Text(slots[k].name))
  }

  predicate Names(x: Slot, name: seq<char>) {
    Used(x) && Text(x.name) == name
  }

  predicate UniqueNames(slots: seq<Slot>) {
    forall j, k :: 0 <= j < k < |slots| && Used(slots[j]) && Used(slots[k]) ==>
        Text(slots[j].name) != Text(slots[k].name)
  }

  lemma {:induction false} EntriesHas(slots: seq<Slot>, name: seq<char>)
    ensures name in Entries(slots) <==> exists k :: 0 <= k < |slots| && Names(slots[k], name)
  {
    if slots != [] {
      var n := |slots| - 1;
      EntriesHas(slots[..n], name);
      if k :| 0 <= k < |slots| && Names(slots[k], name) {
        assert k < n ==> slots[..n][k] == slots[k];
      }
      if k :| 0 <= k < n && Names(slots[..n][k], name) {
        assert Names(slots[k], name);
      }
      assert Names(slots[n], name) ==> name in Entries(slots);
    }
  }

  lemma {:induction false} EntriesAt(slots: seq<Slot>, k: nat)
    requires UniqueNames(slots) && k < |slots| && Used(slots[k])
    ensures Text(slots[k].name) in Entries(slots) && Entries(slots)[Text(slots[k].name)] == slots[k].inum
  {
    var n := |slots| - 1;
    if k < n {
      EntriesAt(slots[..n], k);
      assert slots[..n][k] == slots[k];
    }
  }

  /** Two runs of entries that differ in one entry stand for maps that differ in its name only. */
  lemma SlotSet(slots: seq<Slot>, k: nat, x: Slot)
    requires k < |slots| && UniqueNames(slots) && UniqueNames(slots[k := x]) && !Used(slots[k])
    ensures Entries(slots[k := x]) == if Used(x) then Entries(slots)[Text(x.name) := x.inum] else Entries(slots)
  {
    var t := slots[k := x];
    var want := if Used(x) then Entries(slots)[Text(x.name) := x.inum] else Entries(slots);
    forall name ensures name in Entries(t) <==> name in want {
      EntriesHas(slots, name);
      EntriesHas(t, name);
      if i :| 0 <= i < |slots| && Names(slots[i], name) { assert Names(t[i], name); }
      if i :| 0 <= i < |t| && Names(t[i], name) { assert i != k ==> Names(slots[i], name); }
      assert Used(x) && name == Text(x.name) ==> Names(t[k], name);
    }
    forall name | name in Entries(t) ensures Entries(t)[name] == want[name] {
      EntriesHas(t, name);
      var i :| 0 <= i < |t| && Names(t[i], name);
      EntriesAt(t, i);
      if i != k {
        EntriesAt(slots, i);
        assert t[i] == slots[i] && t[k] == x;
        assert Used(x) ==> name != Text(x.name) by { assert i < k || k < i; }
      } else {
        assert name == Text(x.name);
      }
    }
  }

  lemma SlotCleared(slots: seq<Slot>, k: nat, x: Slot)
    requires k < |slots| && UniqueNames(slots) && Used(slots[k]) && !Used(x)
    ensures UniqueNames(slots[k := x]) && Entries(slots[k := x]) == Entries(slots) - {Text(slots[k].name)}
  {
    var t := slots[k := x];
    assert t[k := slots[k]] == slots;
    SlotSet(t, k, slots[k]);
    EntriesHas(t, Text(slots[k].name));
    forall i | 0 <= i < |t| ensures !Names(t[i], Text(slots[k].name)) {
    }
    assert Entries(slots) == Entries(t)[Text(slots[k].name) := slots[k].inum];
    assert Entries(slots) - {Text(slots[k].name)} == Entries(t);
  }

  function Lookup(slots: seq<Slot>, name: seq<char>): int {
    if name in Entries(slots) then Entries(slots)[name] else 0xFFFF
  }

  /** What a lookup finds: the number of the entry with the name. */
  lemma LookupIs(slots: seq<Slot>, name: seq<char>, n: int)
    requires SlotsOk(slots) && NoNul(name)
    ensures Lookup(slots, name) == n && n != 0xFFFF <==>
      exists k :: 0 <= k < 32 && Used(slots[k]) && Text(slots[k].name) == name && slots[k].inum == n
    ensures Lookup(slots, name) == 0xFFFF <==>
      forall k :: 0 <= k < 32 && Used(slots[k]) ==> Text(slots[k].name) != name
  {
    EntriesHas(slots, name);
    if name in Entries(slots) {
      var k :| 0 <= k < |slots| && Names(slots[k], name);
      EntriesAt(slots, k);
    }
    forall k | 0 <= k < 32 && Used(slots[k]) && Text(slots[k].name) == name
        ensures Lookup(slots, name) == slots[k].inum {
      EntriesAt(slots, k);
    }
  }

  /** A new entry for a name that is not there yet, in a free place. */
  lemma AddOk(slots: seq<Slot>, k: nat, x: Slot)
    requires SlotsOk(slots) && k < 32 && !Used(slots[k]) && FieldOk(x.name) && 0 <= x.inum < 0xFFFF
    requires Text(x.name) !in Entries(slots)
    ensures SlotsOk(slots[k := x])
    ensures Entries(slots[k := x]) == if Used(x) then Entries(slots)[Text(x.name) := x.inum] else Entries(slots)
  {
    var t := slots[k := x];
    forall i | 0 <= i < 32 && i != k && Used(slots[i]) ensures Text(slots[i].name) != Text(x.name) {
      EntriesHas(slots, Text(x.name));
      assert !Names(slots[i], Text(x.name));
    }
    SlotSet(slots, k, x);
  }

  lemma DeleteOk(slots: seq<Slot>, k: nat, x: Slot)
    requires SlotsOk(slots) && k < 32 && Used(slots[k]) && FieldOk(x.name) && !Used(x)
    ensures SlotsOk(slots[k := x]) && Entries(slots[k := x]) == Entries(slots) - {Text(slots[k].name)}
  {
    SlotCleared(slots, k, x);
  }

  /** At most 32 names. */
  lemma {:induction false} AtMostSlots(slots: seq<Slot>)
    ensures |Entries(slots)| <= |slots|
  {
    if slots != [] {
      AtMostSlots(slots[..|slots| - 1]);
      var m, x := Entries(slots[..|slots| - 1]), slots[|slots| - 1];
      assert m[Text(x.name) := x.inum].Keys == m.Keys + {Text(x.name)};
      assert |m.Keys| == |m| && |m[Text(x.name) := x.inum].Keys| == |m[Text(x.name) := x.inum]|;
    }
  }

  /** The entries in use, in their order. */
  function Live(slots: seq<Slot>): seq<Slot> {
    if slots == [] then [] else Live(slots[..|slots| - 1]) + (if Used(slots[|slots| - 1]) then [slots[|slots| - 1]]
        else [])
  }

  /** The places of the used entries before place `k`. */
  ghost function UsedBefore(slots: seq<Slot>, k: nat): set<int>
    requires k <= |slots|
  {
    set i: int | 0 <= i < k && Used(slots[i])
  }

  /** A used entry comes as many places into the list as there are used entries before it. */
  lemma {:induction false} LiveAt(slots: seq<Slot>, k: nat)
    requires k < |slots| && Used(slots[k])
    ensures |UsedBefore(slots, k)| < |Live(slots)| && Live(slots)[|UsedBefore(slots, k)|] == slots[k]
  {
    LiveSize(slots[..k]);
    assert UsedBefore(slots[..k], k) == UsedBefore(slots, k);
    LivePrefix(slots, k + 1);
    assert slots[..k + 1][..k] == slots[..k] && slots[..k + 1][k] == slots[k];
  }

  lemma {:induction false} LiveSize(slots: seq<Slot>)
    ensures |Live(slots)| == |UsedBefore(slots, |slots|)|
  {
    if slots != [] {
      var n := |slots| - 1;
      LiveSize(slots[..n]);
      assert UsedBefore(slots[..n], n) == UsedBefore(slots, n);
      assert UsedBefore(slots, n + 1) == UsedBefore(slots, n) + (if Used(slots[n]) then {n} else {});
    }
  }

  class Directory {
    var slots: seq<Slot>
    var size: nat

    /** The directory's block, read into a buffer. */
    constructor (slots: seq<Slot>, size: nat)
      ensures this.slots == slots && this.size == size
    {
      this.slots, this.size := slots, size;
    }

    /** The entry with a name; 32 when there is none. */
    method Find(name: seq<char>) returns (k: nat)
      requires SlotsOk(slots) && NoNul(name)
      ensures k <= 32 && (k < 32 <==> name in Entries(slots))
      ensures k < 32 ==> Names(slots[k], name) && Entries(slots)[name] == slots[k].inum
    {
      EntriesHas(slots, name);
      k := 0;
      while k < 32
        invariant k <= 32 && forall i :: 0 <= i < k ==> !Names(slots[i], name)
      {
        if slots[k].name[0] != '\0' {
          var same := SameName(slots[k].name, name);
          if same {
            EntriesAt(slots, k);
            return;
          }
        }
        k := k + 1;
      }
    }

    /** dir_search_entry */
    method Search(name: seq<char>) returns (inum: int)
      requires SlotsOk(slots) && NoNul(name)
      ensures inum == Lookup(slots, name) && (inum == 0xFFFF <==> name !in Entries(slots))
    {
      var k := Find(name);
      inum := if k < 32 then slots[k].inum else 0xFFFF;
    }

    /** dir_add_entry: its offset, or 1024 when the name is too long or taken, or no place is free. */
    method Add(inum: int, name: seq<char>) returns (offset: nat)
      requires SlotsOk(slots) && NoNul(name) && 0 <= inum < 0xFFFF
      modifies this
      ensures SlotsOk(slots)
      ensures offset == 1024 <==> |name| >= 30 || name in Entries(old(slots)) || forall i :: 0 <= i < 32 ==>
              Used(old(slots)[i])
      ensures offset == 1024 ==> slots == old(slots) && size == old(size)
      ensures offset != 1024 ==>
              offset % 32 == 0 && offset < 1024 && !Used(old(slots)[offset / 32]) && size == offset + 32
      ensures offset != 1024 ==> forall i :: 0 <= i < offset / 32 ==> Used(old(slots)[i])
      ensures offset != 1024 ==> slots == old(slots)[offset / 32 := slots[offset / 32]]
      ensures offset != 1024 ==> slots[offset / 32].inum == inum && Text(slots[offset / 32].name) == name
      ensures offset != 1024 ==>
        Entries(slots) == if name == [] then Entries(old(slots)) else Entries(old(slots))[name := inum]
    {
      if |name| >= 30 {
        return 1024;
      }
      var there := Search(name);
      if there != 0xFFFF {
        return 1024;
      }
      var k := 0;
      while k < 32
        invariant 0 <= k <= 32 && slots == old(slots) && size == old(size)
        invariant forall i :: 0 <= i < k ==> Used(slots[i])
      {
        if slots[k].name[0] == '\0' {
          var field := PutName(name);
          AddOk(slots, k, Slot(inum, field));
          slots := slots[k := Slot(inum, field)];
          size := k * 32 + 32;
          return k * 32;
        }
        k := k + 1;
      }
      offset := 1024;
    }

    /** dir_delete_entry */
    method Delete(name: seq<char>) returns (inum: int, ghost at: nat)
      requires SlotsOk(slots) && NoNul(name)
      modifies `slots
      ensures SlotsOk(slots) && inum == Lookup(old(slots), name)
      ensures inum == 0xFFFF ==> slots == old(slots)
      ensures inum != 0xFFFF ==> Entries(slots) == Entries(old(slots)) - {name}
      ensures inum != 0xFFFF ==>
              at < 32 && Names(old(slots)[at], name) && old(slots)[at].inum == inum && !Used(slots[at])
      ensures inum != 0xFFFF ==> slots == old(slots)[at := slots[at]]
    {
      var k := Find(name);
      if k == 32 {
        return 0xFFFF, 0;
      }
      inum, at := slots[k].inum, k;
      var x := slots[k].(name := slots[k].name[0 := '\0'], inum := 0xFFFF);
      DeleteOk(slots, k, x);
      slots := slots[k := x];
    }

    /** dir_get_entries: the first entries in use, as many as fit into `len` bytes. */
    method GetEntries(len: nat) returns (out: seq<Slot>)
      requires SlotsOk(slots)
      ensures |out| == var n := |UsedBefore(slots, 32)|; if n * 32 <= len then n else len / 32
      ensures forall k :: 0 <= k < 32 && Used(slots[k]) && |UsedBefore(slots, k)| < len / 32 ==>
        |UsedBefore(slots, k)| < |out| && out[|UsedBefore(slots, k)|] == slots[k]
      ensures |out| <= |Live(slots)| && out == Live(slots)[..|out|]
      ensures |out| == if |Live(slots)| * 32 <= len then |Live(slots)| else len / 32
    {
      out := [];
      var k := 0;
      while k < 32 && |out| * 32 + 32 <= len
        invariant 0 <= k <= 32 && out == Live(slots[..k]) && |out| * 32 <= len
      {
        assert slots[..k + 1][..k] == slots[..k];
        if slots[k].name[0] != '\0' {
          out := out + [slots[k]];
        }
        k := k + 1;
      }
      LivePrefix(slots, k);
      assert slots[..32] == slots;
      LiveSize(slots);
      forall k | 0 <= k < 32 && Used(slots[k]) ensures |UsedBefore(slots, k)| < |Live(slots)|
        && Live(slots)[|UsedBefore(slots, k)|] == slots[k]
      {
        LiveAt(slots, k);
      }
    }
  }

  lemma {:induction false} LivePrefix(slots: seq<Slot>, k: nat)
    requires k <= |slots|
    ensures |Live(slots[..k])| <= |Live(slots)| && Live(slots[..k]) == Live(slots)[..|Live(slots[..k])|]
  {
    if k < |slots| {
      var n := |slots| - 1;
      LivePrefix(slots[..n], k);
      assert slots[..n][..k] == slots[..k];
    } else {
      assert slots[..k] == slots;
    }
  }

  /** As many entries are in use as there are names. */
  lemma {:induction false} LiveCount(slots: seq<Slot>)
    requires UniqueNames(slots)
    ensures |Live(slots)| == |Entries(slots)|
  {
    if slots != [] {
      var n := |slots| - 1;
      var m, x := Entries(slots[..n]), slots[n];
      LiveCount(slots[..n]);
      if Used(x) {
        EntriesHas(slots[..n], Text(x.name));
        assert forall i :: 0 <= i < n ==> slots[..n][i] == slots[i];
        assert Text(x.name) !in m;
        assert m[Text(x.name) := x.inum].Keys == m.Keys + {Text(x.name)};
        assert |m.Keys| == |m| && |m[Text(x.name) := x.inum].Keys| == |m[Text(x.name) := x.inum]|;
      }
    }
  }
}
