/** Path names (kernel/fs/dir.c:184-276): components, and walking them through directories. */
module Path {
  import opened Dir

  // ---------- components ----------

  function Cut(name: seq<char>): seq<char> {
    if |name| >= 30 then name[..29] else name
  }

  function Flush(field: seq<char>): seq<seq<char>> {
    if field == [] then [] else [Cut(field)]
  }

  /** The fields between slashes, the empty ones dropped, each cut to 29 characters; `field` was read already. */
  function Fields(path: seq<char>, field: seq<char>): seq<seq<char>> {
    if path == [] then Flush(field)
    else if path[0] == '/' then Flush(field) + Fields(path[1..], [])
    else Fields(path[1..], field + [path[0]])
  }

  function Components(path: seq<char>): seq<seq<char>> {
    Fields(path, [])
  }

  lemma SlashesSkipped(path: seq<char>)
    requires path != [] && path[0] == '/'
    ensures Components(path) == Components(path[1..])
  {
  }

  lemma {:induction false} FieldsOf(path: seq<char>, field: seq<char>, n: nat)
    requires n <= |path| && (forall i :: 0 <= i < n ==> path[i] != '/') && (n < |path| ==> path[n] == '/')
    ensures Fields(path, field) == Flush(field + path[..n]) + Components(path[n..])
  {
    if n == 0 {
      assert field + path[..0] == field;
      if path != [] {
        SlashesSkipped(path);
        assert path[0..] == path;
      }
    } else {
      FieldsOf(path[1..], field + [path[0]], n - 1);
      assert field + [path[0]] + path[1..][..n - 1] == field + path[..n];
      assert path[1..][n - 1..] == path[n..];
    }
  }

  lemma {:induction false} ComponentsOk(path: seq<char>, field: seq<char>)
    requires NoNul(path) && NoNul(field)
    ensures forall c :: c in Fields(path, field) ==> c != [] && |c| < 30 && NoNul(c)
  {
    if path != [] {
      if path[0] == '/' { ComponentsOk(path[1..], []); } else { ComponentsOk(path[1..], field + [path[0]]); }
    }
  }

  // ---------- what that means for the characters of a path ----------

  /** Nothing but slashes. */
  predicate Slashes(path: seq<char>) {
    forall i :: 0 <= i < |path| ==> path[i] == '/'
  }

  predicate NoSlash(path: seq<char>) {
    forall i :: 0 <= i < |path| ==> path[i] != '/'
  }

  /** `path` is slashes, then the non-empty field `f` up to the next slash or the end, then `rest`. */
  predicate FirstField(path: seq<char>, lead: seq<char>, f: seq<char>, rest: seq<char>) {
    && path == lead + f + rest && Slashes(lead) && f != [] && NoSlash(f) && (rest == [] || rest[0] == '/')
  }

  lemma {:induction false} LeadSkipped(lead: seq<char>, path: seq<char>)
    requires Slashes(lead)
    ensures Components(lead + path) == Components(path)
    ensures Components(lead) == []
  {
    if lead == [] {
      assert lead + path == path;
    } else {
      assert (lead + path)[1..] == lead[1..] + path;
      SlashesSkipped(lead + path);
      SlashesSkipped(lead);
      LeadSkipped(lead[1..], path);
    }
  }

  /** The first component is the first field, cut to 29 characters when it has 30 or more; the others are the rest's. */
  lemma ComponentsStep(path: seq<char>, lead: seq<char>, f: seq<char>, rest: seq<char>)
    requires FirstField(path, lead, f, rest)
    ensures Components(path) == [if |f| < 30 then f else f[..29]] + Components(rest)
  {
    assert path == lead + (f + rest);
    LeadSkipped(lead, f + rest);
    FieldsOf(f + rest, [], |f|);
    assert (f + rest)[..|f|] == f && (f + rest)[|f|..] == rest;
    assert [] + (f + rest)[..|f|] == f;
    assert Flush(f) == [if |f| < 30 then f else f[..29]];
  }

  /** A path has no components exactly when it is slashes only; any other one has a first field. */
  lemma NoComponents(path: seq<char>)
    ensures Components(path) == [] <==> Slashes(path)
    ensures Slashes(path) || exists lead, f, rest :: FirstField(path, lead, f, rest)
  {
    hide Fields;
    if Slashes(path) {
      LeadSkipped(path, []);
    } else {
      var lead, f, rest := FieldIn(path);
      ComponentsStep(path, lead, f, rest);
      assert |Components(path)| >= 1;
    }
  }

  lemma FieldIn(path: seq<char>) returns (lead: seq<char>, f: seq<char>, rest: seq<char>)
    requires !Slashes(path)
    ensures FirstField(path, lead, f, rest)
  {
    var i := 0;
    while path[i] == '/'
      invariant 0 <= i < |path| && (forall j :: 0 <= j < i ==> path[j] == '/')
      invariant exists j :: i <= j < |path| && path[j] != '/'
      decreases |path| - i
    {
      i := i + 1;
    }
    var n := i;
    while n < |path| && path[n] != '/'
      invariant i <= n <= |path| && forall j :: i <= j < n ==> path[j] != '/'
      decreases |path| - n
    {
      n := n + 1;
    }
    lead, f, rest := path[..i], path[i..n], path[n..];
    assert path == lead + f + rest;
  }

  /** Names written one after the other, each after a slash. */
  function Join(names: seq<seq<char>>): seq<char> {
    if names == [] then [] else ['/'] + names[0] + Join(names[1..])
  }

  /** Components that are short names without slashes come back from a path that joins them. */
  lemma {:induction false} JoinedBack(names: seq<seq<char>>)
    requires forall i :: 0 <= i < |names| ==> names[i] != [] && |names[i]| < 30 && NoSlash(names[i])
    ensures Components(Join(names)) == names
  {
    if names != [] {
      ComponentsStep(Join(names), ['/'], names[0], Join(names[1..]));
      JoinedBack(names[1..]);
      assert [names[0]] + names[1..] == names;
    }
  }

  /**
   * skip_element: the first component and the rest without leading slashes, or
   * nothing when there is none. The path is `lead`, the field `f`, `gap` and the rest.
   */
  method SkipElement(path: seq<char>)
      returns (more: bool, rest: seq<char>, name: seq<char>, ghost lead: seq<char>, ghost f: seq<char>,
               ghost gap: seq<char>)
    requires NoNul(path)
    ensures more <==> Components(path) != []
    ensures more <==> !Slashes(path)
    ensures more ==> FirstField(path, lead, f, gap + rest) && Slashes(gap) && (rest != [] ==> rest[0] != '/')
    ensures more ==> name == if |f| < 30 then f else f[..29]
    ensures more ==> name == Components(path)[0] && Components(rest) == Components(path)[1..]
    ensures more ==> |rest| < |path| && NoNul(rest)
    ensures more ==> (rest == [] <==> |Components(path)| == 1)
  {
    hide Fields, FirstField;
    NoComponents(path);
    var p := path;
    lead, f, gap := [], [], [];
    while p != [] && p[0] == '/'
      invariant path == lead + p && Slashes(lead) && NoNul(p)
      decreases |p|
    {
      lead := lead + [p[0]];
      p := p[1..];
    }
    if p == [] {
      return false, [], [], lead, f, gap;
    }
    var len := 0;
    while len < |p| && p[len] != '/'
      invariant len <= |p| && forall i :: 0 <= i < len ==> p[i] != '/'
    {
      len := len + 1;
    }
    f := p[..len];
    name := if len >= 30 then p[..29] else p[..len];
    rest := p[len..];
    while rest != [] && rest[0] == '/'
      invariant p[len..] == gap + rest && Slashes(gap) && NoNul(rest)
      decreases |rest|
    {
      gap := gap + [rest[0]];
      rest := rest[1..];
    }
    more := true;
    Skipped(path, lead, p, len, gap, rest);
  }

  /** What the loops have found. */
  lemma Skipped(path: seq<char>, lead: seq<char>, p: seq<char>, len: nat, gap: seq<char>, rest: seq<char>)
    requires path == lead + p && Slashes(lead) && 0 < len <= |p| && p[len..] == gap + rest && Slashes(gap)
    requires (forall i :: 0 <= i < len ==> p[i] != '/') && (len < |p| ==> p[len] == '/')
    requires rest != [] ==> rest[0] != '/'
    ensures FirstField(path, lead, p[..len], gap + rest)
    ensures Components(path) == [if len < 30 then p[..len] else p[..29]] + Components(rest)
    ensures !Slashes(path) && |rest| < |path| && (rest == [] <==> Components(rest) == [])
  {
    assert path == lead + p[..len] + (gap + rest);
    assert p[len..] != [] ==> p[len..][0] == p[len];
    assert path[|lead|] == p[0];
    assert len >= 30 ==> p[..len][..29] == p[..29];
    hide Fields;
    ComponentsStep(path, lead, p[..len], gap + rest);
    LeadSkipped(gap, rest);
    NoComponents(rest);
  }
}
