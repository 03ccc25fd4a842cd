/** Composite record ids: the parts joined with "/" when a resource is
    created ("project/role", "role/member", "project/role/member",
    "image/project"), and split again on "/" by Read, Update and Delete, which
    pick parts by index. */
module CompositeId {
  import opened Remote

  const Separator: char := '/'

  /** strings.Join(parts, "/"). */
  function Join(parts: seq<string>): (id: string)
    ensures |parts| == 1 ==> id == parts[0]
    ensures |parts| >= 2 ==> id == parts[0] + [Separator] + Join(parts[1..])
    decreases |parts|
  {
    if parts == [] then ""
    else if |parts| == 1 then parts[0]
    else parts[0] + [Separator] + Join(parts[1..])
  }

  /** How many separators `id` contains. */
  function Separators(id: string): nat
    decreases |id|
  {
    if id == [] then 0 else (if id[0] == Separator then 1 else 0) + Separators(id[1..])
  }

  /** strings.Split(id, "/"): the maximal slash-free pieces between the
      separators, in order; there is always at least one (Split("") == [""]),
      and there is one more piece than there are separators. */
  function Split(id: string): (parts: seq<string>)
    ensures |parts| >= 1
    ensures forall k :: 0 <= k < |parts| ==> Separator !in parts[k]
    ensures |parts| == Separators(id) + 1
    decreases |id|
  {
    if id == [] then [""]
    else
      var rest := Split(id[1..]);
      assert id == [id[0]] + id[1..];
      if id[0] == Separator then [""] + rest
      else [[id[0]] + rest[0]] + rest[1..]
  }

  /** strings.Split(id, "/")[0], ..., [n - 1] as the resources index them:
      the first n pieces, or, when there are fewer, the error for the first
      index out of range (a runtime panic in the provider). Pieces past the
      n-th are ignored. */
  function Parts(id: string, n: nat): (r: Outcome<seq<string>>)
    ensures r.Ok? <==> n <= Separators(id) + 1
    ensures r.Ok? ==> |r.value| == n && r.value == Split(id)[..n]
    ensures r.Ok? ==> forall k :: 0 <= k < n ==> Separator !in r.value[k]
    ensures r.Err? ==> r.error == IndexOutOfRange(id, Separators(id) + 1)
  {
    var pieces := Split(id);
    if n <= |pieces| then Ok(pieces[..n]) else Err(IndexOutOfRange(id, |pieces|))
  }

  /** Splitting a slash-free prefix followed by more text: the prefix is
      glued to the first piece of the rest. */
  lemma {:induction false} SplitPrefix(p: string, s: string)
    requires Separator !in p
    ensures Split(p + s) == [p + Split(s)[0]] + Split(s)[1..]
    decreases |p|
  {
    if p != [] {
      var ps := p + s;
      assert ps[0] == p[0] && ps[1..] == p[1..] + s;
      SplitPrefix(p[1..], s);
      assert [p[0]] + (p[1..] + Split(s)[0]) == p + Split(s)[0];
    } else {
      assert p + s == s;
      assert p + Split(s)[0] == Split(s)[0];
      assert Split(s) == [Split(s)[0]] + Split(s)[1..];
    }
  }

  /** Splitting a joined id gives back its parts, provided none contains the
      separator (and there is at least one part). */
  lemma {:induction false} SplitJoin(parts: seq<string>)
    requires |parts| >= 1
    requires forall k :: 0 <= k < |parts| ==> Separator !in parts[k]
    ensures Split(Join(parts)) == parts
    decreases |parts|
  {
    if |parts| == 1 {
      SplitPrefix(parts[0], "");
      assert parts[0] + "" == parts[0];
    } else {
      var tail := Join(parts[1..]);
      SplitJoin(parts[1..]);
      SplitPrefix(parts[0], [Separator] + tail);
      assert parts[0] + ([Separator] + tail) == parts[0] + [Separator] + tail;
      var rest := [Separator] + tail;
      assert rest[0] == Separator && rest[1..] == tail;
      assert Split(rest) == [""] + parts[1..];
      assert parts[0] + "" == parts[0];
      assert parts == [parts[0]] + parts[1..];
    }
  }

  /** Joining the pieces of a split gives back the id: no id is lost or
      altered by splitting. */
  lemma {:induction false} JoinSplit(id: string)
    ensures Join(Split(id)) == id
    decreases |id|
  {
    if id != [] {
      JoinSplit(id[1..]);
      var rest := Split(id[1..]);
      assert id == [id[0]] + id[1..];
      if id[0] == Separator {
        assert ([""] + rest)[1..] == rest;
      } else {
        var parts := [[id[0]] + rest[0]] + rest[1..];
        assert parts[1..] == rest[1..];
        if |rest| >= 2 {
          assert Join(rest) == rest[0] + [Separator] + Join(rest[1..]);
        }
      }
    }
  }

  /** A part that contains the separator breaks the round trip: the id
      built from "a/b" and "c" splits into three parts. */
  lemma SlashInPartBreaksSplit()
    ensures Split(Join(["a/b", "c"])) == ["a", "b", "c"]
  {
    assert Join(["a/b", "c"]) == "a/b/c";
    SplitJoin(["a", "b", "c"]);
    assert Join(["a", "b", "c"]) == "a/b/c";
  }

  /** The parts of an id the resources built are the parts they read back
      when none contains the separator; asking for one more part fails. */
  lemma PartsOfJoin(parts: seq<string>)
    requires |parts| >= 1
    requires forall k :: 0 <= k < |parts| ==> Separator !in parts[k]
    ensures Parts(Join(parts), |parts|) == Ok(parts)
    ensures Parts(Join(parts), |parts| + 1).Err?
  {
    SplitJoin(parts);
    assert Split(Join(parts))[..|parts|] == parts;
  }

  /** The two parts of an id "first/second", as the role and member of a
      system policy member or the image and project of an image member, or
      the error of indexing it. */
  function Pair(id: string): (r: Outcome<(string, string)>)
    ensures r.Ok? <==> Parts(id, 2).Ok?
    ensures r.Ok? ==> r.value == (Split(id)[0], Split(id)[1])
    ensures r.Err? ==> r.error == Parts(id, 2).error
  {
    var parts := Parts(id, 2);
    if parts.Err? then Err(parts.error) else Ok((parts.value[0], parts.value[1]))
  }

  /** An id built from two parts names them again when neither contains the
      separator. */
  lemma PairOfJoin(first: string, second: string)
    requires Separator !in first && Separator !in second
    ensures Pair(Join([first, second])) == Ok((first, second))
  {
    PartsOfJoin([first, second]);
  }

  /** Separators of a concatenation add up. */
  lemma {:induction false} SeparatorsAppend(a: string, b: string)
    ensures Separators(a + b) == Separators(a) + Separators(b)
    decreases |a|
  {
    if a == [] {
      assert a + b == b;
    } else {
      assert (a + b)[0] == a[0] && (a + b)[1..] == a[1..] + b;
      SeparatorsAppend(a[1..], b);
    }
  }

  /** A joined id always has at least as many pieces as it was built from,
      whatever the parts contain, so indexing it by part never fails. */
  lemma {:induction false} JoinKeepsParts(parts: seq<string>)
    requires |parts| >= 1
    ensures Separators(Join(parts)) + 1 >= |parts|
    ensures Parts(Join(parts), |parts|).Ok?
    decreases |parts|
  {
    if |parts| >= 2 {
      JoinKeepsParts(parts[1..]);
      SeparatorsAppend(parts[0] + [Separator], Join(parts[1..]));
      SeparatorsAppend(parts[0], [Separator]);
      assert Separators([Separator]) == 1;
    }
  }
}
