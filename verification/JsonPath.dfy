/** Setting a dot-path in a JSON tree, and the laws that fix what that changes. */
module JsonPath {
  import opened Basics
  import opened JsonTree

  /** The first value on the way down the path that is not an object, if there is one. */
  function Blocker(j: Json, path: seq<string>): Option<Json>
    requires path != []
  {
    if !j.Object? then Some(j)
    else if |path| == 1 || path[0] !in j.fields then None
    else Blocker(j.fields[path[0]], path[1..])
  }

  function Child(j: Json, key: string): Json
    requires j.Object?
  {
    if key in j.fields then j.fields[key] else Object(map[])
  }

  function SetPath(j: Json, path: seq<string>, v: Json): Json
    requires path != [] && Blocker(j, path).None?
    decreases |path|
  {
    Object(j.fields[path[0] := if |path| == 1 then v else SetPath(Child(j, path[0]), path[1..], v)])
  }

  function Lookup(j: Json, path: seq<string>): Option<Json> {
    if path == [] then Some(j)
    else if j.Object? && path[0] in j.fields then Lookup(j.fields[path[0]], path[1..])
    else None
  }

  /** Below the path there is exactly the new value. */
  lemma {:induction false} SetThenLookup(j: Json, p: seq<string>, v: Json, q: seq<string>)
    requires p != [] && Blocker(j, p).None?
    ensures Lookup(SetPath(j, p, v), p + q) == Lookup(v, q)
    decreases |p|
  {
    assert (p + q)[1..] == p[1..] + q;
    if |p| == 1 {
      assert p[1..] + q == q;
    } else {
      SetThenLookup(Child(j, p[0]), p[1..], v, q);
    }
  }

  /** Every path that neither leads to the set one nor continues it is untouched. */
  lemma {:induction false} SetFrame(j: Json, p: seq<string>, v: Json, q: seq<string>)
    requires p != [] && Blocker(j, p).None?
    requires !(p <= q) && !(q <= p)
    ensures Lookup(SetPath(j, p, v), q) == Lookup(j, q)
    decreases |p|
  {
    if p[0] == q[0] {
      assert p == [p[0]] + p[1..] && q == [q[0]] + q[1..];
      if |p| > 1 {
        SetFrame(Child(j, p[0]), p[1..], v, q[1..]);
      }
    }
  }

  /** Only the last value set at a path matters. */
  lemma {:induction false} SetTwice(j: Json, p: seq<string>, v: Json, w: Json)
    requires p != [] && Blocker(j, p).None?
    ensures Blocker(SetPath(j, p, v), p).None? && SetPath(SetPath(j, p, v), p, w) == SetPath(j, p, w)
    decreases |p|
  {
    if |p| > 1 {
      SetTwice(Child(j, p[0]), p[1..], v, w);
    }
  }
}
