/** How many elements of a sequence have a property, and how one update changes that. */
module Counting {

  function Count<T>(s: seq<T>, has: T -> bool): nat
    decreases |s|
  {
    if s == [] then 0 else Count(s[..|s| - 1], has) + if has(s[|s| - 1]) then 1 else 0
  }

  function One(b: bool): nat {
    if b then 1 else 0
  }

  lemma {:induction false} CountUpdate<T>(s: seq<T>, i: nat, x: T, has: T -> bool)
    requires i < |s|
    ensures Count(s[i := x], has) + One(has(s[i])) == Count(s, has) + One(has(x))
    decreases |s|
  {
    var n := |s| - 1;
    if i == n {
      assert s[i := x][..n] == s[..n];
    } else {
      CountUpdate(s[..n], i, x, has);
      assert s[i := x][..n] == s[..n][i := x];
    }
  }

  lemma {:induction false} CountNone<T>(s: seq<T>, has: T -> bool)
    requires forall x :: x in s ==> !has(x)
    ensures Count(s, has) == 0
    decreases |s|
  {
    if s != [] {
      CountNone(s[..|s| - 1], has);
    }
  }

  lemma {:induction false} CountMonotone<T>(s: seq<T>, has: T -> bool, also: T -> bool)
    requires forall x :: x in s && has(x) ==> also(x)
    ensures Count(s, has) <= Count(s, also)
    decreases |s|
  {
    if s != [] {
      assert s[|s| - 1] in s;
      CountMonotone(s[..|s| - 1], has, also);
    }
  }

  lemma {:induction false} CountEqual<T>(s: seq<T>, has: T -> bool, also: T -> bool)
    requires forall x :: x in s ==> has(x) == also(x)
    ensures Count(s, has) == Count(s, also)
  {
    CountMonotone(s, has, also);
    CountMonotone(s, also, has);
  }

  lemma {:induction false} CountPositive<T>(s: seq<T>, has: T -> bool) returns (i: nat)
    requires Count(s, has) > 0
    ensures i < |s| && has(s[i])
    decreases |s|
  {
    if has(s[|s| - 1]) {
      i := |s| - 1;
    } else {
      i := CountPositive(s[..|s| - 1], has);
    }
  }

  lemma {:induction false} CountMember<T>(s: seq<T>, i: nat, has: T -> bool)
    requires i < |s| && has(s[i])
    ensures Count(s, has) > 0
    decreases |s|
  {
    if i < |s| - 1 {
      CountMember(s[..|s| - 1], i, has);
    }
  }
}
