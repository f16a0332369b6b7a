/** Strict total orders, sorting by one, and the order Go's `<` puts on strings.
    `sort.Slice` and `sort.Strings` promise no more than a sorted permutation; the
    uniqueness lemma says that under a strict total order there is only one. */
module Ordering {

  ghost predicate StrictTotalOn<T>(less: (T, T) -> bool, s: set<T>) {
    && (forall a :: a in s ==> !less(a, a))
    && (forall a, b, c :: a in s && b in s && c in s && less(a, b) && less(b, c) ==> less(a, c))
    && (forall a, b :: a in s && b in s && a != b ==> less(a, b) || less(b, a))
  }

  /** A strict order whose ties are interchangeable. */
  ghost predicate WeakOn<T>(less: (T, T) -> bool, s: set<T>) {
    && (forall a :: a in s ==> !less(a, a))
    && (forall a, b :: a in s && b in s && less(a, b) ==> !less(b, a))
    && (forall a, b, c :: a in s && b in s && c in s && !less(a, b) && !less(b, c) ==> !less(a, c))
  }

  lemma TotalIsWeak<T>(less: (T, T) -> bool, s: set<T>)
    requires StrictTotalOn(less, s)
    ensures WeakOn(less, s)
  {
  }

  ghost predicate Sorted<T>(s: seq<T>, less: (T, T) -> bool) {
    forall i, j :: 0 <= i < j < |s| ==> !less(s[j], s[i])
  }

  ghost predicate NoDup<T>(s: seq<T>) {
    forall i, j :: 0 <= i < j < |s| ==> s[i] != s[j]
  }

  function Elements<T>(s: seq<T>): set<T> {
    set x | x in s
  }

  /** The position-preserving insertion a sort is built from. */
  function Insert<T>(x: T, s: seq<T>, less: (T, T) -> bool): seq<T> {
    if s == [] then [x]
    else if less(s[0], x) then [s[0]] + Insert(x, s[1..], less)
    else [x] + s
  }

  function Sort<T>(s: seq<T>, less: (T, T) -> bool): seq<T> {
    if s == [] then [] else Insert(s[0], Sort(s[1..], less), less)
  }

  lemma {:induction false} InsertKeeps<T>(x: T, s: seq<T>, less: (T, T) -> bool)
    ensures multiset(Insert(x, s, less)) == multiset(s) + multiset{x}
    ensures |Insert(x, s, less)| == |s| + 1
  {
    if s == [] {
    } else if less(s[0], x) {
      InsertKeeps(x, s[1..], less);
      assert s == [s[0]] + s[1..];
    } else {
      assert [x] + s == Insert(x, s, less);
    }
  }

  lemma {:induction false} SortPermutes<T>(s: seq<T>, less: (T, T) -> bool)
    ensures multiset(Sort(s, less)) == multiset(s)
    ensures |Sort(s, less)| == |s|
    ensures Elements(Sort(s, less)) == Elements(s)
  {
    if s == [] {
    } else {
      SortPermutes(s[1..], less);
      InsertKeeps(s[0], Sort(s[1..], less), less);
      assert s == [s[0]] + s[1..];
    }
    SameMultisetSameElements(Sort(s, less), s);
  }

  lemma SameMultisetSameElements<T>(s: seq<T>, t: seq<T>)
    requires multiset(s) == multiset(t)
    ensures Elements(s) == Elements(t)
    ensures |s| == |t|
    ensures forall x :: x in s <==> x in t
  {
    assert |s| == |multiset(s)| && |t| == |multiset(t)|;
    forall x ensures x in s <==> x in t {
      assert x in s <==> x in multiset(s);
      assert x in t <==> x in multiset(t);
    }
  }

  lemma {:induction false} InsertSorted<T>(x: T, s: seq<T>, less: (T, T) -> bool, dom: set<T>)
    requires WeakOn(less, dom) && x in dom && Elements(s) <= dom
    requires Sorted(s, less)
    ensures Sorted(Insert(x, s, less), less)
  {
    if s != [] {
      assert s[0] in Elements(s);
      if less(s[0], x) {
        assert Elements(s[1..]) <= Elements(s);
        InsertSorted(x, s[1..], less, dom);
        InsertKeeps(x, s[1..], less);
        var t := Insert(x, s[1..], less);
        forall j | 0 <= j < |t| ensures !less(t[j], s[0]) {
          assert t[j] in multiset(t);
          if t[j] != x {
            assert t[j] in s[1..];
          }
        }
        assert Insert(x, s, less) == [s[0]] + t;
      } else {
        forall j | 0 <= j < |s| ensures !less(s[j], x) {
          assert s[j] in Elements(s);
          assert j > 0 ==> !less(s[j], s[0]);
        }
        assert Insert(x, s, less) == [x] + s;
      }
    }
  }

  lemma {:induction false} SortSortsIn<T>(s: seq<T>, less: (T, T) -> bool, dom: set<T>)
    requires WeakOn(less, dom) && Elements(s) <= dom
    ensures Sorted(Sort(s, less), less)
  {
    if s != [] {
      assert Elements(s[1..]) <= Elements(s);
      SortSortsIn(s[1..], less, dom);
      SortPermutes(s[1..], less);
      assert s[0] in Elements(s);
      InsertSorted(s[0], Sort(s[1..], less), less, dom);
    }
  }

  lemma SortSorts<T>(s: seq<T>, less: (T, T) -> bool)
    requires StrictTotalOn(less, Elements(s))
    ensures Sorted(Sort(s, less), less)
  {
    TotalIsWeak(less, Elements(s));
    SortSortsIn(s, less, Elements(s));
  }

  lemma SortedHeads<T>(s: seq<T>, t: seq<T>, less: (T, T) -> bool)
    requires StrictTotalOn(less, Elements(s))
    requires Sorted(s, less) && Sorted(t, less)
    requires multiset(s) == multiset(t) && s != []
    ensures t != [] && s[0] == t[0]
  {
    SameMultisetSameElements(s, t);
    assert s[0] in t && t[0] in s;
    var i :| 0 <= i < |s| && s[i] == t[0];
    var j :| 0 <= j < |t| && t[j] == s[0];
    assert s[0] in Elements(s) && t[0] in Elements(s);
  }

  /** Two sorted arrangements of the same elements are the same sequence. */
  lemma {:induction false} SortedUnique<T>(s: seq<T>, t: seq<T>, less: (T, T) -> bool)
    requires StrictTotalOn(less, Elements(s))
    requires Sorted(s, less) && Sorted(t, less)
    requires multiset(s) == multiset(t)
    ensures s == t
  {
    SameMultisetSameElements(s, t);
    if s != [] {
      SortedHeads(s, t, less);
      assert s == [s[0]] + s[1..] && t == [t[0]] + t[1..];
      assert multiset(s[1..]) == multiset(s) - multiset{s[0]};
      assert multiset(t[1..]) == multiset(t) - multiset{t[0]};
      assert Elements(s[1..]) <= Elements(s);
      SortedUnique(s[1..], t[1..], less);
    }
  }

  /** Sorting forgets the order its input came in. */
  lemma SortOfPermutation<T>(s: seq<T>, t: seq<T>, less: (T, T) -> bool)
    requires StrictTotalOn(less, Elements(s))
    requires multiset(s) == multiset(t)
    ensures Sort(s, less) == Sort(t, less)
  {
    SameMultisetSameElements(s, t);
    SortSorts(s, less);
    SortSorts(t, less);
    SortPermutes(s, less);
    SortPermutes(t, less);
    SortedUnique(Sort(s, less), Sort(t, less), less);
  }

  lemma NoDupCount<T>(s: seq<T>)
    requires NoDup(s)
    ensures multiset(s) == multiset(Elements(s))
    ensures |s| == |Elements(s)|
  {
    if s == [] {
    } else {
      var n := |s| - 1;
      assert s == s[..n] + [s[n]];
      NoDupCount(s[..n]);
      assert s[n] !in s[..n];
      assert Elements(s) == Elements(s[..n]) + {s[n]};
    }
  }

  lemma SubsetSize<T>(a: set<T>, b: set<T>)
    requires a <= b
    ensures |a| <= |b|
    ensures |a| == |b| ==> a == b
  {
    assert b == a + (b - a);
    assert |b| == |a| + |b - a|;
  }

  lemma NoDupPermutation<T>(s: seq<T>, t: seq<T>)
    requires NoDup(s) && NoDup(t) && Elements(s) == Elements(t)
    ensures multiset(s) == multiset(t)
  {
    NoDupCount(s);
    NoDupCount(t);
  }

  lemma NoDupFromMultiset<T>(s: seq<T>, t: seq<T>)
    requires NoDup(s) && multiset(s) == multiset(t)
    ensures NoDup(t)
  {
    NoDupCount(s);
    forall i, j | 0 <= i < j < |t| ensures t[i] != t[j] {
      assert t == t[..i] + [t[i]] + t[i+1..j] + [t[j]] + t[j+1..];
      assert multiset(t)[t[i]] >= if t[i] == t[j] then 2 else 1;
      assert multiset(Elements(s))[t[i]] <= 1;
    }
  }

  lemma RemoveAt<T>(t: seq<T>, i: nat)
    requires i < |t|
    ensures multiset(t) == multiset(t[..i] + t[i+1..]) + multiset{t[i]}
  {
    assert t == t[..i] + [t[i]] + t[i+1..];
  }

  // ----- first occurrences -----

  /** The first occurrence of every element, in order. */
  function Dedupe<T(==)>(s: seq<T>): seq<T>
    decreases |s|
  {
    if s == [] then []
    else
      var n := |s| - 1;
      if s[n] in s[..n] then Dedupe(s[..n]) else Dedupe(s[..n]) + [s[n]]
  }

  lemma {:induction false} DedupeFacts<T>(s: seq<T>)
    ensures NoDup(Dedupe(s)) && Elements(Dedupe(s)) == Elements(s)
    decreases |s|
  {
    if s != [] {
      var n := |s| - 1;
      DedupeFacts(s[..n]);
      assert s == s[..n] + [s[n]];
      var d := Dedupe(s[..n]);
      forall x ensures x in d <==> x in s[..n] {
        assert x in Elements(d) <==> x in Elements(s[..n]);
      }
      assert Elements(s) == Elements(s[..n]) + {s[n]};
      if s[n] !in s[..n] {
        assert Dedupe(s) == d + [s[n]];
        assert Elements(Dedupe(s)) == Elements(d) + {s[n]};
      }
    }
  }

  method RemoveDuplicates<T(==)>(items: seq<T>) returns (out: seq<T>)
    ensures out == Dedupe(items)
  {
    var seen: set<T> := {};
    out := [];
    for i := 0 to |items|
      invariant seen == Elements(items[..i]) && out == Dedupe(items[..i])
    {
      assert items[..i + 1][..i] == items[..i];
      if items[i] !in seen {
        seen := seen + {items[i]};
        out := out + [items[i]];
      }
    }
    assert items[..|items|] == items;
  }

  // ----- Go's order on strings: byte by byte, a proper prefix first -----

  predicate LexLess(a: string, b: string) {
    |b| > 0 && (|a| == 0 || a[0] < b[0] || (a[0] == b[0] && LexLess(a[1..], b[1..])))
  }

  lemma {:induction false} LexTrichotomy(a: string, b: string)
    ensures a == b || LexLess(a, b) || LexLess(b, a)
    ensures !(LexLess(a, b) && LexLess(b, a))
    ensures !LexLess(a, a)
  {
    if |a| > 0 {
      LexTrichotomy(a[1..], a[1..]);
    }
    if |a| > 0 && |b| > 0 {
      LexTrichotomy(a[1..], b[1..]);
      if a[0] == b[0] && a[1..] == b[1..] {
        assert a == [a[0]] + a[1..] == b;
      }
    }
  }

  lemma {:induction false} LexTransitive(a: string, b: string, c: string)
    requires LexLess(a, b) && LexLess(b, c)
    ensures LexLess(a, c)
  {
    if |a| > 0 && a[0] == b[0] && b[0] == c[0] {
      LexTransitive(a[1..], b[1..], c[1..]);
    }
  }

  lemma LexIsOrder()
    ensures forall a: string, b: string :: a == b || LexLess(a, b) || LexLess(b, a)
    ensures forall a: string, b: string :: !(LexLess(a, b) && LexLess(b, a))
    ensures forall a: string :: !LexLess(a, a)
    ensures forall a: string, b: string, c: string :: LexLess(a, b) && LexLess(b, c) ==> LexLess(a, c)
  {
    forall a: string, b: string ensures a == b || LexLess(a, b) || LexLess(b, a) { LexTrichotomy(a, b); }
    forall a: string, b: string ensures !(LexLess(a, b) && LexLess(b, a)) { LexTrichotomy(a, b); }
    forall a: string ensures !LexLess(a, a) { LexTrichotomy(a, a); }
    forall a: string, b: string, c: string | LexLess(a, b) && LexLess(b, c) ensures LexLess(a, c) {
      LexTransitive(a, b, c);
    }
  }

  lemma LexStrictTotal(s: set<string>)
    ensures StrictTotalOn(LexLess, s)
  {
    LexIsOrder();
  }

  function SortStrings(s: seq<string>): seq<string> {
    Sort(s, LexLess)
  }

  // ----- the elements of a set in string order -----

  predicate IsLeast(m: string, s: set<string>) {
    m in s && forall x :: x in s && x != m ==> LexLess(m, x)
  }

  lemma LesserIsLeast(y: string, m: string, s: set<string>)
    requires y in s && IsLeast(m, s - {y})
    ensures IsLeast(if LexLess(y, m) then y else m, s)
  {
    LexTrichotomy(y, m);
    if LexLess(y, m) {
      forall x | x in s && x != y ensures LexLess(y, x) {
        if x != m {
          LexTransitive(y, m, x);
        }
      }
    }
  }

  lemma {:induction false} LeastExists(s: set<string>)
    requires s != {}
    ensures exists m :: IsLeast(m, s)
  {
    var y :| y in s;
    var rest := s - {y};
    if rest == {} {
      assert s == {y};
      assert IsLeast(y, s);
    } else {
      LeastExists(rest);
      var m :| IsLeast(m, rest);
      LesserIsLeast(y, m, s);
    }
  }

  function Least(s: set<string>): (m: string)
    requires s != {}
    ensures IsLeast(m, s)
  {
    LeastExists(s);
    LexIsOrder();
    var m :| m in s && IsLeast(m, s);
    m
  }

  function SortedSet(s: set<string>): seq<string> {
    if s == {} then [] else [Least(s)] + SortedSet(s - {Least(s)})
  }

  lemma PutFirst(m: string, t: seq<string>)
    requires Sorted(t, LexLess) && NoDup(t) && forall x :: x in t ==> x != m && LexLess(m, x)
    ensures Sorted([m] + t, LexLess) && NoDup([m] + t) && Elements([m] + t) == {m} + Elements(t)
  {
    forall j | 0 <= j < |t| ensures !LexLess(t[j], m) {
      assert t[j] in t;
      LexTrichotomy(m, t[j]);
    }
  }

  lemma {:induction false} SortedSetFacts(s: set<string>)
    ensures NoDup(SortedSet(s)) && Elements(SortedSet(s)) == s && |SortedSet(s)| == |s|
    ensures Sorted(SortedSet(s), LexLess)
  {
    if s != {} {
      var m := Least(s);
      var t := SortedSet(s - {m});
      SortedSetFacts(s - {m});
      assert IsLeast(m, s);
      assert forall x :: x in t ==> x in Elements(t);
      PutFirst(m, t);
      assert {m} + (s - {m}) == s;
    }
  }

  lemma SortedSetOf(items: seq<string>)
    requires NoDup(items)
    ensures SortStrings(items) == SortedSet(Elements(items))
  {
    var t := SortedSet(Elements(items));
    SortedSetFacts(Elements(items));
    NoDupPermutation(items, t);
    LexStrictTotal(Elements(items));
    SortSorts(items, LexLess);
    SortPermutes(items, LexLess);
    LexStrictTotal(Elements(SortStrings(items)));
    SortedUnique(SortStrings(items), t, LexLess);
  }

  /** The keys of a set, visited in an arbitrary order and then sorted. */
  method SortKeys(s: set<string>) returns (out: seq<string>)
    ensures out == SortedSet(s) && NoDup(out) && Elements(out) == s
  {
    var rest := s;
    out := [];
    while rest != {}
      invariant rest <= s && NoDup(out) && Elements(out) == s - rest
      decreases |rest|
    {
      var x :| x in rest;
      assert forall y :: y in out ==> y in Elements(out);
      assert Elements(out + [x]) == Elements(out) + {x};
      out := out + [x];
      rest := rest - {x};
    }
    assert s - {} == s;
    SortedSetOf(out);
    SortedSetFacts(s);
    out := SortStrings(out);
  }
}
