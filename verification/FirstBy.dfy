/** Keeping the first item of every key, and the items of all ordered pairs up to a cap:
    the two list shapes the chain correlation layer loops over. */
module FirstBy {
  import opened Ordering

  ghost function KeySet<T, K>(s: seq<T>, key: T -> K): set<K> {
    set x | x in s :: key(x)
  }

  /** The first item with each key, except the keys in skip. */
  ghost function Firsts<T, K>(s: seq<T>, key: T -> K, skip: set<K>): seq<T>
    decreases |s|
  {
    if s == [] then []
    else
      var n := |s| - 1;
      var rest := Firsts(s[..n], key, skip);
      if key(s[n]) in skip || key(s[n]) in KeySet(rest, key) then rest else rest + [s[n]]
  }

  ghost predicate DistinctKeys<T, K>(s: seq<T>, key: T -> K) {
    forall i, j :: 0 <= i < j < |s| ==> key(s[i]) != key(s[j])
  }

  lemma KeySetSnoc<T, K>(s: seq<T>, x: T, key: T -> K)
    ensures KeySet(s + [x], key) == KeySet(s, key) + {key(x)}
  {
    var t := s + [x];
    assert forall y :: y in t <==> y in s || y == x;
    forall k ensures k in KeySet(t, key) <==> k in KeySet(s, key) + {key(x)} {
      if k in KeySet(t, key) {
        var y :| y in t && key(y) == k;
      }
      if k in KeySet(s, key) {
        var y :| y in s && key(y) == k;
        assert y in t;
      }
      assert x in t;
    }
  }

  lemma DistinctSnoc<T, K>(s: seq<T>, x: T, key: T -> K)
    requires DistinctKeys(s, key) && key(x) !in KeySet(s, key)
    ensures DistinctKeys(s + [x], key)
  {
    forall i | 0 <= i < |s| ensures key(s[i]) != key(x) {
      assert s[i] in s;
    }
  }

  lemma {:induction false} FirstsFacts<T, K>(s: seq<T>, key: T -> K, skip: set<K>)
    ensures DistinctKeys(Firsts(s, key, skip), key)
    ensures forall x :: x in Firsts(s, key, skip) ==> x in s && key(x) !in skip
    ensures KeySet(Firsts(s, key, skip), key) == KeySet(s, key) - skip
    decreases |s|
  {
    if s != [] {
      var n := |s| - 1;
      var rest := Firsts(s[..n], key, skip);
      FirstsFacts(s[..n], key, skip);
      assert s == s[..n] + [s[n]];
      KeySetSnoc(s[..n], s[n], key);
      if !(key(s[n]) in skip || key(s[n]) in KeySet(rest, key)) {
        KeySetSnoc(rest, s[n], key);
        DistinctSnoc(rest, s[n], key);
      }
    }
  }

  lemma {:induction false} FirstsNoLonger<T, K>(s: seq<T>, key: T -> K, skip: set<K>)
    ensures |Firsts(s, key, skip)| <= |s|
    decreases |s|
  {
    if s != [] {
      FirstsNoLonger(s[..|s| - 1], key, skip);
    }
  }

  /** Distinct keys, so the same keys whatever the order, and so the same items when a key fixes its item. */
  lemma FirstsOfSameSet<T, K>(s: seq<T>, t: seq<T>, key: T -> K, skip: set<K>)
    requires Elements(s) == Elements(t)
    requires forall x, y :: x in s && y in s && key(x) == key(y) ==> x == y
    ensures multiset(Firsts(s, key, skip)) == multiset(Firsts(t, key, skip))
  {
    var a, b := Firsts(s, key, skip), Firsts(t, key, skip);
    FirstsFacts(s, key, skip);
    FirstsFacts(t, key, skip);
    assert forall x :: x in s <==> x in t by {
      forall x ensures x in s <==> x in t { assert x in Elements(s) <==> x in Elements(t); }
    }
    SameKeys(s, t, key);
    forall x | x in a ensures x in b { Found(a, b, x, key); }
    forall x | x in b ensures x in a { Found(b, a, x, key); }
    NoDupPermutation(a, b);
  }

  lemma SameKeys<T, K>(s: seq<T>, t: seq<T>, key: T -> K)
    requires forall x :: x in s <==> x in t
    ensures KeySet(s, key) == KeySet(t, key)
  {
  }

  lemma Found<T, K>(a: seq<T>, b: seq<T>, x: T, key: T -> K)
    requires x in a && KeySet(a, key) <= KeySet(b, key)
    requires forall y :: y in b && key(x) == key(y) ==> x == y
    ensures x in b
  {
    assert key(x) in KeySet(a, key);
    var y :| y in b && key(y) == key(x);
  }

  /** Keep the first item of every key, with a set of the keys seen so far. */
  method KeepFirsts<T, K(==)>(items: seq<T>, key: T -> K, skip: set<K>) returns (out: seq<T>)
    ensures out == Firsts(items, key, skip)
  {
    out := [];
    var seen: set<K> := {};
    for i := 0 to |items|
      invariant out == Firsts(items[..i], key, skip) && seen == KeySet(out, key)
    {
      assert items[..i + 1][..i] == items[..i];
      var k := key(items[i]);
      if k in skip || k in seen {
        continue;
      }
      KeySetSnoc(out, items[i], key);
      seen := seen + {k};
      out := out + [items[i]];
    }
    assert items[..|items|] == items;
  }

  // ----- all pairs of a list, in index order -----

  /** What order[i] gives with the items after it, up to position j. */
  function Row<T, R>(pair: (T, T) -> seq<R>, order: seq<T>, i: nat, j: nat): seq<R>
    requires i < |order| && j <= |order|
  {
    if j <= i + 1 then [] else Row(pair, order, i, j - 1) + pair(order[i], order[j - 1])
  }

  function Rows<T, R>(pair: (T, T) -> seq<R>, order: seq<T>, i: nat): seq<R>
    requires i <= |order|
  {
    if i == 0 then [] else Rows(pair, order, i - 1) + Row(pair, order, i - 1, |order|)
  }

  function AllPairs<T, R>(pair: (T, T) -> seq<R>, order: seq<T>): seq<R> {
    Rows(pair, order, |order|)
  }

  function Take<T>(s: seq<T>, n: nat): seq<T> {
    if |s| <= n then s else s[..n]
  }

  lemma TakeMore<T>(s: seq<T>, t: seq<T>, n: nat)
    ensures Take(Take(s, n) + t, n) == Take(s + t, n)
    ensures |s| >= n ==> Take(s + t, n) == Take(s, n)
  {
  }

  lemma TakeFull<T>(s: seq<T>, t: seq<T>, n: nat)
    requires |s| >= n
    ensures |s + t| >= n && Take(s + t, n) == Take(s, n)
  {
    assert (s + t)[..n] == s[..n];
    assert |s| == n ==> s[..n] == s;
    assert |s + t| == n ==> (s + t)[..n] == s + t;
  }

  lemma {:induction false} RowsFull<T, R>(pair: (T, T) -> seq<R>, order: seq<T>, i: nat, k: nat, max: nat)
    requires i <= k <= |order| && |Rows(pair, order, i)| >= max
    ensures Take(Rows(pair, order, k), max) == Take(Rows(pair, order, i), max)
    ensures |Rows(pair, order, k)| >= max
    decreases k
  {
    if k > i {
      RowsFull(pair, order, i, k - 1, max);
      TakeFull(Rows(pair, order, k - 1), Row(pair, order, k - 1, |order|), max);
    }
  }

  lemma RowLast<T, R>(pair: (T, T) -> seq<R>, order: seq<T>, i: nat, k: nat, r: seq<R>, p: seq<R>)
    requires i < |order| && 0 < k <= |order|
    requires r == Row(pair, order, i, k - 1) && p == if k > i + 1 then pair(order[i], order[k - 1]) else []
    ensures Row(pair, order, i, k) == r + p
  {
  }

  lemma {:induction false} RowFull<T, R>(pair: (T, T) -> seq<R>, order: seq<T>, before: seq<R>, i: nat, j: nat, k: nat, max: nat)
    requires i < |order| && j <= k <= |order| && |before + Row(pair, order, i, j)| >= max
    ensures Take(before + Row(pair, order, i, k), max) == Take(before + Row(pair, order, i, j), max)
    ensures |before + Row(pair, order, i, k)| >= max
    decreases k
  {
    if k > j {
      RowFull(pair, order, before, i, j, k - 1, max);
      var r, p := Row(pair, order, i, k - 1), if k > i + 1 then pair(order[i], order[k - 1]) else [];
      RowLast(pair, order, i, k, r, p);
      TakeGroup(before, r, p, max);
    }
  }

  lemma TakeGroup<T>(before: seq<T>, r: seq<T>, p: seq<T>, n: nat)
    ensures Take(Take(before + r, n) + p, n) == Take(before + (r + p), n)
    ensures |before + r| >= n ==> Take(before + (r + p), n) == Take(before + r, n)
  {
    assert before + (r + p) == (before + r) + p;
    TakeMore(before + r, p, n);
  }

  lemma RowStep<T, R>(pair: (T, T) -> seq<R>, order: seq<T>, before: seq<R>, i: nat, j: nat, relations: seq<R>, max: nat)
    requires i < j < |order| && relations == Take(before + Row(pair, order, i, j), max)
    ensures Take(relations + pair(order[i], order[j]), max) == Take(before + Row(pair, order, i, j + 1), max)
  {
    TakeGroup(before, Row(pair, order, i, j), pair(order[i], order[j]), max);
  }

  lemma RowDone<T, R>(pair: (T, T) -> seq<R>, order: seq<T>, i: nat, j: nat, relations: seq<R>, max: nat)
    requires i < |order| && j <= |order| && (j == |order| || |relations| >= max)
    requires relations == Take(Rows(pair, order, i) + Row(pair, order, i, j), max)
    ensures relations == Take(Rows(pair, order, i + 1), max)
  {
    if j < |order| {
      RowFull(pair, order, Rows(pair, order, i), i, j, |order|, max);
    }
  }

  // ----- what the loops report about the cap -----

  /** How many results the pairs before (i, j) have. */
  ghost function Total<T, R>(pair: (T, T) -> seq<R>, order: seq<T>, i: nat, j: nat): nat
    requires i < |order| && j <= |order|
  {
    |Rows(pair, order, i)| + |Row(pair, order, i, j)|
  }

  /** The results of the pair (i, j) go past the cap, those before it do not reach it. */
  ghost predicate CrossesAt<T, R>(pair: (T, T) -> seq<R>, order: seq<T>, max: nat, i: nat, j: nat) {
    i < j < |order| && Total(pair, order, i, j) < max < Total(pair, order, i, j + 1)
  }

  ghost predicate CrossesInRow<T, R>(pair: (T, T) -> seq<R>, order: seq<T>, max: nat, i: nat, n: nat) {
    exists j: nat :: j < n && CrossesAt(pair, order, max, i, j)
  }

  ghost predicate Crosses<T, R>(pair: (T, T) -> seq<R>, order: seq<T>, max: nat, rows: nat) {
    exists i: nat :: i < rows && CrossesInRow(pair, order, max, i, |order|)
  }

  /** Some pair ends exactly at the cap. */
  ghost predicate Lands<T, R>(pair: (T, T) -> seq<R>, order: seq<T>, max: nat) {
    exists i: nat, j: nat :: i < j <= |order| && Total(pair, order, i, j) == max
  }

  lemma {:induction false} RowGrows<T, R>(pair: (T, T) -> seq<R>, order: seq<T>, i: nat, j: nat, k: nat)
    requires i < |order| && j <= k <= |order|
    ensures |Row(pair, order, i, j)| <= |Row(pair, order, i, k)|
    decreases k
  {
    if j < k {
      RowGrows(pair, order, i, j, k - 1);
    }
  }

  lemma {:induction false} RowsGrow<T, R>(pair: (T, T) -> seq<R>, order: seq<T>, i: nat, k: nat)
    requires i <= k <= |order|
    ensures |Rows(pair, order, i)| <= |Rows(pair, order, k)|
    decreases k
  {
    if i < k {
      RowsGrow(pair, order, i, k - 1);
    }
  }

  /** Totals grow along the visiting order. */
  lemma TotalGrows<T, R>(pair: (T, T) -> seq<R>, order: seq<T>, i: nat, j: nat, i': nat, j': nat)
    requires i < |order| && j <= |order| && i' < |order| && j' <= |order| && (i < i' || (i == i' && j <= j'))
    ensures Total(pair, order, i, j) <= Total(pair, order, i', j')
  {
    if i < i' {
      RowGrows(pair, order, i, j, |order|);
      RowsGrow(pair, order, i + 1, i');
    } else {
      RowGrows(pair, order, i, j, j');
    }
  }

  lemma CrossesInRowStep<T, R>(pair: (T, T) -> seq<R>, order: seq<T>, max: nat, i: nat, n: nat)
    ensures CrossesInRow(pair, order, max, i, n + 1)
       <==> CrossesInRow(pair, order, max, i, n) || CrossesAt(pair, order, max, i, n)
  {
    if CrossesInRow(pair, order, max, i, n) {
      var j: nat :| j < n && CrossesAt(pair, order, max, i, j);
      assert j < n + 1;
    }
  }

  /** Once the cap is reached no later pair of the row crosses it. */
  lemma CrossesInRowEnd<T, R>(pair: (T, T) -> seq<R>, order: seq<T>, max: nat, i: nat, n: nat)
    requires i < |order| && n <= |order| && (n == |order| || Total(pair, order, i, n) >= max)
    ensures CrossesInRow(pair, order, max, i, |order|) <==> CrossesInRow(pair, order, max, i, n)
  {
    forall j: nat | CrossesAt(pair, order, max, i, j) ensures j < n {
      if n <= j {
        RowGrows(pair, order, i, n, j);
      }
    }
  }

  lemma CrossesStep<T, R>(pair: (T, T) -> seq<R>, order: seq<T>, max: nat, i: nat)
    ensures Crosses(pair, order, max, i + 1)
       <==> Crosses(pair, order, max, i) || CrossesInRow(pair, order, max, i, |order|)
  {
    if Crosses(pair, order, max, i) {
      var k: nat :| k < i && CrossesInRow(pair, order, max, k, |order|);
      assert k < i + 1;
    }
  }

  lemma CrossesEnd<T, R>(pair: (T, T) -> seq<R>, order: seq<T>, max: nat, i: nat)
    requires i <= |order| && (i == |order| || |Rows(pair, order, i)| >= max)
    ensures Crosses(pair, order, max, |order|) <==> Crosses(pair, order, max, i)
  {
    forall k: nat | CrossesInRow(pair, order, max, k, |order|) && k < |order| ensures k < i {
      if i <= k {
        var j: nat :| j < |order| && CrossesAt(pair, order, max, k, j);
        RowsGrow(pair, order, i, k);
      }
    }
  }

  /** What one row of the loop has collected and reported up to position j. */
  ghost predicate RowSoFar<T, R>(pair: (T, T) -> seq<R>, order: seq<T>, max: nat, i: nat, j: nat, out: seq<R>, over: bool)
    requires i < |order| && j <= |order|
  {
    && out == Take(Rows(pair, order, i) + Row(pair, order, i, j), max)
    && (over <==> CrossesInRow(pair, order, max, i, j))
  }

  lemma RowTurn<T, R>(pair: (T, T) -> seq<R>, order: seq<T>, max: nat, i: nat, j: nat, out: seq<R>, over: bool, all: seq<R>)
    requires i < j < |order| && RowSoFar(pair, order, max, i, j, out, over) && |out| < max
    requires all == out + pair(order[i], order[j])
    ensures |all| > max ==> RowSoFar(pair, order, max, i, j + 1, all[..max], true)
    ensures |all| <= max ==> RowSoFar(pair, order, max, i, j + 1, all, over)
  {
    CrossesInRowStep(pair, order, max, i, j);
    RowStep(pair, order, Rows(pair, order, i), i, j, out, max);
  }

  lemma RowEnds<T, R>(pair: (T, T) -> seq<R>, order: seq<T>, max: nat, i: nat, j: nat, out: seq<R>, over: bool)
    requires i < |order| && j <= |order| && RowSoFar(pair, order, max, i, j, out, over) && (j == |order| || |out| >= max)
    ensures out == Take(Rows(pair, order, i + 1), max) && (over <==> CrossesInRow(pair, order, max, i, |order|))
  {
    RowDone(pair, order, i, j, out, max);
    CrossesInRowEnd(pair, order, max, i, j);
  }

  /** One row of the pair loop, stopping as soon as the cap is reached. */
  method CollectRow<T, R>(pair: (T, T) -> seq<R>, order: seq<T>, max: nat, i: nat, before: seq<R>)
    returns (out: seq<R>, over: bool)
    requires i < |order| && before == Take(Rows(pair, order, i), max)
    ensures out == Take(Rows(pair, order, i + 1), max)
    ensures over <==> CrossesInRow(pair, order, max, i, |order|)
  {
    out, over := before, false;
    var j := i + 1;
    assert Rows(pair, order, i) + Row(pair, order, i, j) == Rows(pair, order, i);
    while j < |order| && |out| < max
      invariant i + 1 <= j <= |order| && RowSoFar(pair, order, max, i, j, out, over)
    {
      var all := out + pair(order[i], order[j]);
      RowTurn(pair, order, max, i, j, out, over, all);
      out := all;
      if |all| > max {
        out, over := all[..max], true;
      }
      j := j + 1;
    }
    RowEnds(pair, order, max, i, j, out, over);
  }

  /** The pair loops compute the first max results of all pairs, however early they stop, and report
      whether the results of one pair went past the cap. */
  method CollectPairs<T, R>(pair: (T, T) -> seq<R>, order: seq<T>, max: nat) returns (out: seq<R>, over: bool)
    ensures out == Take(AllPairs(pair, order), max)
    ensures over <==> Crosses(pair, order, max, |order|)
  {
    out, over := [], false;
    var i := 0;
    while i < |order| && |out| < max
      invariant i <= |order| && out == Take(Rows(pair, order, i), max)
      invariant over <==> Crosses(pair, order, max, i)
    {
      CrossesStep(pair, order, max, i);
      var more;
      out, more := CollectRow(pair, order, max, i, out);
      over := over || more;
      i := i + 1;
    }
    if i < |order| {
      RowsFull(pair, order, i, |order|, max);
    }
    CrossesEnd(pair, order, max, i);
  }

  lemma {:induction false} FindInRow<T, R>(pair: (T, T) -> seq<R>, order: seq<T>, max: nat, i: nat, j: nat)
    requires i < j <= |order| && |Rows(pair, order, i)| <= max < Total(pair, order, i, j)
    ensures Crosses(pair, order, max, |order|) || Lands(pair, order, max)
    decreases j
  {
    if Total(pair, order, i, j - 1) > max {
      FindInRow(pair, order, max, i, j - 1);
    } else if Total(pair, order, i, j - 1) < max {
      assert CrossesAt(pair, order, max, i, j - 1);
      assert CrossesInRow(pair, order, max, i, |order|);
    }
  }

  lemma {:induction false} FindRow<T, R>(pair: (T, T) -> seq<R>, order: seq<T>, max: nat, i: nat)
    requires i <= |order| && |Rows(pair, order, i)| > max
    ensures Crosses(pair, order, max, |order|) || Lands(pair, order, max)
    decreases i
  {
    if |Rows(pair, order, i - 1)| > max {
      FindRow(pair, order, max, i - 1);
    } else {
      FindInRow(pair, order, max, i - 1, |order|);
    }
  }

  lemma TotalBound<T, R>(pair: (T, T) -> seq<R>, order: seq<T>, i: nat, j: nat)
    requires i < |order| && j <= |order|
    ensures Total(pair, order, i, j) <= |AllPairs(pair, order)|
  {
    TotalGrows(pair, order, i, j, |order| - 1, |order|);
    RowsNext(pair, order, |order| - 1);
  }

  lemma RowsNext<T, R>(pair: (T, T) -> seq<R>, order: seq<T>, i: nat)
    requires i < |order|
    ensures |Rows(pair, order, i + 1)| == |Rows(pair, order, i)| + |Row(pair, order, i, |order|)|
  {
  }

  lemma CrossesNotLands<T, R>(pair: (T, T) -> seq<R>, order: seq<T>, max: nat, i: nat, j: nat)
    requires CrossesAt(pair, order, max, i, j)
    ensures !Lands(pair, order, max)
  {
    if i': nat, j': nat :| i' < j' <= |order| && Total(pair, order, i', j') == max {
      JumpsOver(pair, order, max, i, j, i', j');
    }
  }

  lemma JumpsOver<T, R>(pair: (T, T) -> seq<R>, order: seq<T>, max: nat, i: nat, j: nat, i': nat, j': nat)
    requires CrossesAt(pair, order, max, i, j) && i' < j' <= |order|
    ensures Total(pair, order, i', j') != max
  {
    if i' < i || (i' == i && j' <= j) {
      TotalGrows(pair, order, i', j', i, j);
    } else {
      TotalGrows(pair, order, i, j + 1, i', j');
    }
  }

  /** The report is right about lost results exactly when no pair happens to end at the cap: then the loops
      stop without looking whether there is more. */
  lemma CrossesIff<T, R>(pair: (T, T) -> seq<R>, order: seq<T>, max: nat)
    ensures Crosses(pair, order, max, |order|) <==> |AllPairs(pair, order)| > max && !Lands(pair, order, max)
  {
    if Crosses(pair, order, max, |order|) {
      var i: nat :| i < |order| && CrossesInRow(pair, order, max, i, |order|);
      var j: nat :| j < |order| && CrossesAt(pair, order, max, i, j);
      TotalBound(pair, order, i, j + 1);
      CrossesNotLands(pair, order, max, i, j);
    } else if |AllPairs(pair, order)| > max {
      FindRow(pair, order, max, |order|);
    }
  }

  /** Three items, one result a pair and room for one: two results are lost and nothing is reported. */
  lemma SilentLoss(pair: (int, int) -> seq<int>)
    requires forall a: int, b: int :: pair(a, b) == [a]
    ensures |AllPairs(pair, [1, 2, 3])| == 3 && !Crosses(pair, [1, 2, 3], 1, 3)
  {
    assert Total(pair, [1, 2, 3], 0, 2) == 1;
    CrossesIff(pair, [1, 2, 3], 1);
  }

  /** An item of some row came from some pair. */
  lemma {:induction false} FromRow<T, R>(pair: (T, T) -> seq<R>, order: seq<T>, i: nat, j: nat, r: R) returns (b: T)
    requires i < |order| && j <= |order| && r in Row(pair, order, i, j)
    ensures b in order && r in pair(order[i], b)
    decreases j
  {
    if r in pair(order[i], order[j - 1]) {
      b := order[j - 1];
    } else {
      b := FromRow(pair, order, i, j - 1, r);
    }
  }

  lemma {:induction false} FromPair<T, R>(pair: (T, T) -> seq<R>, order: seq<T>, i: nat, r: R) returns (a: T, b: T)
    requires i <= |order| && r in Rows(pair, order, i)
    ensures a in order && b in order && r in pair(a, b)
  {
    if r in Row(pair, order, i - 1, |order|) {
      a := order[i - 1];
      b := FromRow(pair, order, i - 1, |order|, r);
    } else {
      a, b := FromPair(pair, order, i - 1, r);
    }
  }

  /** And every item of every pair is there. */
  lemma {:induction false} IntoRow<T, R>(pair: (T, T) -> seq<R>, order: seq<T>, i: nat, j: nat, k: nat, r: R)
    requires i < k < j <= |order| && r in pair(order[i], order[k])
    ensures r in Row(pair, order, i, j)
    decreases j
  {
    if k < j - 1 {
      IntoRow(pair, order, i, j - 1, k, r);
    }
  }

  lemma {:induction false} IntoPairs<T, R>(pair: (T, T) -> seq<R>, order: seq<T>, n: nat, i: nat, k: nat, r: R)
    requires i < n <= |order| && i < k < |order| && r in pair(order[i], order[k])
    ensures r in Rows(pair, order, n)
    decreases n
  {
    var rest, row := Rows(pair, order, n - 1), Row(pair, order, n - 1, |order|);
    assert Rows(pair, order, n) == rest + row;
    if i < n - 1 {
      IntoPairs(pair, order, n - 1, i, k, r);
    } else {
      IntoRow(pair, order, i, |order|, k, r);
    }
  }
}
