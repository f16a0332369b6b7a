/** `strings.Join`, `strings.Split` and `strconv.Itoa`: the pieces every derived key of the
    program is built from, and when such a key still determines its components. */
module Joining {

  const UNIT_SEPARATOR: char := '\U{001F}'

  predicate Free(s: string, sep: char) {
    sep !in s
  }

  ghost predicate AllFree(parts: seq<string>, sep: char) {
    forall i :: 0 <= i < |parts| ==> Free(parts[i], sep)
  }

  function Join(parts: seq<string>, sep: char): string {
    if |parts| == 0 then ""
    else if |parts| == 1 then parts[0]
    else parts[0] + [sep] + Join(parts[1..], sep)
  }

  function Split(s: string, sep: char): (parts: seq<string>)
    ensures |parts| >= 1
  {
    if s == "" then [""]
    else
      var rest := Split(s[1..], sep);
      if s[0] == sep then [""] + rest
      else [[s[0]] + rest[0]] + rest[1..]
  }

  lemma {:induction false} SplitFree(s: string, sep: char)
    requires Free(s, sep)
    ensures Split(s, sep) == [s]
  {
    if s != "" {
      SplitFree(s[1..], sep);
      assert [s[0]] + s[1..] == s;
    }
  }

  lemma {:induction false} SplitPrefix(a: string, rest: string, sep: char)
    requires Free(a, sep)
    ensures Split(a + [sep] + rest, sep) == [a] + Split(rest, sep)
  {
    var s := a + [sep] + rest;
    if a == "" {
      assert s[1..] == rest;
    } else {
      SplitPrefix(a[1..], rest, sep);
      assert s[1..] == a[1..] + [sep] + rest;
      assert [a[0]] + a[1..] == a;
    }
  }

  lemma SplitStep(c: char, s: string, sep: char)
    ensures Split([c] + s, sep)
         == if c == sep then [""] + Split(s, sep) else [[c] + Split(s, sep)[0]] + Split(s, sep)[1..]
  {
    assert ([c] + s)[1..] == s;
  }

  lemma HeadConcat(x: string, p: seq<string>, q: seq<string>)
    requires p != []
    ensures [x] + (p + q) == ([x] + p) + q
    ensures [x + (p + q)[0]] + (p + q)[1..] == ([x + p[0]] + p[1..]) + q
  {
    assert (p + q)[1..] == p[1..] + q;
  }

  lemma {:induction false} SplitConcat(a: string, b: string, sep: char)
    ensures Split(a + [sep] + b, sep) == Split(a, sep) + Split(b, sep)
  {
    if a == "" {
      assert a + [sep] + b == [sep] + b;
      SplitStep(sep, b, sep);
    } else {
      var c, t := a[0], a[1..];
      assert a == [c] + t && a + [sep] + b == [c] + (t + [sep] + b);
      SplitConcat(t, b, sep);
      SplitStep(c, t, sep);
      SplitStep(c, t + [sep] + b, sep);
      HeadConcat(if c == sep then "" else [c], Split(t, sep), Split(b, sep));
    }
  }

  /** Splitting undoes joining exactly when no part holds the separator. */
  lemma {:induction false} SplitJoin(parts: seq<string>, sep: char)
    requires |parts| >= 1 && AllFree(parts, sep)
    ensures Split(Join(parts, sep), sep) == parts
  {
    if |parts| == 1 {
      SplitFree(parts[0], sep);
    } else {
      SplitPrefix(parts[0], Join(parts[1..], sep), sep);
      SplitJoin(parts[1..], sep);
    }
  }

  lemma {:induction false} SplitPartsFree(s: string, sep: char)
    ensures AllFree(Split(s, sep), sep)
  {
    if s != "" {
      SplitPartsFree(s[1..], sep);
    }
  }

  lemma {:induction false} SplitPartsShort(s: string, sep: char)
    ensures forall p :: p in Split(s, sep) ==> |p| <= |s|
  {
    if s != "" {
      SplitPartsShort(s[1..], sep);
    }
  }

  lemma {:induction false} JoinSplit(s: string, sep: char)
    ensures Join(Split(s, sep), sep) == s
  {
    if s != "" {
      JoinSplit(s[1..], sep);
      var rest := Split(s[1..], sep);
      var parts := Split(s, sep);
      if s[0] == sep {
        assert parts[1..] == rest;
      } else if |rest| > 1 {
        assert parts[1..] == rest[1..];
      }
    }
  }

  lemma JoinInjective(a: seq<string>, b: seq<string>, sep: char)
    requires |a| >= 1 && |b| >= 1 && AllFree(a, sep) && AllFree(b, sep)
    requires Join(a, sep) == Join(b, sep)
    ensures a == b
  {
    SplitJoin(a, sep);
    SplitJoin(b, sep);
  }

  function Count(s: string, sep: char): nat {
    if s == "" then 0 else (if s[0] == sep then 1 else 0) + Count(s[1..], sep)
  }

  lemma {:induction false} CountConcat(a: string, b: string, sep: char)
    ensures Count(a + b, sep) == Count(a, sep) + Count(b, sep)
  {
    if a == "" {
      assert a + b == b;
    } else {
      assert (a + b)[1..] == a[1..] + b;
      CountConcat(a[1..], b, sep);
    }
  }

  lemma {:induction false} CountFree(s: string, sep: char)
    ensures Free(s, sep) <==> Count(s, sep) == 0
  {
    if s != "" {
      CountFree(s[1..], sep);
      assert s == [s[0]] + s[1..];
    }
  }

  lemma {:induction false} SplitCount(s: string, sep: char)
    ensures |Split(s, sep)| == Count(s, sep) + 1
  {
    if s != "" {
      SplitCount(s[1..], sep);
    }
  }

  function CountAll(parts: seq<string>, sep: char): nat {
    if parts == [] then 0 else Count(parts[0], sep) + CountAll(parts[1..], sep)
  }

  lemma {:induction false} CountJoin(parts: seq<string>, sep: char)
    requires |parts| >= 1
    ensures Count(Join(parts, sep), sep) == CountAll(parts, sep) + |parts| - 1
  {
    if |parts| > 1 {
      CountConcat(parts[0] + [sep], Join(parts[1..], sep), sep);
      CountConcat(parts[0], [sep], sep);
      assert Count([sep], sep) == 1 + Count("", sep);
      CountJoin(parts[1..], sep);
    }
  }

  /** Joining adds no character but the separator. */
  lemma {:induction false} CountOther(parts: seq<string>, sep: char, c: char)
    requires c != sep
    ensures Count(Join(parts, sep), c) == CountAll(parts, c)
  {
    if |parts| == 1 {
      assert CountAll(parts[1..], c) == 0;
    } else if |parts| > 1 {
      CountConcat(parts[0] + [sep], Join(parts[1..], sep), c);
      CountConcat(parts[0], [sep], c);
      assert Count([sep], c) == Count("", c);
      CountOther(parts[1..], sep, c);
    }
  }

  lemma {:induction false} CountAllAtLeast(parts: seq<string>, c: char)
    requires forall i :: 0 <= i < |parts| ==> !Free(parts[i], c)
    ensures CountAll(parts, c) >= |parts|
  {
    if parts != [] {
      CountFree(parts[0], c);
      CountAllAtLeast(parts[1..], c);
    }
  }

  /** If all parts but one are free, that one holds all there is. */
  lemma {:induction false} CountOne(parts: seq<string>, i: nat, sep: char)
    requires i < |parts| && forall j :: 0 <= j < |parts| && j != i ==> Free(parts[j], sep)
    ensures CountAll(parts, sep) == Count(parts[i], sep)
  {
    if i == 0 {
      CountAllFree(parts[1..], sep);
    } else {
      CountFree(parts[0], sep);
      CountOne(parts[1..], i - 1, sep);
    }
  }

  lemma {:induction false} CountAllFree(parts: seq<string>, sep: char)
    ensures AllFree(parts, sep) <==> CountAll(parts, sep) == 0
  {
    if parts != [] {
      CountFree(parts[0], sep);
      CountAllFree(parts[1..], sep);
      assert AllFree(parts, sep) <==> Free(parts[0], sep) && AllFree(parts[1..], sep) by {
        assert forall i :: 0 <= i < |parts[1..]| ==> parts[1..][i] == parts[i + 1];
        assert forall i :: 0 < i < |parts| ==> parts[i] == parts[1..][i - 1];
      }
    }
  }

  /** One separator-free list decides: no other list of the same length joins to the same string. */
  lemma JoinDetermines(a: seq<string>, b: seq<string>, sep: char)
    requires |a| == |b| >= 1 && AllFree(a, sep)
    requires Join(a, sep) == Join(b, sep)
    ensures a == b
  {
    CountJoin(a, sep);
    CountJoin(b, sep);
    CountAllFree(a, sep);
    CountAllFree(b, sep);
    JoinInjective(a, b, sep);
  }

  lemma JoinPair(x: string, y: string, more: seq<string>, sep: char)
    ensures Join([x, y] + more, sep) == (x + [sep] + y) + if more == [] then "" else [sep] + Join(more, sep)
  {
    var parts := [x, y] + more;
    assert parts[1..] == [y] + more;
    assert parts[1..][1..] == more;
  }

  /** Moving a separator between neighbours changes the parts but not the joined string. */
  lemma {:induction false} JoinNeighbours(parts: seq<string>, i: nat, x: string, y: string, sep: char)
    requires i + 1 < |parts| && parts[i] + [sep] + parts[i + 1] == x + [sep] + y
    ensures Join(parts[i := x][i + 1 := y], sep) == Join(parts, sep)
  {
    var other := parts[i := x][i + 1 := y];
    if i == 0 {
      var more := parts[2..];
      assert parts == [parts[0], parts[1]] + more && other == [x, y] + more;
      JoinPair(parts[0], parts[1], more, sep);
      JoinPair(x, y, more, sep);
    } else {
      assert other[1..] == parts[1..][i - 1 := x][i := y];
      JoinNeighbours(parts[1..], i - 1, x, y, sep);
    }
  }

  lemma SplitAtSeparator(s: string, sep: char) returns (a: string, b: string)
    requires !Free(s, sep)
    ensures s == a + [sep] + b
  {
    var k :| 0 <= k < |s| && s[k] == sep;
    a, b := s[..k], s[k+1..];
  }

  // ----- strconv.Itoa -----

  function Digit(d: nat): char
    requires d < 10
  {
    "0123456789"[d]
  }

  function Digits(n: nat): string {
    if n < 10 then [Digit(n)] else Digits(n / 10) + [Digit(n % 10)]
  }

  function Itoa(n: int): string {
    if n < 0 then "-" + Digits(-n) else Digits(n)
  }

  lemma DigitInjective(d: nat, e: nat)
    requires d < 10 && e < 10 && Digit(d) == Digit(e)
    ensures d == e
  {
    var t := "0123456789";
    assert t[0] == '0' && t[1] == '1' && t[2] == '2' && t[3] == '3' && t[4] == '4';
    assert t[5] == '5' && t[6] == '6' && t[7] == '7' && t[8] == '8' && t[9] == '9';
  }

  lemma DigitRange(d: nat)
    requires d < 10
    ensures '0' <= Digit(d) <= '9'
  {
    var t := "0123456789";
    assert t[0] == '0' && t[1] == '1' && t[2] == '2' && t[3] == '3' && t[4] == '4';
    assert t[5] == '5' && t[6] == '6' && t[7] == '7' && t[8] == '8' && t[9] == '9';
  }

  lemma {:induction false} DigitsRange(n: nat)
    ensures |Digits(n)| >= 1 && (n < 10 <==> |Digits(n)| == 1)
    ensures forall i :: 0 <= i < |Digits(n)| ==> '0' <= Digits(n)[i] <= '9'
  {
    if n < 10 {
      DigitRange(n);
    } else {
      DigitsRange(n / 10);
      DigitRange(n % 10);
    }
  }

  lemma {:induction false} DigitsInjective(n: nat, m: nat)
    requires Digits(n) == Digits(m)
    ensures n == m
  {
    DigitsRange(n);
    DigitsRange(m);
    if n < 10 {
      DigitInjective(n, m);
    } else {
      var a, b := Digits(n / 10), Digits(m / 10);
      assert Digits(n)[..|Digits(n)| - 1] == a && Digits(m)[..|Digits(m)| - 1] == b;
      assert Digits(n)[|Digits(n)| - 1] == Digit(n % 10) && Digits(m)[|Digits(m)| - 1] == Digit(m % 10);
      DigitsInjective(n / 10, m / 10);
      DigitInjective(n % 10, m % 10);
    }
  }

  lemma ItoaSign(n: int)
    ensures Itoa(n) != "" && (Itoa(n)[0] == '-' <==> n < 0)
    ensures n < 0 ==> Itoa(n)[1..] == Digits(-n)
  {
    DigitsRange(if n < 0 then -n else n);
  }

  lemma ItoaInjective(n: int, m: int)
    requires Itoa(n) == Itoa(m)
    ensures n == m
  {
    ItoaSign(n);
    ItoaSign(m);
    if n < 0 {
      DigitsInjective(-n, -m);
    } else {
      DigitsInjective(n, m);
    }
  }

  lemma ItoaFree(n: int, sep: char)
    requires sep < '-'
    ensures Free(Itoa(n), sep)
  {
    DigitsRange(if n < 0 then -n else n);
  }
}
