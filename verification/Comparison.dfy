/** Ground-truth comparison: a greedy one-pass matching of findings to expected ones, which is a maximum one. */
module Comparison {

  datatype Expected = Expected(id: string, kind: string, endpoint: string, severity: string)

  datatype Actual = Actual(kind: string, endpoint: string, parameter: string, severity: string, hasEvidence: bool)

  /** What a match rests on. */
  datatype Key = Key(kind: string, endpoint: string)

  function KeyOfExpected(e: Expected): Key {
    Key(e.kind, e.endpoint)
  }

  function KeyOfActual(a: Actual): Key {
    Key(a.kind, a.endpoint)
  }

  function ExpectedKeys(es: seq<Expected>): seq<Key> {
    seq(|es|, i requires 0 <= i < |es| => KeyOfExpected(es[i]))
  }

  function ActualKeys(xs: seq<Actual>): seq<Key> {
    seq(|xs|, i requires 0 <= i < |xs| => KeyOfActual(xs[i]))
  }

  predicate Matches(a: Actual, e: Expected) {
    a.kind == e.kind && a.endpoint == e.endpoint
  }

  /** Rows name findings by their positions in the two lists. */
  datatype Row =
    | TruePositive(expected: nat, actual: nat, severityMatches: bool, endpointMatches: bool, evidenceMatches: bool)
    | Duplicate(actual: nat)
    | FalsePositive(actual: nat)
    | FalseNegative(expected: nat)

  datatype Report = Report(
    rows: seq<Row>, totalExpected: nat, totalActual: nat,
    truePositives: nat, falsePositives: nat, falseNegatives: nat, duplicates: nat)

  ghost predicate UniqueIds(es: seq<Expected>) {
    forall i, j :: 0 <= i < j < |es| ==> es[i].id != es[j].id
  }

  // ----- the expected findings still free -----

  /** The keys of the expected findings whose ID is not taken. */
  function Free(es: seq<Expected>, taken: set<string>): multiset<Key>
    decreases |es|
  {
    if es == [] then multiset{}
    else
      var n := |es| - 1;
      if es[n].id in taken then Free(es[..n], taken) else Free(es[..n], taken) + multiset{KeyOfExpected(es[n])}
  }

  lemma {:induction false} FreeMember(es: seq<Expected>, taken: set<string>, k: Key)
    ensures k in Free(es, taken) <==> exists j :: 0 <= j < |es| && es[j].id !in taken && KeyOfExpected(es[j]) == k
    decreases |es|
  {
    if es != [] {
      var n := |es| - 1;
      FreeMember(es[..n], taken, k);
      if k in Free(es[..n], taken) {
        var j :| 0 <= j < n && es[..n][j].id !in taken && KeyOfExpected(es[..n][j]) == k;
        assert es[j].id !in taken && KeyOfExpected(es[j]) == k;
      }
      if j :| 0 <= j < |es| && es[j].id !in taken && KeyOfExpected(es[j]) == k {
        assert j < n ==> es[..n][j] == es[j];
      }
    }
  }

  lemma {:induction false} FreeUnrelated(es: seq<Expected>, taken: set<string>, id: string)
    requires forall i :: 0 <= i < |es| ==> es[i].id != id
    ensures Free(es, taken + {id}) == Free(es, taken)
    decreases |es|
  {
    if es != [] {
      FreeUnrelated(es[..|es| - 1], taken, id);
    }
  }

  /** Taking one expected finding frees exactly one key less. */
  lemma {:induction false} FreeTake(es: seq<Expected>, taken: set<string>, j: nat)
    requires UniqueIds(es) && j < |es| && es[j].id !in taken
    ensures Free(es, taken) == Free(es, taken + {es[j].id}) + multiset{KeyOfExpected(es[j])}
    decreases |es|
  {
    var n := |es| - 1;
    if j == n {
      FreeUnrelated(es[..n], taken, es[n].id);
    } else {
      FreeTake(es[..n], taken, j);
      assert es[n].id != es[j].id;
    }
  }

  lemma {:induction false} FreeAll(es: seq<Expected>)
    ensures Free(es, {}) == multiset(ExpectedKeys(es))
    decreases |es|
  {
    if es != [] {
      var n := |es| - 1;
      FreeAll(es[..n]);
      assert ExpectedKeys(es) == ExpectedKeys(es[..n]) + [KeyOfExpected(es[n])];
    }
  }

  lemma ActualSnoc(xs: seq<Actual>, i: nat)
    requires i < |xs|
    ensures multiset(ActualKeys(xs[..i + 1])) == multiset(ActualKeys(xs[..i])) + multiset{KeyOfActual(xs[i])}
  {
    assert ActualKeys(xs[..i + 1]) == ActualKeys(xs[..i]) + [KeyOfActual(xs[i])];
  }

  /** How the largest common part of two multisets grows with one more element of the first. */
  lemma CommonPart(a: multiset<Key>, e: multiset<Key>, k: Key)
    ensures |(a + multiset{k}) * e| == |a * e| + if k in e - a then 1 else 0
    ensures e - (a + multiset{k}) == if k in e - a then (e - a) - multiset{k} else e - a
  {
    if k in e - a {
      assert (a + multiset{k}) * e == a * e + multiset{k};
    } else {
      assert (a + multiset{k}) * e == a * e;
    }
  }

  // ----- CompareFindings -----

  /** The first free expected finding that matches, if any. */
  method FindExpected(a: Actual, positives: seq<Expected>, taken: set<string>) returns (found: bool, j: nat)
    ensures j <= |positives| && forall k :: 0 <= k < j ==> positives[k].id in taken || !Matches(a, positives[k])
    ensures if found then j < |positives| && positives[j].id !in taken && Matches(a, positives[j]) else j == |positives|
    ensures found <==> KeyOfActual(a) in Free(positives, taken)
  {
    FreeMember(positives, taken, KeyOfActual(a));
    j := 0;
    while j < |positives|
      invariant j <= |positives|
      invariant forall k :: 0 <= k < j ==> positives[k].id in taken || !Matches(a, positives[k])
    {
      if positives[j].id !in taken && Matches(a, positives[j]) {
        assert KeyOfExpected(positives[j]) == KeyOfActual(a);
        return true, j;
      }
      j := j + 1;
    }
    found := false;
  }

  ghost predicate Same(a: Actual, b: Actual) {
    a.kind == b.kind && a.endpoint == b.endpoint && a.parameter == b.parameter
  }

  /** An earlier matched finding of the same kind, endpoint and parameter. */
  ghost predicate Repeats(rows: seq<Row>, actual: seq<Actual>, i: nat)
    requires i < |actual| && i <= |rows|
  {
    exists j :: 0 <= j < i && rows[j].TruePositive? && Same(actual[i], actual[j])
  }

  method IsDuplicate(actual: seq<Actual>, ghost rows: seq<Row>, hits: set<int>, i: nat) returns (dup: bool)
    requires i < |actual| && i == |rows| && forall j :: 0 <= j < i ==> (j in hits <==> rows[j].TruePositive?)
    ensures dup <==> Repeats(rows, actual, i)
  {
    for j := 0 to i
      invariant forall k :: 0 <= k < j ==> !(rows[k].TruePositive? && Same(actual[i], actual[k]))
    {
      if j !in hits {
        continue;
      }
      if actual[i].kind == actual[j].kind && actual[i].endpoint == actual[j].endpoint
         && actual[i].parameter == actual[j].parameter {
        return true;
      }
    }
    return false;
  }

  /** Some row before the i-th matched an expected finding with this ID. */
  ghost predicate TakenBefore(rows: seq<Row>, i: nat, positives: seq<Expected>, id: string)
    requires i <= |rows|
  {
    exists j :: 0 <= j < i && rows[j].TruePositive? && rows[j].expected < |positives|
                && positives[rows[j].expected].id == id
  }

  /** The first limit expected findings that a matches were all taken before the i-th row. */
  ghost predicate NoneFree(rows: seq<Row>, i: nat, a: Actual, positives: seq<Expected>, limit: nat)
    requires i <= |rows| && limit <= |positives|
  {
    forall k :: 0 <= k < limit && Matches(a, positives[k]) ==> TakenBefore(rows, i, positives, positives[k].id)
  }

  /** The row of the i-th actual finding is the right one, given the rows before it: it takes the first
      matching expected finding whose ID is free; without one it is a duplicate or a false positive. */
  ghost predicate RowFor(rows: seq<Row>, i: nat, actual: seq<Actual>, positives: seq<Expected>)
    requires i < |rows| && i < |actual|
  {
    match rows[i]
    case TruePositive(e, a, severity, endpoint, evidence) =>
      && a == i && e < |positives| && Matches(actual[i], positives[e])
      && !TakenBefore(rows, i, positives, positives[e].id) && NoneFree(rows, i, actual[i], positives, e)
      && severity == (actual[i].severity == positives[e].severity) && endpoint && evidence == actual[i].hasEvidence
    case Duplicate(a) => a == i && NoneFree(rows, i, actual[i], positives, |positives|) && Repeats(rows, actual, i)
    case FalsePositive(a) => a == i && NoneFree(rows, i, actual[i], positives, |positives|) && !Repeats(rows, actual, i)
    case FalseNegative(_) => false
  }

  /** Where the first pass stands after n findings: as many matched as the keys have in common, and the rest
      of the expected keys still free. */
  ghost predicate Counts(n: nat, taken: set<string>, tp: nat, actual: seq<Actual>, positives: seq<Expected>)
    requires n <= |actual|
  {
    Balanced(ActualBag(actual, n), ExpectedBag(positives), Free(positives, taken), tp)
  }

  ghost predicate Balanced(a: multiset<Key>, e: multiset<Key>, free: multiset<Key>, tp: nat) {
    tp == |a * e| && free == e - a
  }

  ghost function ActualBag(actual: seq<Actual>, n: nat): multiset<Key>
    requires n <= |actual|
  {
    multiset(ActualKeys(actual[..n]))
  }

  ghost function ExpectedBag(positives: seq<Expected>): multiset<Key> {
    multiset(ExpectedKeys(positives))
  }

  ghost predicate Marks(rows: seq<Row>, taken: set<string>, tp: nat, positives: seq<Expected>) {
    && (forall id :: id in taken <==> TakenBefore(rows, |rows|, positives, id))
    && |taken| == tp == |HitSet(rows)| && taken <= Ids(positives)
  }

  ghost function Ids(es: seq<Expected>): set<string> {
    set e | e in es :: e.id
  }

  ghost predicate Progress(rows: seq<Row>, taken: set<string>, tp: nat, actual: seq<Actual>, positives: seq<Expected>)
    requires |rows| <= |actual|
  {
    Marks(rows, taken, tp, positives) && (UniqueIds(positives) ==> Counts(|rows|, taken, tp, actual, positives))
  }

  ghost predicate RightRows(rows: seq<Row>, actual: seq<Actual>, positives: seq<Expected>)
    requires |rows| <= |actual|
  {
    forall i :: 0 <= i < |rows| ==> RowFor(rows, i, actual, positives)
  }

  lemma TakenExtends(rows: seq<Row>, row: Row, i: nat, positives: seq<Expected>, id: string)
    requires i <= |rows|
    ensures TakenBefore(rows + [row], i, positives, id) <==> TakenBefore(rows, i, positives, id)
  {
    assert forall j :: 0 <= j < i ==> (rows + [row])[j] == rows[j];
  }

  lemma NoneFreeExtends(rows: seq<Row>, row: Row, i: nat, a: Actual, positives: seq<Expected>, limit: nat)
    requires i <= |rows| && limit <= |positives|
    ensures NoneFree(rows + [row], i, a, positives, limit) <==> NoneFree(rows, i, a, positives, limit)
  {
    forall k | 0 <= k < limit
      ensures TakenBefore(rows + [row], i, positives, positives[k].id) <==> TakenBefore(rows, i, positives, positives[k].id)
    {
      TakenExtends(rows, row, i, positives, positives[k].id);
    }
  }

  lemma RepeatsExtends(rows: seq<Row>, row: Row, actual: seq<Actual>, i: nat)
    requires i <= |rows| && i < |actual|
    ensures Repeats(rows + [row], actual, i) <==> Repeats(rows, actual, i)
  {
    assert forall j :: 0 <= j < i ==> (rows + [row])[j] == rows[j];
  }

  lemma RowForExtends(rows: seq<Row>, row: Row, i: nat, actual: seq<Actual>, positives: seq<Expected>)
    requires i < |rows| && i < |actual| && RowFor(rows, i, actual, positives)
    ensures RowFor(rows + [row], i, actual, positives)
  {
    assert (rows + [row])[i] == rows[i];
    RepeatsExtends(rows, row, actual, i);
    if rows[i].TruePositive? {
      TakenExtends(rows, row, i, positives, positives[rows[i].expected].id);
      NoneFreeExtends(rows, row, i, actual[i], positives, rows[i].expected);
    } else {
      NoneFreeExtends(rows, row, i, actual[i], positives, |positives|);
    }
  }

  lemma RightMore(rows: seq<Row>, row: Row, actual: seq<Actual>, positives: seq<Expected>)
    requires |rows| < |actual| && RightRows(rows, actual, positives)
    requires RowFor(rows + [row], |rows|, actual, positives)
    ensures RightRows(rows + [row], actual, positives)
  {
    forall i | 0 <= i < |rows| ensures RowFor(rows + [row], i, actual, positives) {
      RowForExtends(rows, row, i, actual, positives);
    }
  }

  lemma BalancedAfter(a: multiset<Key>, e: multiset<Key>, free: multiset<Key>, tp: nat, k: Key, free': multiset<Key>)
    requires Balanced(a, e, free, tp)
    requires if k in free then free == free' + multiset{k} else free' == free
    ensures Balanced(a + multiset{k}, e, free', tp + if k in free then 1 else 0)
  {
    CommonPart(a, e, k);
    if k in free {
      assert free - multiset{k} == free';
    }
  }

  lemma CountsAfter(n: nat, taken: set<string>, tp: nat, actual: seq<Actual>, positives: seq<Expected>, taken': set<string>)
    requires n < |actual| && Counts(n, taken, tp, actual, positives)
    requires var k := KeyOfActual(actual[n]);
             if k in Free(positives, taken) then Free(positives, taken) == Free(positives, taken') + multiset{k}
             else taken' == taken
    ensures Counts(n + 1, taken', tp + if KeyOfActual(actual[n]) in Free(positives, taken) then 1 else 0, actual, positives)
  {
    ActualSnoc(actual, n);
    BalancedAfter(ActualBag(actual, n), ExpectedBag(positives), Free(positives, taken), tp, KeyOfActual(actual[n]),
                  Free(positives, taken'));
  }

  lemma TakenSnoc(rows: seq<Row>, row: Row, positives: seq<Expected>, id: string)
    ensures TakenBefore(rows + [row], |rows| + 1, positives, id)
       <==> || TakenBefore(rows, |rows|, positives, id)
            || (row.TruePositive? && row.expected < |positives| && positives[row.expected].id == id)
  {
    var more := rows + [row];
    assert more[|rows|] == row;
    TakenExtends(rows, row, |rows|, positives, id);
    if TakenBefore(rows, |rows|, positives, id) {
      var j :| 0 <= j < |rows| && more[j].TruePositive? && more[j].expected < |positives|
               && positives[more[j].expected].id == id;
      assert 0 <= j < |rows| + 1;
    }
  }

  lemma MarksAfter(rows: seq<Row>, row: Row, taken: set<string>, tp: nat, positives: seq<Expected>)
    requires Marks(rows, taken, tp, positives)
    requires row.TruePositive? ==> row.expected < |positives| && positives[row.expected].id !in taken
    ensures Marks(rows + [row], if row.TruePositive? then taken + {positives[row.expected].id} else taken,
                  tp + if row.TruePositive? then 1 else 0, positives)
  {
    forall id
      ensures TakenBefore(rows + [row], |rows + [row]|, positives, id)
         <==> TakenBefore(rows, |rows|, positives, id)
              || (row.TruePositive? && row.expected < |positives| && positives[row.expected].id == id)
    {
      TakenSnoc(rows, row, positives, id);
    }
    SizesAfter(rows, row, taken, tp, positives);
  }

  lemma SizesAfter(rows: seq<Row>, row: Row, taken: set<string>, tp: nat, positives: seq<Expected>)
    requires |taken| == tp == |HitSet(rows)| && taken <= Ids(positives)
    requires row.TruePositive? ==> row.expected < |positives| && positives[row.expected].id !in taken
    ensures var taken' := if row.TruePositive? then taken + {positives[row.expected].id} else taken;
            |taken'| == tp + (if row.TruePositive? then 1 else 0) == |HitSet(rows + [row])| && taken' <= Ids(positives)
  {
    HitSetSnoc(rows, row);
    assert |rows| !in HitSet(rows);
    assert row.TruePositive? ==> positives[row.expected] in positives;
  }

  /** What row and taken' record is what the matching of finding n found. */
  ghost predicate Records(row: Row, n: nat, taken: set<string>, actual: seq<Actual>, positives: seq<Expected>, taken': set<string>)
    requires n < |actual|
  {
    && (row.TruePositive? <==> KeyOfActual(actual[n]) in Free(positives, taken))
    && if row.TruePositive? then
         row.expected < |positives| && positives[row.expected].id !in taken && Matches(actual[n], positives[row.expected])
         && taken' == taken + {positives[row.expected].id}
       else taken' == taken
  }

  lemma CountsRecorded(row: Row, n: nat, taken: set<string>, tp: nat, actual: seq<Actual>, positives: seq<Expected>, taken': set<string>)
    requires n < |actual| && UniqueIds(positives) && Counts(n, taken, tp, actual, positives)
    requires Records(row, n, taken, actual, positives, taken')
    ensures Counts(n + 1, taken', tp + if row.TruePositive? then 1 else 0, actual, positives)
  {
    if row.TruePositive? {
      FreeTake(positives, taken, row.expected);
    }
    CountsAfter(n, taken, tp, actual, positives, taken');
  }

  lemma MarksRecorded(rows: seq<Row>, row: Row, taken: set<string>, tp: nat, actual: seq<Actual>, positives: seq<Expected>,
                      taken': set<string>)
    requires |rows| < |actual| && Marks(rows, taken, tp, positives)
    requires Records(row, |rows|, taken, actual, positives, taken')
    ensures Marks(rows + [row], taken', tp + if row.TruePositive? then 1 else 0, positives)
  {
    MarksAfter(rows, row, taken, tp, positives);
  }

  lemma CountsNext(rows: seq<Row>, row: Row, taken: set<string>, tp: nat, actual: seq<Actual>, positives: seq<Expected>,
                   taken': set<string>)
    requires |rows| < |actual| && Records(row, |rows|, taken, actual, positives, taken')
    requires UniqueIds(positives) ==> Counts(|rows|, taken, tp, actual, positives)
    ensures UniqueIds(positives) ==>
              Counts(|rows + [row]|, taken', tp + if row.TruePositive? then 1 else 0, actual, positives)
  {
    var n := |rows|;
    assert |rows + [row]| == n + 1;
    if UniqueIds(positives) {
      CountsRecorded(row, n, taken, tp, actual, positives, taken');
    }
  }

  lemma ProgressAfter(rows: seq<Row>, row: Row, taken: set<string>, tp: nat, actual: seq<Actual>, positives: seq<Expected>,
                      taken': set<string>)
    requires |rows| < |actual| && Progress(rows, taken, tp, actual, positives)
    requires Records(row, |rows|, taken, actual, positives, taken')
    ensures Progress(rows + [row], taken', tp + if row.TruePositive? then 1 else 0, actual, positives)
  {
    CountsNext(rows, row, taken, tp, actual, positives, taken');
    MarksRecorded(rows, row, taken, tp, actual, positives, taken');
  }

  function HitSet(rows: seq<Row>): set<int> {
    set j | 0 <= j < |rows| && rows[j].TruePositive?
  }

  lemma HitSetSnoc(rows: seq<Row>, row: Row)
    ensures HitSet(rows + [row]) == if row.TruePositive? then HitSet(rows) + {|rows|} else HitSet(rows)
  {
  }

  /** One finding takes the first free expected one it matches; otherwise it is a duplicate or a false positive. */
  method MatchOne(actual: seq<Actual>, positives: seq<Expected>, ghost rows: seq<Row>, taken: set<string>, hits: set<int>,
                  ghost tp: nat, i: nat) returns (row: Row, taken': set<string>)
    requires i == |rows| < |actual| && hits == HitSet(rows)
    requires RightRows(rows, actual, positives) && Progress(rows, taken, tp, actual, positives)
    ensures RightRows(rows + [row], actual, positives)
    ensures Progress(rows + [row], taken', tp + if row.TruePositive? then 1 else 0, actual, positives)
    ensures !row.FalseNegative?
  {
    var a := actual[i];
    var found, j := FindExpected(a, positives, taken);
    if found {
      row := TruePositive(j, i, a.severity == positives[j].severity, a.endpoint == positives[j].endpoint, a.hasEvidence);
      taken' := taken + {positives[j].id};
    } else {
      var isDup := IsDuplicate(actual, rows, hits, i);
      row := if isDup then Duplicate(i) else FalsePositive(i);
      taken' := taken;
    }
    ProgressAfter(rows, row, taken, tp, actual, positives, taken');
    RowIsRight(rows, row, taken, tp, actual, positives, i, j);
    RightMore(rows, row, actual, positives);
  }

  lemma RowIsRight(rows: seq<Row>, row: Row, taken: set<string>, tp: nat, actual: seq<Actual>, positives: seq<Expected>,
                   i: nat, j: nat)
    requires i == |rows| < |actual| && Marks(rows, taken, tp, positives) && j <= |positives|
    requires forall k :: 0 <= k < j ==> positives[k].id in taken || !Matches(actual[i], positives[k])
    requires match row
             case TruePositive(e, a, severity, endpoint, evidence) =>
               && e == j && a == i && j < |positives| && positives[j].id !in taken && Matches(actual[i], positives[j])
               && severity == (actual[i].severity == positives[j].severity) && endpoint && evidence == actual[i].hasEvidence
             case Duplicate(a) => a == i && j == |positives| && Repeats(rows, actual, i)
             case FalsePositive(a) => a == i && j == |positives| && !Repeats(rows, actual, i)
             case FalseNegative(_) => false
    ensures RowFor(rows + [row], i, actual, positives)
  {
    assert (rows + [row])[i] == row;
    assert NoneFree(rows, i, actual[i], positives, j);
    NoneFreeExtends(rows, row, i, actual[i], positives, j);
    RepeatsExtends(rows, row, actual, i);
    if row.TruePositive? {
      TakenExtends(rows, row, i, positives, positives[j].id);
    }
  }

  lemma StartCounts(actual: seq<Actual>, positives: seq<Expected>)
    ensures Progress([], {}, 0, actual, positives)
  {
    FreeAll(positives);
    assert ActualKeys(actual[..0]) == [];
    assert HitSet([]) == {};
  }

  /** The first pass. */
  method MatchActual(actual: seq<Actual>, positives: seq<Expected>)
    returns (rows: seq<Row>, taken: set<string>, tp: nat, fp: nat, dup: nat)
    ensures |rows| == |actual| == tp + fp + dup && forall k :: 0 <= k < |rows| ==> !rows[k].FalseNegative?
    ensures RightRows(rows, actual, positives) && Progress(rows, taken, tp, actual, positives)
  {
    rows, taken, tp, fp, dup := [], {}, 0, 0, 0;
    var hits: set<int> := {};
    StartCounts(actual, positives);
    for i := 0 to |actual|
      invariant |rows| == i == tp + fp + dup && forall k :: 0 <= k < |rows| ==> !rows[k].FalseNegative?
      invariant hits == HitSet(rows)
      invariant RightRows(rows, actual, positives) && Progress(rows, taken, tp, actual, positives)
    {
      var row;
      row, taken := MatchOne(actual, positives, rows, taken, hits, tp, i);
      HitSetSnoc(rows, row);
      rows := rows + [row];
      match row {
        case TruePositive(_, _, _, _, _) =>
          hits := hits + {i};
          tp := tp + 1;
        case Duplicate(_) => dup := dup + 1;
        case _ => fp := fp + 1;
      }
    }
  }

  /** The second pass: every expected finding never taken is a false negative. */
  method AddMissed(positives: seq<Expected>, taken: set<string>, first: seq<Row>) returns (rows: seq<Row>, fn: nat)
    requires forall k :: 0 <= k < |first| ==> !first[k].FalseNegative?
    ensures |rows| == |first| + fn && rows[..|first|] == first && fn == |Free(positives, taken)|
    ensures forall k :: |first| <= k < |rows| ==> rows[k].FalseNegative?
    ensures forall j: nat :: FalseNegative(j) in rows <==> j < |positives| && positives[j].id !in taken
  {
    rows, fn := first, 0;
    for j := 0 to |positives|
      invariant |rows| == |first| + fn && rows[..|first|] == first && fn == |Free(positives[..j], taken)|
      invariant forall k :: |first| <= k < |rows| ==> rows[k].FalseNegative?
      invariant forall k: nat :: FalseNegative(k) in rows <==> k < j && positives[k].id !in taken
    {
      assert positives[..j + 1][..j] == positives[..j];
      if positives[j].id !in taken {
        rows := rows + [FalseNegative(j)];
        fn := fn + 1;
      }
    }
    assert positives[..|positives|] == positives;
  }

  /** How many expected findings have an ID that is taken: at least one for each, and exactly one for each
      when none of them is repeated. */
  lemma {:induction false} TakenCount(es: seq<Expected>, taken: set<string>)
    requires taken <= Ids(es)
    ensures |taken| + |Free(es, taken)| <= |es|
    ensures |taken| + |Free(es, taken)| == |es| <==> !RepeatedId(es, taken)
    decreases |es|
  {
    if es == [] {
      assert taken == {};
    } else {
      var n := |es| - 1;
      var pre, e := es[..n], es[n];
      assert es == pre + [e];
      IdsSnoc(pre, e);
      RepeatedSnoc(pre, e, taken);
      if e.id !in taken {
        TakenCount(pre, taken);
      } else if e.id in Ids(pre) {
        TakenCount(pre, taken);
      } else {
        var less := taken - {e.id};
        assert taken == less + {e.id};
        forall i | 0 <= i < |pre| ensures pre[i].id != e.id {
          assert pre[i] in pre;
        }
        FreeUnrelated(pre, less, e.id);
        TakenCount(pre, less);
        RepeatedLess(pre, taken, e.id);
      }
    }
  }

  lemma IdsSnoc(pre: seq<Expected>, e: Expected)
    ensures Ids(pre + [e]) == Ids(pre) + {e.id}
  {
    assert forall x :: x in pre + [e] <==> x in pre || x == e;
  }

  /** Two of the expected findings share an ID that is taken. */
  ghost predicate RepeatedId(es: seq<Expected>, taken: set<string>) {
    exists i, j :: 0 <= i < j < |es| && es[i].id == es[j].id && es[i].id in taken
  }

  lemma RepeatedSnoc(pre: seq<Expected>, e: Expected, taken: set<string>)
    ensures RepeatedId(pre + [e], taken) <==> RepeatedId(pre, taken) || (e.id in taken && e.id in Ids(pre))
  {
    var es := pre + [e];
    if RepeatedId(pre, taken) {
      var i, j :| 0 <= i < j < |pre| && pre[i].id == pre[j].id && pre[i].id in taken;
      assert es[i].id == es[j].id;
    }
    if e.id in taken && e.id in Ids(pre) {
      var x :| x in pre && x.id == e.id;
      var i :| 0 <= i < |pre| && pre[i] == x;
      assert es[i].id == es[|pre|].id;
    }
    if RepeatedId(es, taken) {
      var i, j :| 0 <= i < j < |es| && es[i].id == es[j].id && es[i].id in taken;
      assert es[i] == pre[i] && pre[i] in pre;
      if j < |pre| {
        assert pre[i].id == pre[j].id;
      }
    }
  }

  lemma RepeatedLess(pre: seq<Expected>, taken: set<string>, id: string)
    requires forall i :: 0 <= i < |pre| ==> pre[i].id != id
    ensures RepeatedId(pre, taken - {id}) <==> RepeatedId(pre, taken)
  {
  }

  /** The comparison, with the IDs of ground truth repeated or not. negatives take no part in it, so they are
      left out. */
  method CompareFindings(actual: seq<Actual>, positives: seq<Expected>) returns (report: Report, ghost taken: set<string>)
    ensures report.totalExpected == |positives|
    ensures report.totalActual == |actual| == report.truePositives + report.falsePositives + report.duplicates
    ensures |report.rows| == |actual| + report.falseNegatives && RightRows(report.rows[..|actual|], actual, positives)
    ensures report.truePositives == |HitSet(report.rows[..|actual|])|
    ensures forall id :: id in taken <==> TakenBefore(report.rows, |actual|, positives, id)
    ensures forall j: nat :: FalseNegative(j) in report.rows <==> j < |positives| && positives[j].id !in taken
    ensures report.truePositives + report.falseNegatives <= report.totalExpected
    ensures report.truePositives + report.falseNegatives == report.totalExpected <==> !RepeatedId(positives, taken)
    ensures UniqueIds(positives) ==>
              report.truePositives == |multiset(ActualKeys(actual)) * multiset(ExpectedKeys(positives))|
  {
    var first, tp, fp, dup, ids;
    first, ids, tp, fp, dup := MatchActual(actual, positives);
    taken := ids;
    var rows, fn := AddMissed(positives, ids, first);
    assert actual[..|actual|] == actual;
    TakenCount(positives, ids);
    forall id ensures id in ids <==> TakenBefore(rows, |actual|, positives, id) {
      TakenPrefix(rows, first, positives, id);
    }
    report := Report(rows, |positives|, |actual|, tp, fp, fn, dup);
  }

  lemma TakenPrefix(rows: seq<Row>, first: seq<Row>, positives: seq<Expected>, id: string)
    requires |first| <= |rows| && rows[..|first|] == first
    ensures TakenBefore(rows, |first|, positives, id) <==> TakenBefore(first, |first|, positives, id)
  {
    assert forall k :: 0 <= k < |first| ==> rows[k] == first[k];
  }

  /** The rows of the first pass are the only right ones. */
  lemma {:induction false} RightRowsUnique(a: seq<Row>, b: seq<Row>, actual: seq<Actual>, positives: seq<Expected>)
    requires |a| == |b| <= |actual| && RightRows(a, actual, positives) && RightRows(b, actual, positives)
    ensures a == b
    decreases |a|
  {
    if a != [] {
      var n := |a| - 1;
      assert a == a[..n] + [a[n]] && b == b[..n] + [b[n]];
      RightBefore(a[..n], a[n], actual, positives);
      RightBefore(b[..n], b[n], actual, positives);
      RightRowsUnique(a[..n], b[..n], actual, positives);
      SameRow(a[..n], a[n], b[n], actual, positives);
    }
  }

  lemma RightBefore(pre: seq<Row>, row: Row, actual: seq<Actual>, positives: seq<Expected>)
    requires |pre| < |actual| && RightRows(pre + [row], actual, positives)
    ensures RightRows(pre, actual, positives)
  {
    forall i | 0 <= i < |pre| ensures RowFor(pre, i, actual, positives) {
      RowForPrefix(pre, row, i, actual, positives);
    }
  }

  lemma RowForPrefix(rows: seq<Row>, row: Row, i: nat, actual: seq<Actual>, positives: seq<Expected>)
    requires i < |rows| && i < |actual| && RowFor(rows + [row], i, actual, positives)
    ensures RowFor(rows, i, actual, positives)
  {
    assert (rows + [row])[i] == rows[i];
    RepeatsExtends(rows, row, actual, i);
    if rows[i].TruePositive? {
      TakenExtends(rows, row, i, positives, positives[rows[i].expected].id);
      NoneFreeExtends(rows, row, i, actual[i], positives, rows[i].expected);
    } else {
      NoneFreeExtends(rows, row, i, actual[i], positives, |positives|);
    }
  }

  lemma SameRow(pre: seq<Row>, x: Row, y: Row, actual: seq<Actual>, positives: seq<Expected>)
    requires |pre| < |actual| && RowFor(pre + [x], |pre|, actual, positives) && RowFor(pre + [y], |pre|, actual, positives)
    ensures x == y
  {
    RowForLast(pre, x, actual, positives);
    RowForLast(pre, y, actual, positives);
  }

  lemma RowForLast(pre: seq<Row>, x: Row, actual: seq<Actual>, positives: seq<Expected>)
    requires |pre| < |actual| && RowFor(pre + [x], |pre|, actual, positives)
    ensures var i := |pre|;
            match x
            case TruePositive(e, a, severity, endpoint, evidence) =>
              && a == i && e < |positives| && Matches(actual[i], positives[e])
              && !TakenBefore(pre, i, positives, positives[e].id) && NoneFree(pre, i, actual[i], positives, e)
              && severity == (actual[i].severity == positives[e].severity) && endpoint && evidence == actual[i].hasEvidence
            case Duplicate(a) => a == i && NoneFree(pre, i, actual[i], positives, |positives|) && Repeats(pre, actual, i)
            case FalsePositive(a) => a == i && NoneFree(pre, i, actual[i], positives, |positives|) && !Repeats(pre, actual, i)
            case FalseNegative(_) => false
  {
    var i := |pre|;
    assert (pre + [x])[i] == x;
    RepeatsExtends(pre, x, actual, i);
    if x.TruePositive? {
      TakenExtends(pre, x, i, positives, positives[x.expected].id);
      NoneFreeExtends(pre, x, i, actual[i], positives, x.expected);
    } else {
      NoneFreeExtends(pre, x, i, actual[i], positives, |positives|);
    }
  }

  // ----- no matching does better -----

  /** Pairs of positions, no position twice, every pair with equal keys. */
  ghost predicate IsMatching(pairs: seq<(nat, nat)>, actual: seq<Actual>, positives: seq<Expected>) {
    && (forall p :: 0 <= p < |pairs| ==> pairs[p].0 < |actual| && pairs[p].1 < |positives|
                                         && Matches(actual[pairs[p].0], positives[pairs[p].1]))
    && (forall p, q :: 0 <= p < q < |pairs| ==> pairs[p].0 != pairs[q].0 && pairs[p].1 != pairs[q].1)
  }

  function Picked(s: seq<Key>, positions: seq<nat>): seq<Key>
    requires forall p :: 0 <= p < |positions| ==> positions[p] < |s|
  {
    seq(|positions|, p requires 0 <= p < |positions| => s[positions[p]])
  }

  ghost predicate NoRepeat(positions: seq<nat>) {
    forall p, q :: 0 <= p < q < |positions| ==> positions[p] != positions[q]
  }

  lemma RemovePosition(positions: seq<nat>, p: nat)
    requires p < |positions| && NoRepeat(positions)
    ensures var rest := positions[..p] + positions[p + 1..];
            NoRepeat(rest) && forall q :: 0 <= q < |rest| ==> rest[q] in positions && rest[q] != positions[p]
  {
    var rest := positions[..p] + positions[p + 1..];
    forall q | 0 <= q < |rest| ensures rest[q] == positions[if q < p then q else q + 1] {
    }
  }

  /** Different positions of a sequence hold no more of anything than the sequence does. */
  lemma {:induction false} PickedWithin(s: seq<Key>, positions: seq<nat>)
    requires NoRepeat(positions) && forall p :: 0 <= p < |positions| ==> positions[p] < |s|
    ensures multiset(Picked(s, positions)) <= multiset(s)
    decreases |s|
  {
    if positions == [] {
      assert Picked(s, positions) == [];
    } else {
      assert positions[0] < |s|;
      var n := |s| - 1;
      assert s == s[..n] + [s[n]];
      if p: nat :| p < |positions| && positions[p] == n {
        var rest := positions[..p] + positions[p + 1..];
        RemovePosition(positions, p);
        forall q | 0 <= q < |rest| ensures rest[q] < n {
          assert rest[q] in positions;
        }
        PickedWithin(s[..n], rest);
        PickedSplit(s, positions, p);
      } else {
        PickedWithin(s[..n], positions);
        assert Picked(s, positions) == Picked(s[..n], positions);
      }
    }
  }

  lemma PickedSplit(s: seq<Key>, positions: seq<nat>, p: nat)
    requires (forall q :: 0 <= q < |positions| ==> positions[q] < |s|) && p < |positions| && positions[p] == |s| - 1
    requires forall q :: 0 <= q < |positions| && q != p ==> positions[q] < |s| - 1
    ensures var rest := positions[..p] + positions[p + 1..];
            (forall q :: 0 <= q < |rest| ==> rest[q] < |s| - 1)
            && multiset(Picked(s, positions)) == multiset(Picked(s[..|s| - 1], rest)) + multiset{s[|s| - 1]}
  {
    var n, rest := |s| - 1, positions[..p] + positions[p + 1..];
    assert forall q :: 0 <= q < |rest| ==> rest[q] == positions[if q < p then q else q + 1];
    var all, some := Picked(s, positions), Picked(s[..n], rest);
    assert all == all[..p] + [s[n]] + all[p + 1..];
    forall q | 0 <= q < |some| ensures some[q] == (all[..p] + all[p + 1..])[q] {
      assert some[q] == s[..n][rest[q]] == s[rest[q]];
    }
    assert some == all[..p] + all[p + 1..];
  }

  /** TruePositives is the size of a largest matching. */
  lemma NoMatchingDoesBetter(pairs: seq<(nat, nat)>, actual: seq<Actual>, positives: seq<Expected>)
    requires IsMatching(pairs, actual, positives)
    ensures |pairs| <= |multiset(ActualKeys(actual)) * multiset(ExpectedKeys(positives))|
  {
    var left := seq(|pairs|, p requires 0 <= p < |pairs| => pairs[p].0);
    var right := seq(|pairs|, p requires 0 <= p < |pairs| => pairs[p].1);
    PickedWithin(ActualKeys(actual), left);
    PickedWithin(ExpectedKeys(positives), right);
    assert Picked(ActualKeys(actual), left) == Picked(ExpectedKeys(positives), right);
    var m := multiset(Picked(ActualKeys(actual), left));
    assert |m| == |pairs|;
    Subset(m, multiset(ActualKeys(actual)) * multiset(ExpectedKeys(positives)));
  }

  lemma Subset(m: multiset<Key>, n: multiset<Key>)
    requires m <= n
    ensures |m| <= |n|
  {
    assert n == m + (n - m);
  }
}
