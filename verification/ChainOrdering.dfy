/** In what order Correlate works and reports, and what it cuts off, over the fields themselves. */
module ChainOrdering {
  import opened Basics
  import opened FirstBy
  import opened Graphs
  import opened Ordering
  import opened ChainModel
  import opened ChainComponents
  import opened ChainCorrelate
  import opened ChainReport
  import Joining

  // ----- which findings -----

  /** By scan, host, endpoint and at last ID. */
  ghost predicate Earlier(a: Finding, b: Finding) {
    || LexLess(a.scanId, b.scanId)
    || (a.scanId == b.scanId && LexLess(a.host, b.host))
    || (a.scanId == b.scanId && a.host == b.host && LexLess(a.affectedEndpoint, b.affectedEndpoint))
    || (a.scanId == b.scanId && a.host == b.host && a.affectedEndpoint == b.affectedEndpoint && LexLess(a.id, b.id))
  }

  lemma EarlierIff(a: Finding, b: Finding)
    ensures Earlier(a, b) <==> FindingLess(a, b)
  {
    LexTrichotomy(a.scanId, b.scanId);
    LexTrichotomy(a.host, b.host);
    LexTrichotomy(a.affectedEndpoint, b.affectedEndpoint);
    LexIsOrder();
  }

  /** No finding of the input with f's ID comes before it. */
  ghost predicate IsFirstOfId(findings: seq<Finding>, f: Finding) {
    exists i :: 0 <= i < |findings| && findings[i] == f && forall k :: 0 <= k < i ==> findings[k].id != f.id
  }

  lemma {:induction false} FirstOfIdIff(findings: seq<Finding>, f: Finding)
    ensures f in Firsts(findings, FindingId, {""}) <==> f.id != "" && IsFirstOfId(findings, f)
    decreases |findings|
  {
    if findings != [] {
      var n := |findings| - 1;
      var rest, last := findings[..n], findings[n];
      FirstOfIdIff(rest, f);
      FirstsFacts(rest, FindingId, {""});
      assert findings == rest + [last];
      FirstOfIdSnoc(rest, last, f);
      if last.id != "" {
        SeenIff(rest, last);
      }
    }
  }

  lemma FirstOfIdSnoc(rest: seq<Finding>, last: Finding, f: Finding)
    ensures IsFirstOfId(rest + [last], f)
       <==> IsFirstOfId(rest, f) || (f == last && forall k :: 0 <= k < |rest| ==> rest[k].id != f.id)
  {
    var all := rest + [last];
    if IsFirstOfId(rest, f) {
      var i :| 0 <= i < |rest| && rest[i] == f && forall k :: 0 <= k < i ==> rest[k].id != f.id;
      assert all[i] == f && forall k :: 0 <= k < i ==> all[k] == rest[k];
    }
    if f == last && forall k :: 0 <= k < |rest| ==> rest[k].id != f.id {
      assert all[|rest|] == f && forall k :: 0 <= k < |rest| ==> all[k] == rest[k];
    }
    if IsFirstOfId(all, f) {
      var i :| 0 <= i < |all| && all[i] == f && forall k :: 0 <= k < i ==> all[k].id != f.id;
      assert forall k :: 0 <= k < i && k < |rest| ==> all[k] == rest[k];
      assert i < |rest| ==> rest[i] == f;
    }
  }

  lemma SeenIff(rest: seq<Finding>, last: Finding)
    requires last.id != ""
    ensures FindingId(last) in KeySet(Firsts(rest, FindingId, {""}), FindingId)
       <==> exists k :: 0 <= k < |rest| && rest[k].id == last.id
  {
    FirstsFacts(rest, FindingId, {""});
    assert FindingId(last) in KeySet(rest, FindingId) <==> exists x :: x in rest && FindingId(x) == last.id;
    if k :| 0 <= k < |rest| && rest[k].id == last.id {
      assert rest[k] in rest && FindingId(rest[k]) == last.id;
    }
  }

  /** Correlate works on the first finding of every non-empty ID, in order, and leaves out only later ones. */
  lemma ChosenMeans(findings: seq<Finding>, limits: Limits)
    ensures var order := Chosen(findings, limits);
            && (forall i, j :: 0 <= i < j < |order| ==> Earlier(order[i], order[j]))
            && (forall f: Finding :: f in order ==> f.id != "" && IsFirstOfId(findings, f))
            && |order| <= limits.maxFindings
            && forall f: Finding, g: Finding :: f.id != "" && IsFirstOfId(findings, f) && f !in order && g in order ==>
                 Earlier(g, f) && |order| == limits.maxFindings
  {
    var first := Firsts(findings, FindingId, {""});
    var sorted, order := Sort(first, FindingLess), Chosen(findings, limits);
    FirstsFacts(findings, FindingId, {""});
    FindingStrictTotal(first);
    SortSorts(first, FindingLess);
    SortPermutes(first, FindingLess);
    SameMultisetSameElements(first, sorted);
    KeysStayDistinct(first, sorted);
    forall i, j | 0 <= i < j < |sorted| ensures Earlier(sorted[i], sorted[j]) {
      InOrder(first, sorted, i, j);
    }
    forall f: Finding | f in order ensures f.id != "" && IsFirstOfId(findings, f) {
      FirstOfIdIff(findings, f);
    }
    forall f: Finding, g: Finding | f.id != "" && IsFirstOfId(findings, f) && f !in order && g in order
      ensures Earlier(g, f) && |order| == limits.maxFindings
    {
      FirstOfIdIff(findings, f);
      assert f in sorted;
      LeftOutLater(sorted, limits.maxFindings, f, g);
    }
  }

  lemma InOrder(first: seq<Finding>, sorted: seq<Finding>, i: nat, j: nat)
    requires StrictTotalOn(FindingLess, Elements(first)) && Sorted(sorted, FindingLess) && i < j < |sorted|
    requires DistinctFindings(sorted) && forall f: Finding :: f in sorted ==> f in first
    ensures Earlier(sorted[i], sorted[j])
  {
    assert sorted[i] in first && sorted[j] in first && FindingId(sorted[i]) != FindingId(sorted[j]);
    assert sorted[i] in Elements(first) && sorted[j] in Elements(first);
    EarlierIff(sorted[i], sorted[j]);
  }

  lemma LeftOutLater(sorted: seq<Finding>, max: nat, f: Finding, g: Finding)
    requires forall i, j :: 0 <= i < j < |sorted| ==> Earlier(sorted[i], sorted[j])
    requires f in sorted && f !in Take(sorted, max) && g in Take(sorted, max)
    ensures Earlier(g, f) && |Take(sorted, max)| == max
  {
    var j :| 0 <= j < |sorted| && sorted[j] == f;
    var i :| 0 <= i < |Take(sorted, max)| && Take(sorted, max)[i] == g;
    assert forall k :: 0 <= k < |Take(sorted, max)| ==> Take(sorted, max)[k] == sorted[k];
  }

  // ----- the order of the report -----

  /** By kind, as its name sorts, then by the two ends and at last by ID. */
  ghost predicate Precedes(a: Relation, b: Relation) {
    || LexLess(TypeName(a.kind), TypeName(b.kind))
    || (a.kind == b.kind && LexLess(a.findingA, b.findingA))
    || (a.kind == b.kind && a.findingA == b.findingA && LexLess(a.findingB, b.findingB))
    || (a.kind == b.kind && a.findingA == b.findingA && a.findingB == b.findingB && LexLess(a.id, b.id))
  }

  lemma PrecedesIff(a: Relation, b: Relation)
    ensures Precedes(a, b) <==> RelationLess(a, b)
  {
    LexIsOrder();
    if TypeName(a.kind) == TypeName(b.kind) {
      TypeNamesDiffer(a.kind, b.kind);
    }
  }

  lemma PrecedesTransitive(a: Relation, b: Relation, c: Relation)
    requires Precedes(a, b) && Precedes(b, c)
    ensures Precedes(a, c)
  {
    LexIsOrder();
    LexTrichotomy(TypeName(a.kind), TypeName(c.kind));
  }

  lemma RelationStrictTotal(rs: seq<Relation>)
    requires DistinctKeys(rs, ChainCorrelate.RelationId)
    ensures StrictTotalOn(RelationLess, Elements(rs))
  {
    LexIsOrder();
    forall a, b, c | a in Elements(rs) && b in Elements(rs) && c in Elements(rs) && RelationLess(a, b) && RelationLess(b, c)
      ensures RelationLess(a, c)
    {
      PrecedesIff(a, b);
      PrecedesIff(b, c);
      PrecedesTransitive(a, b, c);
      PrecedesIff(a, c);
    }
    forall a, b | a in Elements(rs) && b in Elements(rs) && a != b ensures RelationLess(a, b) || RelationLess(b, a) {
      DifferentIds(rs, a, b);
      if a.kind != b.kind {
        LexTrichotomy(TypeName(a.kind), TypeName(b.kind));
        TypeNamesMatch(a.kind, b.kind);
      }
    }
  }

  lemma TypeNamesMatch(k: RelationType, l: RelationType)
    requires k != l
    ensures TypeName(k) != TypeName(l)
  {
    if TypeName(k) == TypeName(l) {
      TypeNamesDiffer(k, l);
    }
  }

  lemma DifferentIds(rs: seq<Relation>, a: Relation, b: Relation)
    requires DistinctKeys(rs, ChainCorrelate.RelationId) && a in rs && b in rs && a != b
    ensures a.id != b.id
  {
    var i :| 0 <= i < |rs| && rs[i] == a;
    var j :| 0 <= j < |rs| && rs[j] == b;
    assert i < j || j < i;
    assert ChainCorrelate.RelationId(rs[i]) != ChainCorrelate.RelationId(rs[j]);
  }

  /** The relations are listed in strict order, so no two have the same ID, and no more than the cap. */
  lemma RelationsInOrder(digest: Digest, order: seq<Finding>, limits: Limits)
    ensures var rs := RelationsOf(digest, order, limits);
            (forall i, j :: 0 <= i < j < |rs| ==> Precedes(rs[i], rs[j]) && rs[i].id != rs[j].id) && |rs| <= limits.maxRelations
  {
    var taken := TakenPairs(digest, order, limits);
    var first := Firsts(taken, ChainCorrelate.RelationId, {});
    var rs := RelationsOf(digest, order, limits);
    FirstsFacts(taken, ChainCorrelate.RelationId, {});
    FirstsNoLonger(taken, ChainCorrelate.RelationId, {});
    RelationStrictTotal(first);
    SortSorts(first, RelationLess);
    SortPermutes(first, RelationLess);
    SameMultisetSameElements(first, rs);
    assert |multiset(rs)| == |multiset(first)|;
    RelationKeys(first);
    NoDupFromMultiset(first, rs);
    forall i, j | 0 <= i < j < |rs| ensures Precedes(rs[i], rs[j]) && rs[i].id != rs[j].id {
      assert rs[i] in first && rs[j] in first && rs[i] != rs[j];
      assert rs[i] in Elements(first) && rs[j] in Elements(first);
      DifferentIds(first, rs[i], rs[j]);
      PrecedesIff(rs[i], rs[j]);
    }
  }

  lemma RelationKeys(rs: seq<Relation>)
    requires DistinctKeys(rs, ChainCorrelate.RelationId)
    ensures NoDup(rs)
  {
    forall i, j | 0 <= i < j < |rs| ensures rs[i] != rs[j] {
      assert ChainCorrelate.RelationId(rs[i]) != ChainCorrelate.RelationId(rs[j]);
    }
  }

  ghost predicate CandidateBefore(a: Candidate, b: Candidate) {
    LexLess(a.scanJobId, b.scanJobId) || (a.scanJobId == b.scanJobId && (a.id == b.id || LexLess(a.id, b.id)))
  }

  /** Candidates are listed by scan, then by ID, and their IDs are those of their findings. */
  lemma CandidatesInOrder(digest: Digest, findings: seq<Finding>, limits: Limits, relations: seq<Relation>, candidates: seq<Candidate>)
    requires limits.maxChainLength > 0 && IsResult(digest, findings, limits, relations, candidates)
    ensures forall i, j :: 0 <= i < j < |candidates| ==>
              CandidateBefore(candidates[i], candidates[j])
    ensures forall c :: c in candidates ==> c.id == digest(Joining.Join(c.findingIds, '\U{001F}'))
  {
    var views := Views(Chosen(findings, limits));
    var all: seq<Candidate> :| IsFullList(all, AllCandidates(digest, relations, views, limits))
               && candidates == Take(all, limits.maxCandidateChains);
    forall i, j | 0 <= i < j < |candidates|
      ensures CandidateBefore(candidates[i], candidates[j])
    {
      assert !CandidateLess(all[j], all[i]);
      LexTrichotomy(all[i].scanJobId, all[j].scanJobId);
      LexTrichotomy(all[i].id, all[j].id);
    }
    forall c | c in candidates ensures c.id == digest(Joining.Join(c.findingIds, '\U{001F}')) {
      assert c in Elements(all);
      var k :| k in Components(relations) && CandidateFor(digest, k, relations, views, limits) == Some(c);
    }
  }

  /** The bounds that stand in for zero. */
  lemma DefaultBounds(raw: Limits)
    ensures var l := Normalize(raw);
            && l.maxFindings == (if raw.maxFindings == 0 then 500 else raw.maxFindings)
            && l.maxRelations == (if raw.maxRelations == 0 then 2000 else raw.maxRelations)
            && l.maxChainLength == (if raw.maxChainLength == 0 then 10 else raw.maxChainLength)
            && l.maxCandidateChains == (if raw.maxCandidateChains == 0 then 100 else raw.maxCandidateChains)
  {
  }

  // ----- what a shortened chain says -----

  /** One end of some relation is listed, the other is not. */
  ghost predicate Severed(relations: seq<Relation>, ids: seq<string>) {
    exists r :: r in relations && (r.findingA in ids) != (r.findingB in ids)
  }

  ghost function Sides(relations: seq<Relation>, ids: seq<string>): map<string, string> {
    map x | x in Nodes(Graph(relations)) :: if x in ids then "in" else "out"
  }

  /** Nothing connects the listed findings of a component to the others: then there are no others. */
  lemma NoneLeftOut(relations: seq<Relation>, c: set<string>, ids: seq<string>, x: string)
    requires c in Components(relations) && ids != [] && Elements(ids) <= c && !Severed(relations, ids) && x in c
    ensures x in ids
  {
    var e := Graph(relations);
    var root :| root in Nodes(e) && c == Component(e, root);
    var first := ids[0];
    assert first in Elements(ids);
    LinkedSameComponent(e, root, first);
    assert Linked(e, first, x) by {
      assert x in Component(e, first);
    }
    var sides := Sides(relations, ids);
    forall a, b | (a, b) in e ensures a in sides && b in sides && sides[a] == sides[b] {
      var i :| 0 <= i < |relations| && Ends(relations)[i] == (a, b);
      assert relations[i] in relations;
      RelationEnds(relations, relations[i]);
    }
    var w :| Graphs.Joins(e, w, first, x);
    WalkKeepsColour(e, w, sides);
  }

  lemma ListedIs(c: set<string>, limits: Limits)
    requires limits.maxChainLength > 0 && c != {}
    ensures var ids := Listed(c, limits);
            ids != [] && Elements(ids) <= c && (Elements(ids) == c <==> |c| <= limits.maxChainLength)
  {
    SortedSetFacts(c);
    var ids := Listed(c, limits);
    assert Elements(ids) <= Elements(SortedSet(c));
    NoDupCount(ids);
  }

  lemma CappedIff(c: set<string>, relations: seq<Relation>, limits: Limits)
    requires limits.maxChainLength > 0 && c in Components(relations) && c != {}
    ensures |c| > limits.maxChainLength <==> Severed(relations, Listed(c, limits))
  {
    var ids := Listed(c, limits);
    ListedIs(c, limits);
    if !Severed(relations, ids) {
      forall x | x in c ensures x in Elements(ids) {
        NoneLeftOut(relations, c, ids, x);
      }
    } else {
      var r :| r in relations && (r.findingA in ids) != (r.findingB in ids);
      var root :| root in Nodes(Graph(relations)) && c == Component(Graph(relations), root);
      RelationInComponent(relations, r, root);
      assert r.findingA in Elements(ids) || r.findingB in Elements(ids);
      OneOutside(c, ids, r.findingA, r.findingB);
    }
  }

  lemma OneOutside(c: set<string>, ids: seq<string>, a: string, b: string)
    requires (a in ids) != (b in ids) && a in c && b in c
    ensures Elements(ids) != c
  {
    assert a in Elements(ids) <==> a in ids;
    assert b in Elements(ids) <==> b in ids;
  }

  /** A candidate says its length was capped exactly when some relation leads out of the findings it lists. */
  lemma CappedMeansSevered(digest: Digest, findings: seq<Finding>, limits: Limits, relations: seq<Relation>, candidates: seq<Candidate>)
    requires limits.maxChainLength > 0 && IsResult(digest, findings, limits, relations, candidates)
    ensures forall c :: c in candidates ==> (c.impact.capped <==> Severed(relations, c.findingIds))
  {
    var views := Views(Chosen(findings, limits));
    var all: seq<Candidate> :| IsFullList(all, AllCandidates(digest, relations, views, limits))
                               && candidates == Take(all, limits.maxCandidateChains);
    forall c | c in candidates ensures c.impact.capped <==> Severed(relations, c.findingIds) {
      assert c in Elements(all);
      var k :| k in Components(relations) && CandidateFor(digest, k, relations, views, limits) == Some(c);
      SortedSetFacts(k);
      CappedIff(k, relations, limits);
    }
  }
}
