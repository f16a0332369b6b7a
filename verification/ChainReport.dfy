/** What Correlate reports, over the fields of the findings alone: which of them are related, and what
    each candidate says about its own. */
module ChainReport {
  import opened Basics
  import opened FirstBy
  import opened Ordering
  import opened ChainModel
  import opened ChainComponents
  import opened ChainRelate
  import opened ChainTokens
  import opened ChainCorrelate
  import opened ChainMeaning
  import Joining

  // ----- token frequencies -----

  lemma HoldsIff(f: Finding, t: string)
    ensures t in TokenSet(f) <==> Specific(t) && Carries(f, t)
  {
    var contents := EvidenceStrings(f.evidence);
    CarriesIff(f, t);
    SpecificIff(t);
    if InSome(contents, t) {
      var c :| c in contents && t in SplitTokens(c);
    }
  }

  lemma {:induction false} OneIdEach(fs: set<Finding>, ids: set<string>)
    requires forall f, g :: f in fs && g in fs && f.id == g.id ==> f == g
    requires ids == set f | f in fs :: f.id
    ensures |ids| == |fs|
    decreases |fs|
  {
    if fs != {} {
      var f :| f in fs;
      assert ids - {f.id} == set g | g in fs - {f} :: g.id;
      OneIdEach(fs - {f}, ids - {f.id});
    }
  }

  lemma SameIdSame(order: seq<Finding>)
    requires DistinctFindings(order)
    ensures forall f, g :: f in order && g in order && f.id == g.id ==> f == g
  {
    forall f, g | f in order && g in order && f.id == g.id ensures f == g {
      var i :| 0 <= i < |order| && order[i] == f;
      var j :| 0 <= j < |order| && order[j] == g;
      assert FindingId(order[i]) == FindingId(order[j]);
    }
  }

  lemma HoldersAre(order: seq<Finding>, t: string)
    requires DistinctFindings(order) && Specific(t)
    ensures Holders(Views(order), t) == set f | f in Carriers(Elements(order), t) :: f.id
  {
    ViewsFacts(order);
    var views := Views(order);
    forall id ensures id in Holders(views, t) <==> exists f :: f in Carriers(Elements(order), t) && f.id == id {
      if id in Holders(views, t) {
        assert id in KeySet(order, FindingId);
        var f :| f in order && f.id == id;
        HoldsIff(f, t);
        assert f in Carriers(Elements(order), t);
      }
      if f :| f in Carriers(Elements(order), t) && f.id == id {
        assert f in order;
        HoldsIff(f, t);
      }
    }
  }

  /** The table Correlate looks tokens up in counts findings: each once, however often it repeats a token. */
  lemma FrequenciesCount(order: seq<Finding>)
    requires DistinctFindings(order)
    ensures Counts(Frequencies(Views(order)), Elements(order))
  {
    var views := Views(order);
    SameIdSame(order);
    forall t | Specific(t) ensures Lookup(Frequencies(views), t) == |Carriers(Elements(order), t)| {
      HoldersAre(order, t);
      OneIdEach(Carriers(Elements(order), t), Holders(views, t));
      if t !in AllTokens(views) {
        NoHolders(views, t);
      }
    }
  }

  // ----- both ways round -----

  /** Something relates a and b in this way. */
  ghost predicate Connects(kind: RelationType, a: Finding, b: Finding, batch: set<Finding>) {
    exists detail :: Fits(kind, a, b, batch, detail)
  }

  lemma ConnectsSym(kind: RelationType, a: Finding, b: Finding, batch: set<Finding>)
    requires Connects(kind, a, b, batch)
    ensures Connects(kind, b, a, batch)
  {
    var d :| Fits(kind, a, b, batch, d);
    if kind == SameEndpoint {
      assert Fits(kind, b, a, batch, Folded(b.host) + ":" + Joining.Itoa(b.port) + PathText(b));
    } else if kind == SharedEvidence {
      assert Shares(b, a, batch, d);
      forall t | Shares(b, a, batch, t) ensures |t| <= |d| {
        assert Shares(a, b, batch, t);
      }
      assert Fits(kind, b, a, batch, d);
    } else {
      assert Fits(kind, b, a, batch, d);
    }
  }

  /** The ID of the relation of this kind between two findings. */
  function NameOf(digest: Digest, kind: RelationType, x: string, y: string): string {
    digest(Joining.Join(if LexLess(x, y) then [TypeName(kind), x, y] else [TypeName(kind), y, x], '\U{001F}'))
  }

  lemma JoinsNamed(digest: Digest, a: Finding, b: Finding, r: Relation)
    requires Joins(digest, a, b, r) && a.id != b.id
    ensures r.id == NameOf(digest, r.kind, a.id, b.id)
  {
    LexTrichotomy(a.id, b.id);
    if LexLess(a.id, b.id) {
      Ordered(a.id, b.id, r.findingA, r.findingB);
    } else {
      assert {a.id, b.id} == {b.id, a.id};
      Ordered(b.id, a.id, r.findingA, r.findingB);
    }
  }

  lemma NameSym(digest: Digest, kind: RelationType, x: string, y: string)
    ensures NameOf(digest, kind, x, y) == NameOf(digest, kind, y, x)
  {
    LexTrichotomy(x, y);
    LexTrichotomy(y, x);
  }

  /** Whatever connects a pair gives it a relation. */
  lemma PairConnects(digest: Digest, kind: RelationType, a: Finding, b: Finding, freq: map<string, nat>, batch: set<Finding>)
    returns (r: Relation)
    requires Counts(freq, batch) && a.id != b.id && Together(a, b) && Connects(kind, a, b, batch)
    ensures r in PairRelations(digest, a, b, freq) && r.kind == kind && Relates(digest, a, b, batch, r)
  {
    PairMeans(digest, a, b, freq, batch);
    var d :| Fits(kind, a, b, batch, d);
    if kind == SharedEvidence {
      assert Shares(a, b, batch, d);
      r :| r in PairRelations(digest, a, b, freq) && r.kind == SharedEvidence;
    } else {
      r := NewRelation(digest, kind, ViewOf(a), ViewOf(b), Weight(kind), d);
      NewIs(digest, kind, a, b, d, r);
    }
  }

  // ----- the whole batch -----

  ghost predicate Related(relations: seq<Relation>, id: string) {
    exists r :: r in relations && r.id == id
  }

  lemma ReportedId(digest: Digest, order: seq<Finding>, limits: Limits, r: Relation)
    requires r in AllPairs(Relating(digest, Frequencies(Views(order))), order)
    requires |AllPairs(Relating(digest, Frequencies(Views(order))), order)| <= limits.maxRelations
    ensures Related(RelationsOf(digest, order, limits), r.id)
  {
    var taken := TakenPairs(digest, order, limits);
    var first := Firsts(taken, ChainCorrelate.RelationId, {});
    FirstsFacts(taken, ChainCorrelate.RelationId, {});
    SortPermutes(first, RelationLess);
    SameMultisetSameElements(Sort(first, RelationLess), first);
    assert ChainCorrelate.RelationId(r) in KeySet(taken, ChainCorrelate.RelationId);
    assert ChainCorrelate.RelationId(r) in KeySet(first, ChainCorrelate.RelationId);
    var s :| s in first && ChainCorrelate.RelationId(s) == ChainCorrelate.RelationId(r);
    assert s in RelationsOf(digest, order, limits);
  }

  lemma ConnectedAt(digest: Digest, order: seq<Finding>, limits: Limits, kind: RelationType, i: nat, j: nat, a: Finding, b: Finding)
    requires DistinctFindings(order) && i < j < |order| && a == order[i] && b == order[j]
    requires |AllPairs(Relating(digest, Frequencies(Views(order))), order)| <= limits.maxRelations
    requires Together(a, b) && Connects(kind, a, b, Elements(order))
    ensures Related(RelationsOf(digest, order, limits), NameOf(digest, kind, a.id, b.id))
  {
    var freq := Frequencies(Views(order));
    FrequenciesCount(order);
    assert FindingId(order[i]) != FindingId(order[j]);
    var r := PairConnects(digest, kind, a, b, freq, Elements(order));
    JoinsNamed(digest, a, b, r);
    IntoPairs(Relating(digest, freq), order, |order|, i, j, r);
    ReportedId(digest, order, limits, r);
  }

  lemma ConnectedBack(digest: Digest, order: seq<Finding>, limits: Limits, kind: RelationType, i: nat, j: nat, a: Finding, b: Finding)
    requires DistinctFindings(order) && j < i < |order| && a == order[i] && b == order[j]
    requires |AllPairs(Relating(digest, Frequencies(Views(order))), order)| <= limits.maxRelations
    requires Together(a, b) && Connects(kind, a, b, Elements(order))
    ensures Related(RelationsOf(digest, order, limits), NameOf(digest, kind, a.id, b.id))
  {
    ConnectsSym(kind, a, b, Elements(order));
    NameSym(digest, kind, a.id, b.id);
    ConnectedAt(digest, order, limits, kind, j, i, b, a);
  }

  lemma Connected(digest: Digest, order: seq<Finding>, limits: Limits, kind: RelationType, a: Finding, b: Finding)
    requires DistinctFindings(order) && a in order && b in order && a.id != b.id
    requires |AllPairs(Relating(digest, Frequencies(Views(order))), order)| <= limits.maxRelations
    requires Together(a, b) && Connects(kind, a, b, Elements(order))
    ensures Related(RelationsOf(digest, order, limits), NameOf(digest, kind, a.id, b.id))
  {
    var i :| 0 <= i < |order| && order[i] == a;
    var j :| 0 <= j < |order| && order[j] == b;
    if i < j {
      ConnectedAt(digest, order, limits, kind, i, j, a, b);
    } else {
      ConnectedBack(digest, order, limits, kind, i, j, a, b);
    }
  }

  /** The findings with an ID. */
  function Usable(findings: seq<Finding>): set<Finding> {
    set f | f in findings && f.id != ""
  }

  /** Below the cap Correlate works on all of them. */
  lemma ChosenIsUsable(findings: seq<Finding>, limits: Limits)
    requires Consistent(findings) && |Firsts(findings, FindingId, {""})| <= limits.maxFindings
    ensures Elements(Chosen(findings, limits)) == Usable(findings)
  {
    var first := Firsts(findings, FindingId, {""});
    FirstsFacts(findings, FindingId, {""});
    SortPermutes(first, FindingLess);
    SameMultisetSameElements(first, Sort(first, FindingLess));
    assert Chosen(findings, limits) == Sort(first, FindingLess);
    forall f | f in Usable(findings) ensures f in first {
      assert FindingId(f) in KeySet(findings, FindingId);
      assert FindingId(f) in KeySet(first, FindingId);
      var g :| g in first && FindingId(g) == FindingId(f);
    }
  }

  /** Two findings of the batch justify r. */
  ghost predicate Justified(digest: Digest, batch: set<Finding>, r: Relation) {
    exists a, b :: a in batch && b in batch && Relates(digest, a, b, batch, r)
  }

  /** Two isolated findings of the batch that something of this kind connects. */
  ghost predicate Relatable(kind: RelationType, a: Finding, b: Finding, batch: set<Finding>) {
    a in batch && b in batch && a.id != b.id && Together(a, b) && Connects(kind, a, b, batch)
  }

  /** Under any caps nothing is reported that two of the findings do not justify. */
  lemma RelationsJustified(digest: Digest, findings: seq<Finding>, limits: Limits, relations: seq<Relation>, candidates: seq<Candidate>)
    requires limits.maxChainLength > 0 && IsResult(digest, findings, limits, relations, candidates)
    ensures forall r :: r in relations ==> Justified(digest, Elements(Chosen(findings, limits)), r)
    ensures Elements(Chosen(findings, limits)) <= Elements(findings)
  {
    var order := Chosen(findings, limits);
    ChosenDistinct(findings, limits);
    FrequenciesCount(order);
    forall r | r in relations ensures Justified(digest, Elements(order), r) {
      var a, b := RelatedPair(digest, order, limits, r);
      PairMeans(digest, a, b, Frequencies(Views(order)), Elements(order));
      assert a in Elements(order) && b in Elements(order);
    }
  }

  /** When no cap cuts anything off, every pair that something connects is related, and only such pairs are. */
  lemma RelationsMean(digest: Digest, findings: seq<Finding>, limits: Limits, relations: seq<Relation>, candidates: seq<Candidate>)
    requires limits.maxChainLength > 0 && IsResult(digest, findings, limits, relations, candidates)
    requires Consistent(findings) && !Lost(digest, findings, limits, relations)
    ensures forall r :: r in relations ==> Justified(digest, Usable(findings), r)
    ensures forall kind, a, b :: Relatable(kind, a, b, Usable(findings)) ==> Related(relations, NameOf(digest, kind, a.id, b.id))
  {
    var order := Chosen(findings, limits);
    ChosenDistinct(findings, limits);
    ChosenIsUsable(findings, limits);
    RelationsJustified(digest, findings, limits, relations, candidates);
    forall kind, a, b | Relatable(kind, a, b, Usable(findings)) ensures Related(relations, NameOf(digest, kind, a.id, b.id)) {
      assert a in Elements(order) && b in Elements(order);
      Connected(digest, order, limits, kind, a, b);
    }
  }

  lemma TypeNamesDiffer(k: RelationType, l: RelationType)
    requires TypeName(k) == TypeName(l)
    ensures k == l
  {
    var x, y := TypeName(k), TypeName(l);
    assert |x| == |y| && x[5] == y[5];
  }

  lemma TypeNameFree(k: RelationType)
    ensures Joining.Free(TypeName(k), '\U{001F}')
  {
  }

  /** Under an injective digest and without separators inside IDs, a relation's ID tells its kind and its ends. */
  lemma NameTells(digest: Digest, k: RelationType, x: string, y: string, l: RelationType, u: string, v: string)
    requires forall s: string, t: string :: digest(s) == digest(t) ==> s == t
    requires forall s :: s in {x, y, u, v} ==> Joining.Free(s, '\U{001F}')
    requires NameOf(digest, k, x, y) == NameOf(digest, l, u, v)
    ensures k == l && {x, y} == {u, v}
  {
    var p := if LexLess(x, y) then [TypeName(k), x, y] else [TypeName(k), y, x];
    var q := if LexLess(u, v) then [TypeName(l), u, v] else [TypeName(l), v, u];
    TypeNameFree(k);
    TypeNameFree(l);
    Joining.JoinInjective(p, q, '\U{001F}');
    assert p[0] == q[0] && {p[1], p[2]} == {q[1], q[2]};
    assert {p[1], p[2]} == {x, y} && {q[1], q[2]} == {u, v};
    TypeNamesDiffer(k, l);
  }

  ghost predicate Between(relations: seq<Relation>, kind: RelationType, x: string, y: string) {
    exists r :: r in relations && r.kind == kind && {r.findingA, r.findingB} == {x, y}
  }

  lemma RelatableBetween(digest: Digest, relations: seq<Relation>, batch: set<Finding>, kind: RelationType, a: Finding, b: Finding)
    requires forall s: string, t: string :: digest(s) == digest(t) ==> s == t
    requires forall f :: f in batch ==> Joining.Free(f.id, '\U{001F}')
    requires forall r :: r in relations ==> Justified(digest, batch, r)
    requires Relatable(kind, a, b, batch) && Related(relations, NameOf(digest, kind, a.id, b.id))
    ensures Between(relations, kind, a.id, b.id)
  {
    var r :| r in relations && r.id == NameOf(digest, kind, a.id, b.id);
    var f, g :| f in batch && g in batch && Relates(digest, f, g, batch, r);
    JoinsNamed(digest, f, g, r);
    NameTells(digest, kind, a.id, b.id, r.kind, f.id, g.id);
    assert {r.findingA, r.findingB} == {a.id, b.id};
  }

  lemma BetweenRelatable(digest: Digest, relations: seq<Relation>, batch: set<Finding>, kind: RelationType, a: Finding, b: Finding)
    requires forall f, g :: f in batch && g in batch && f.id == g.id ==> f == g
    requires forall r :: r in relations ==> Justified(digest, batch, r)
    requires a in batch && b in batch && Between(relations, kind, a.id, b.id)
    ensures Relatable(kind, a, b, batch)
  {
    var r :| r in relations && r.kind == kind && {r.findingA, r.findingB} == {a.id, b.id};
    var f, g :| f in batch && g in batch && Relates(digest, f, g, batch, r);
    SamePair(f.id, g.id, a.id, b.id);
    assert Connects(kind, f, g, batch);
    ConnectsSym(kind, f, g, batch);
  }

  /** Then the relations are exactly the connected pairs: two findings are related in some way if and only if
      their fields say so. */
  lemma RelatedIff(digest: Digest, findings: seq<Finding>, limits: Limits, relations: seq<Relation>, candidates: seq<Candidate>,
                   kind: RelationType, a: Finding, b: Finding)
    requires limits.maxChainLength > 0 && IsResult(digest, findings, limits, relations, candidates)
    requires Consistent(findings) && !Lost(digest, findings, limits, relations)
    requires forall s: string, t: string :: digest(s) == digest(t) ==> s == t
    requires forall f :: f in findings ==> Joining.Free(f.id, '\U{001F}')
    requires a in Usable(findings) && b in Usable(findings)
    ensures Between(relations, kind, a.id, b.id) <==> a.id != b.id && Together(a, b) && Connects(kind, a, b, Usable(findings))
  {
    var batch := Usable(findings);
    RelationsMean(digest, findings, limits, relations, candidates);
    if Relatable(kind, a, b, batch) {
      RelatableBetween(digest, relations, batch, kind, a, b);
    }
    if Between(relations, kind, a.id, b.id) {
      BetweenRelatable(digest, relations, batch, kind, a, b);
    }
  }

  lemma SamePair(x: string, y: string, u: string, v: string)
    requires {x, y} == {u, v} && x != y
    ensures (x == u && y == v) || (x == v && y == u)
    ensures u != v
  {
    assert x in {u, v} && y in {u, v} && u in {x, y} && v in {x, y};
  }

  // ----- what a candidate says about its findings -----

  /** The relations between the findings c lists. */
  ghost predicate Inside(c: Candidate, r: Relation) {
    r.findingA in c.findingIds && r.findingB in c.findingIds
  }

  /** Evidence, not only structure, ties its findings together. */
  ghost predicate Telling(kind: RelationType) {
    kind == DataFlow || kind == SharedEvidence || kind == PotentialPrecondition
  }

  /** The status, the confidence and the reasons of c come from the relations between its findings, all of them. */
  ghost predicate Summarises(c: Candidate, relations: seq<Relation>) {
    && (c.status == Supported <==> exists r :: r in relations && Inside(c, r) && Telling(r.kind))
    && (forall r :: r in relations && Inside(c, r) ==> r.confidence <= c.confidence)
    && (exists r :: r in relations && Inside(c, r) && r.confidence == c.confidence)
    && (forall id :: id in c.relationIds <==> exists r :: r in relations && Inside(c, r) && r.id == id)
    && (forall n :: n in c.reasons <==> exists r :: r in relations && Inside(c, r) && TypeName(r.kind) == n)
  }

  lemma {:induction false} HighestIs(relations: seq<Relation>)
    ensures forall r :: r in relations ==> r.confidence <= MaxConfidence(relations)
    ensures (forall r :: r in relations ==> r.confidence > 0.0) && relations != [] ==>
              exists r :: r in relations && r.confidence == MaxConfidence(relations)
    decreases |relations|
  {
    if relations != [] {
      var n := |relations| - 1;
      assert relations == relations[..n] + [relations[n]];
      HighestIs(relations[..n]);
      if relations[n].confidence <= MaxConfidence(relations[..n]) && relations[..n] != []
         && forall r :: r in relations ==> r.confidence > 0.0 {
        var r :| r in relations[..n] && r.confidence == MaxConfidence(relations[..n]);
        assert r in relations;
      }
    }
  }

  lemma IdsAre(within: seq<Relation>, id: string)
    ensures id in SortStrings(RelationIds(within)) <==> exists r :: r in within && r.id == id
  {
    var ids := RelationIds(within);
    SortPermutes(ids, LexLess);
    SameMultisetSameElements(ids, SortStrings(ids));
    if r :| r in within && r.id == id {
      var i :| 0 <= i < |within| && within[i] == r;
      assert ids[i] == id;
    }
    if id in ids {
      var i :| 0 <= i < |ids| && ids[i] == id;
      assert within[i] in within;
    }
  }

  lemma NamesAre(within: seq<Relation>, n: string)
    ensures n in SortedSet(KindNames(Kinds(within))) <==> exists r :: r in within && TypeName(r.kind) == n
  {
    SortedSetFacts(KindNames(Kinds(within)));
    assert n in SortedSet(KindNames(Kinds(within))) <==> n in Elements(SortedSet(KindNames(Kinds(within))));
    if r :| r in within && TypeName(r.kind) == n {
      assert r.kind in Kinds(within);
    }
  }

  lemma StatusIs(within: seq<Relation>)
    ensures ClassifyStatus(Kinds(within)) == Supported <==> exists r :: r in within && Telling(r.kind)
  {
    if r :| r in within && Telling(r.kind) {
      assert r.kind in Kinds(within);
    }
  }

  lemma Described(digest: Digest, c: Candidate, ids: seq<string>, relations: seq<Relation>, views: map<string, View>, capped: bool)
    requires ids != [] && Within(relations, Elements(ids)) != []
    requires c == Describe(digest, ids, Within(relations, Elements(ids)), views, capped)
    requires forall r :: r in relations ==> r.confidence > 0.0
    ensures Summarises(c, relations)
  {
    var within := Within(relations, Elements(ids));
    WithinFacts(relations, Elements(ids));
    assert forall r :: r in within <==> r in relations && Inside(c, r);
    HighestIs(within);
    StatusIs(within);
    forall id ensures id in c.relationIds <==> exists r :: r in within && r.id == id {
      IdsAre(within, id);
    }
    forall n ensures n in c.reasons <==> exists r :: r in within && TypeName(r.kind) == n {
      NamesAre(within, n);
    }
  }

  /** Every candidate of the result, under any caps, summarises the relations between the findings it lists. */
  lemma CandidatesSummarise(digest: Digest, findings: seq<Finding>, limits: Limits, relations: seq<Relation>, candidates: seq<Candidate>)
    requires limits.maxChainLength > 0 && IsResult(digest, findings, limits, relations, candidates)
    ensures forall c :: c in candidates ==> Summarises(c, relations)
  {
    var views := Views(Chosen(findings, limits));
    RelationsJustified(digest, findings, limits, relations, candidates);
    var all :| IsFullList(all, AllCandidates(digest, relations, views, limits))
               && candidates == Take(all, limits.maxCandidateChains);
    forall c | c in candidates ensures Summarises(c, relations) {
      assert c in Elements(all);
      var k :| k in Components(relations) && CandidateFor(digest, k, relations, views, limits) == Some(c);
      Weighty(digest, relations, Elements(Chosen(findings, limits)));
      Described(digest, c, Listed(k, limits), relations, views, |k| > limits.maxChainLength);
    }
  }

  lemma Weighty(digest: Digest, relations: seq<Relation>, batch: set<Finding>)
    requires forall r :: r in relations ==> Justified(digest, batch, r)
    ensures forall r :: r in relations ==> r.confidence > 0.0
  {
    forall r | r in relations ensures r.confidence > 0.0 {
      var a, b :| a in batch && b in batch && Relates(digest, a, b, batch, r);
    }
  }

  /** Two findings c lists that evidence of this kind connects. */
  ghost predicate Supports(c: Candidate, batch: set<Finding>, kind: RelationType, a: Finding, b: Finding) {
    Telling(kind) && a.id in c.findingIds && b.id in c.findingIds && Relatable(kind, a, b, batch)
  }

  /** A chain is supported, rather than potential, exactly when data or shared evidence of one of its findings
      leads to another. */
  lemma SupportedIff(digest: Digest, findings: seq<Finding>, limits: Limits, relations: seq<Relation>, candidates: seq<Candidate>,
                     c: Candidate)
    requires limits.maxChainLength > 0 && IsResult(digest, findings, limits, relations, candidates)
    requires Consistent(findings) && !Lost(digest, findings, limits, relations)
    requires forall s: string, t: string :: digest(s) == digest(t) ==> s == t
    requires forall f :: f in findings ==> Joining.Free(f.id, '\U{001F}')
    requires c in candidates
    ensures c.status == Supported <==> exists kind, a, b :: Supports(c, Usable(findings), kind, a, b)
  {
    var batch := Usable(findings);
    RelationsMean(digest, findings, limits, relations, candidates);
    CandidatesSummarise(digest, findings, limits, relations, candidates);
    if r :| r in relations && Inside(c, r) && Telling(r.kind) {
      SupportedBy(digest, batch, c, r);
    }
    if kind, a, b :| Supports(c, batch, kind, a, b) {
      SupportReported(digest, relations, batch, c, kind, a, b);
    }
  }

  lemma SupportedBy(digest: Digest, batch: set<Finding>, c: Candidate, r: Relation)
    requires Justified(digest, batch, r) && Inside(c, r) && Telling(r.kind)
    ensures exists kind, a, b :: Supports(c, batch, kind, a, b)
  {
    var a, b :| a in batch && b in batch && Relates(digest, a, b, batch, r);
    assert Fits(r.kind, a, b, batch, r.detail);
    SamePair(a.id, b.id, r.findingA, r.findingB);
    assert Supports(c, batch, r.kind, a, b);
  }

  lemma SupportReported(digest: Digest, relations: seq<Relation>, batch: set<Finding>, c: Candidate,
                        kind: RelationType, a: Finding, b: Finding)
    requires forall s: string, t: string :: digest(s) == digest(t) ==> s == t
    requires forall f :: f in batch ==> Joining.Free(f.id, '\U{001F}')
    requires forall r :: r in relations ==> Justified(digest, batch, r)
    requires Supports(c, batch, kind, a, b) && Related(relations, NameOf(digest, kind, a.id, b.id))
    ensures exists r :: r in relations && Inside(c, r) && Telling(r.kind)
  {
    RelatableBetween(digest, relations, batch, kind, a, b);
    var r :| r in relations && r.kind == kind && {r.findingA, r.findingB} == {a.id, b.id};
    SamePairEnds(r.findingA, r.findingB, a.id, b.id);
    assert Inside(c, r);
  }

  lemma SamePairEnds(x: string, y: string, u: string, v: string)
    requires {x, y} == {u, v}
    ensures x in {u, v} && y in {u, v}
  {
  }

  /** The findings of the batch that c lists. */
  ghost function Members(c: Candidate, batch: set<Finding>): set<Finding> {
    set f | f in batch && f.id in c.findingIds
  }

  ghost function PlacesOf(fs: set<Finding>): set<string> {
    set f | f in fs :: Folded(f.host) + ":" + Joining.Itoa(f.port) + PathText(f)
  }

  ghost function TypesOf(fs: set<Finding>): set<string> {
    set f | f in fs :: Folded(f.vulnerabilityType)
  }

  /** The endpoints and the impact of c are counted over the findings it lists. */
  ghost predicate Covers(c: Candidate, batch: set<Finding>) {
    && Elements(c.endpoints) == PlacesOf(Members(c, batch)) && NoDup(c.endpoints)
    && c.impact.findings == |c.findingIds| && c.impact.endpoints == |c.endpoints|
    && c.impact.vulnerabilityTypes == |TypesOf(Members(c, batch))|
  }

  lemma MembersViewed(order: seq<Finding>, c: Candidate)
    requires DistinctFindings(order)
    ensures Endpoints(c.findingIds, Views(order)) == PlacesOf(Members(c, Elements(order)))
    ensures VulnTypes(c.findingIds, Views(order)) == TypesOf(Members(c, Elements(order)))
  {
    ViewsFacts(order);
    var views, ms := Views(order), Members(c, Elements(order));
    forall f | f in ms ensures f.id in c.findingIds && f.id in views && views[f.id] == ViewOf(f) {
      assert f in order;
    }
    forall id | id in c.findingIds && id in views ensures views[id].finding in ms && views[id] == ViewOf(views[id].finding) {
      assert id in KeySet(order, FindingId);
      var f :| f in order && f.id == id;
    }
    forall f | f in ms ensures views[f.id].endpoint != "" {
      assert EndpointKey(f)[|HostOf(f)|] == Joining.UNIT_SEPARATOR;
    }
    SameImages(c.findingIds, views, ms);
  }

  lemma SameImages(ids: seq<string>, views: map<string, View>, ms: set<Finding>)
    requires forall f :: f in ms ==> f.id in ids && f.id in views && views[f.id].finding == f && views[f.id].endpoint != ""
    requires forall id :: id in ids && id in views ==> views[id].finding in ms && views[id].endpoint != ""
    ensures Endpoints(ids, views) == PlacesOf(ms) && VulnTypes(ids, views) == TypesOf(ms)
  {
    forall e | e in PlacesOf(ms) ensures e in Endpoints(ids, views) {
      var f :| f in ms && e == Folded(f.host) + ":" + Joining.Itoa(f.port) + PathText(f);
      assert e == DisplayEndpoint(views[f.id].finding);
    }
    forall t | t in TypesOf(ms) ensures t in VulnTypes(ids, views) {
      var f :| f in ms && t == Folded(f.vulnerabilityType);
      assert t == NormalizeType(views[f.id].finding.vulnerabilityType);
    }
    forall e | e in Endpoints(ids, views) ensures e in PlacesOf(ms) {
      var id :| id in ids && id in views && e == DisplayEndpoint(views[id].finding);
      assert views[id].finding in ms;
    }
  }

  lemma CandidatesCover(digest: Digest, findings: seq<Finding>, limits: Limits, relations: seq<Relation>, candidates: seq<Candidate>)
    requires limits.maxChainLength > 0 && IsResult(digest, findings, limits, relations, candidates)
    ensures forall c :: c in candidates ==> Covers(c, Elements(Chosen(findings, limits)))
  {
    var order := Chosen(findings, limits);
    var views := Views(order);
    ChosenDistinct(findings, limits);
    var all :| IsFullList(all, AllCandidates(digest, relations, views, limits))
               && candidates == Take(all, limits.maxCandidateChains);
    forall c | c in candidates ensures Covers(c, Elements(order)) {
      assert c in Elements(all);
      var k :| k in Components(relations) && CandidateFor(digest, k, relations, views, limits) == Some(c);
      MembersViewed(order, c);
      SortedSetFacts(PlacesOf(Members(c, Elements(order))));
    }
  }
}
