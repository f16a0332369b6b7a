/** Chain candidates specified as the connected components of the relation graph. */
module ChainComponents {
  import opened Basics
  import opened FirstBy
  import opened Ordering
  import opened Graphs
  import opened ChainModel
  import Joining

  function Ends(relations: seq<Relation>): seq<(string, string)> {
    seq(|relations|, i requires 0 <= i < |relations| => (relations[i].findingA, relations[i].findingB))
  }

  ghost function Graph(relations: seq<Relation>): Edges {
    EdgeSet(Ends(relations))
  }

  /** The relations with both ends in s, in order. */
  function Within(relations: seq<Relation>, s: set<string>): seq<Relation>
    decreases |relations|
  {
    if relations == [] then []
    else
      var n := |relations| - 1;
      var rest := Within(relations[..n], s);
      if relations[n].findingA in s && relations[n].findingB in s then rest + [relations[n]] else rest
  }

  function RelationIds(relations: seq<Relation>): seq<string> {
    seq(|relations|, i requires 0 <= i < |relations| => relations[i].id)
  }

  function Kinds(relations: seq<Relation>): set<RelationType> {
    set r | r in relations :: r.kind
  }

  function KindNames(kinds: set<RelationType>): set<string> {
    set k | k in kinds :: TypeName(k)
  }

  function MaxConfidence(relations: seq<Relation>): real
    decreases |relations|
  {
    if relations == [] then 0.0
    else
      var n := |relations| - 1;
      var rest := MaxConfidence(relations[..n]);
      if relations[n].confidence > rest then relations[n].confidence else rest
  }

  function Endpoints(ids: seq<string>, views: map<string, View>): set<string> {
    set id | id in ids && id in views && views[id].endpoint != "" :: DisplayEndpoint(views[id].finding)
  }

  function VulnTypes(ids: seq<string>, views: map<string, View>): set<string> {
    set id | id in ids && id in views :: NormalizeType(views[id].finding.vulnerabilityType)
  }

  /** The identity of the first listed finding that has a view. */
  function FirstIdentity(ids: seq<string>, views: map<string, View>): string {
    if ids == [] then ""
    else if ids[0] in views then views[ids[0]].identity
    else FirstIdentity(ids[1..], views)
  }

  /** Any evidence-level relation supports the chain; otherwise it stays potential. */
  function ClassifyStatus(kinds: set<RelationType>): Status {
    if DataFlow in kinds || SharedEvidence in kinds || PotentialPrecondition in kinds then Supported else Potential
  }

  function CandidateId(digest: Digest, ids: seq<string>): string {
    digest(Joining.Join(ids, Joining.UNIT_SEPARATOR))
  }

  ghost function Describe(digest: Digest, ids: seq<string>, relations: seq<Relation>, views: map<string, View>, capped: bool): Candidate
    requires ids != []
  {
    Candidate(
      CandidateId(digest, ids),
      if ids[0] in views then views[ids[0]].scanId else "",
      FirstIdentity(ids, views), ids, SortStrings(RelationIds(relations)),
      SortedSet(Endpoints(ids, views)), ClassifyStatus(Kinds(relations)), MaxConfidence(relations),
      Impact(|ids|, |VulnTypes(ids, views)|, |Endpoints(ids, views)|, capped),
      SortedSet(KindNames(Kinds(relations))))
  }

  /** The findings of a component that its candidate lists. */
  ghost function Listed(component: set<string>, limits: Limits): seq<string> {
    Take(SortedSet(component), limits.maxChainLength)
  }

  /** The candidate of a component, if the length cap leaves it any relation. */
  ghost function CandidateFor(digest: Digest, component: set<string>, relations: seq<Relation>,
                              views: map<string, View>, limits: Limits): Option<Candidate>
    requires limits.maxChainLength > 0
  {
    var ids := Listed(component, limits);
    var within := Within(relations, Elements(ids));
    if within == [] || ids == [] then None
    else Some(Describe(digest, ids, within, views, |component| > limits.maxChainLength))
  }

  ghost function Components(relations: seq<Relation>): set<set<string>> {
    set x | x in Nodes(Graph(relations)) :: Component(Graph(relations), x)
  }

  ghost function AllCandidates(digest: Digest, relations: seq<Relation>, views: map<string, View>, limits: Limits): set<Candidate>
    requires limits.maxChainLength > 0
  {
    set c | c in Components(relations) && CandidateFor(digest, c, relations, views, limits).Some?
      :: CandidateFor(digest, c, relations, views, limits).value
  }

  predicate CandidateLess(a: Candidate, b: Candidate) {
    if a.scanJobId != b.scanJobId then LexLess(a.scanJobId, b.scanJobId) else LexLess(a.id, b.id)
  }

  /** out is the sorted list of all candidates, cut at the candidate cap. */
  ghost predicate IsCandidateList(out: seq<Candidate>, digest: Digest, relations: seq<Relation>,
                                  views: map<string, View>, limits: Limits)
    requires limits.maxChainLength > 0
  {
    exists all :: IsFullList(all, AllCandidates(digest, relations, views, limits))
                  && out == Take(all, limits.maxCandidateChains)
  }

  ghost predicate IsFullList(all: seq<Candidate>, candidates: set<Candidate>) {
    NoDup(all) && Elements(all) == candidates && Sorted(all, CandidateLess)
  }

  // ----- facts about filtering -----

  lemma {:induction false} WithinFacts(relations: seq<Relation>, s: set<string>)
    ensures forall r :: r in Within(relations, s) <==> r in relations && r.findingA in s && r.findingB in s
    decreases |relations|
  {
    if relations != [] {
      var n := |relations| - 1;
      assert relations == relations[..n] + [relations[n]];
      WithinFacts(relations[..n], s);
    }
  }

  lemma RelationEnds(relations: seq<Relation>, r: Relation)
    requires r in relations
    ensures Adjacent(Graph(relations), r.findingA, r.findingB)
    ensures r.findingA in Nodes(Graph(relations)) && r.findingB in Nodes(Graph(relations))
  {
    var i :| 0 <= i < |relations| && relations[i] == r;
    assert Ends(relations)[i] == (r.findingA, r.findingB);
    var p := (r.findingA, r.findingB);
    assert p in Graph(relations) && p.0 == r.findingA && p.1 == r.findingB;
  }

  /** The two ends of a relation lie in the same component. */
  lemma RelationInComponent(relations: seq<Relation>, r: Relation, x: string)
    requires r in relations
    ensures r.findingA in Component(Graph(relations), x) <==> r.findingB in Component(Graph(relations), x)
  {
    var e := Graph(relations);
    RelationEnds(relations, r);
    LinkedEdge(e, r.findingA, r.findingB);
    LinkedSym(e, r.findingA, r.findingB);
    if Linked(e, x, r.findingA) {
      LinkedTrans(e, x, r.findingA, r.findingB);
    }
    if Linked(e, x, r.findingB) {
      LinkedTrans(e, x, r.findingB, r.findingA);
    }
  }

  lemma ComponentsDisjoint(relations: seq<Relation>, c: set<string>, d: set<string>)
    requires c in Components(relations) && d in Components(relations) && c * d != {}
    ensures c == d
  {
    var e := Graph(relations);
    var x :| x in Nodes(e) && c == Component(e, x);
    var y :| y in Nodes(e) && d == Component(e, y);
    var z :| z in c * d;
    LinkedSameComponent(e, x, z);
    LinkedSameComponent(e, y, z);
  }

  // ----- no cap binding: candidates are exactly the components -----

  ghost predicate NoCapBinds(relations: seq<Relation>, limits: Limits) {
    && (forall c :: c in Components(relations) ==> |c| <= limits.maxChainLength)
    && |Components(relations)| <= limits.maxCandidateChains
  }

  /** A component within the length cap has a candidate listing exactly its findings and exactly the
      relations that touch it. */
  lemma WholeComponent(digest: Digest, c: set<string>, relations: seq<Relation>, views: map<string, View>, limits: Limits)
    requires limits.maxChainLength > 0 && c in Components(relations) && |c| <= limits.maxChainLength
    ensures var o := CandidateFor(digest, c, relations, views, limits);
            && o.Some? && NoDup(o.value.findingIds) && Elements(o.value.findingIds) == c
            && multiset(o.value.relationIds) == multiset(RelationIds(Within(relations, c)))
            && (forall r :: r in relations && (r.findingA in c || r.findingB in c) ==> r in Within(relations, c))
  {
    var e := Graph(relations);
    var x :| x in Nodes(e) && c == Component(e, x);
    SortedSetFacts(c);
    var ids := Listed(c, limits);
    assert ids == SortedSet(c);
    WithinFacts(relations, c);
    forall r | r in relations && (r.findingA in c || r.findingB in c) ensures r in Within(relations, c) {
      RelationInComponent(relations, r, x);
    }
    var r := TouchingRelation(relations, x);
    LinkedRefl(e, x);
    assert x in c;
    assert r in Within(relations, c);
    SortPermutes(RelationIds(Within(relations, c)), LexLess);
  }

  lemma TouchingRelation(relations: seq<Relation>, x: string) returns (r: Relation)
    requires x in Nodes(Graph(relations))
    ensures r in relations && (r.findingA == x || r.findingB == x)
  {
    var p :| p in Graph(relations) && (p.0 == x || p.1 == x);
    var i :| 0 <= i < |relations| && Ends(relations)[i] == p;
    r := relations[i];
  }

  /** When no cap binds, the candidates are the connected components: pairwise disjoint, covering every
      related finding, and each relation belongs to exactly the candidate that lists its ends. */
  lemma CandidatesAreComponents(out: seq<Candidate>, digest: Digest, relations: seq<Relation>,
                                views: map<string, View>, limits: Limits)
    requires limits.maxChainLength > 0 && NoCapBinds(relations, limits)
    requires IsCandidateList(out, digest, relations, views, limits)
    ensures ListedSets(out) == Components(relations)
    ensures forall i, j :: 0 <= i < j < |out| ==> Elements(out[i].findingIds) !! Elements(out[j].findingIds)
    ensures forall r :: r in relations ==>
              exists k :: k in out && r.findingA in k.findingIds && r.findingB in k.findingIds && r.id in k.relationIds
  {
    var all :| IsFullList(all, AllCandidates(digest, relations, views, limits))
               && out == Take(all, limits.maxCandidateChains);
    AllOfThem(all, digest, relations, views, limits);
    assert out == all;
    ListsComponents(all, digest, relations, views, limits);
    forall i, j | 0 <= i < j < |out| ensures Elements(out[i].findingIds) !! Elements(out[j].findingIds) {
      ListsDisjoint(all, i, j, digest, relations, views, limits);
    }
    forall r | r in relations
      ensures exists k :: k in out && r.findingA in k.findingIds && r.findingB in k.findingIds && r.id in k.relationIds
    {
      ListedSomewhere(all, r, digest, relations, views, limits);
    }
  }

  ghost function ListedSets(out: seq<Candidate>): set<set<string>> {
    set k | k in out :: Elements(k.findingIds)
  }

  lemma ListsComponents(all: seq<Candidate>, digest: Digest, relations: seq<Relation>, views: map<string, View>, limits: Limits)
    requires limits.maxChainLength > 0 && NoCapBinds(relations, limits)
    requires IsFullList(all, AllCandidates(digest, relations, views, limits))
    ensures ListedSets(all) == Components(relations)
  {
    forall s | s in Components(relations) ensures s in ListedSets(all) {
      WholeComponent(digest, s, relations, views, limits);
      var k := CandidateFor(digest, s, relations, views, limits).value;
      assert k in Elements(all);
    }
    forall s | s in ListedSets(all) ensures s in Components(relations) {
      var k :| k in all && s == Elements(k.findingIds);
      var c := ComponentOf(all, k, digest, relations, views, limits);
    }
  }

  lemma ListsDisjoint(all: seq<Candidate>, i: nat, j: nat, digest: Digest, relations: seq<Relation>, views: map<string, View>, limits: Limits)
    requires limits.maxChainLength > 0 && NoCapBinds(relations, limits)
    requires IsFullList(all, AllCandidates(digest, relations, views, limits)) && i < j < |all|
    ensures Elements(all[i].findingIds) !! Elements(all[j].findingIds)
  {
    var a, b := all[i], all[j];
    assert a != b;
    var c := ComponentOf(all, a, digest, relations, views, limits);
    var d := ComponentOf(all, b, digest, relations, views, limits);
    Disjoint(relations, c, d);
  }

  lemma Disjoint(relations: seq<Relation>, c: set<string>, d: set<string>)
    requires c in Components(relations) && d in Components(relations) && c != d
    ensures c !! d
  {
    if !(c !! d) {
      var x :| x in c && x in d;
      assert x in c * d;
      ComponentsDisjoint(relations, c, d);
    }
  }

  lemma ComponentOf(all: seq<Candidate>, k: Candidate, digest: Digest, relations: seq<Relation>,
                    views: map<string, View>, limits: Limits) returns (c: set<string>)
    requires limits.maxChainLength > 0 && NoCapBinds(relations, limits)
    requires IsFullList(all, AllCandidates(digest, relations, views, limits)) && k in all
    ensures c in Components(relations) && CandidateFor(digest, c, relations, views, limits) == Some(k)
    ensures Elements(k.findingIds) == c
  {
    assert k in Elements(all);
    c :| c in Components(relations) && CandidateFor(digest, c, relations, views, limits) == Some(k);
    WholeComponent(digest, c, relations, views, limits);
  }

  lemma AllOfThem(all: seq<Candidate>, digest: Digest, relations: seq<Relation>, views: map<string, View>, limits: Limits)
    requires limits.maxChainLength > 0 && NoCapBinds(relations, limits)
    requires IsFullList(all, AllCandidates(digest, relations, views, limits))
    ensures |all| <= limits.maxCandidateChains
  {
    NoDupCount(all);
    ImageSize(Components(relations), AllCandidates(digest, relations, views, limits),
              c => CandidateFor(digest, c, relations, views, limits));
  }

  lemma {:induction false} ImageSize<T, U>(s: set<T>, image: set<U>, f: T -> Option<U>)
    requires forall y :: y in image ==> exists x :: x in s && f(x) == Some(y)
    ensures |image| <= |s|
    decreases |s|
  {
    if s == {} {
      assert image == {};
    } else {
      var x :| x in s;
      var rest := match f(x) case Some(y) => image - {y} case None => image;
      forall y | y in rest ensures exists z :: z in s - {x} && f(z) == Some(y) {
        var z :| z in s && f(z) == Some(y);
        assert z != x;
      }
      ImageSize(s - {x}, rest, f);
    }
  }

  lemma ListedSomewhere(all: seq<Candidate>, r: Relation, digest: Digest, relations: seq<Relation>,
                        views: map<string, View>, limits: Limits)
    requires limits.maxChainLength > 0 && NoCapBinds(relations, limits) && r in relations
    requires IsFullList(all, AllCandidates(digest, relations, views, limits))
    ensures exists k :: k in all && r.findingA in k.findingIds && r.findingB in k.findingIds && r.id in k.relationIds
  {
    var e := Graph(relations);
    RelationEnds(relations, r);
    var c := Component(e, r.findingA);
    LinkedRefl(e, r.findingA);
    RelationInComponent(relations, r, r.findingA);
    WholeComponent(digest, c, relations, views, limits);
    var k := CandidateFor(digest, c, relations, views, limits).value;
    assert k in Elements(all);
    assert r.findingA in Elements(k.findingIds) && r.findingB in Elements(k.findingIds);
    var w := Within(relations, c);
    var i :| 0 <= i < |w| && w[i] == r;
    assert RelationIds(w)[i] == r.id;
    assert r.id in multiset(RelationIds(w));
    assert r.id in multiset(k.relationIds);
  }

  // ----- with caps: every candidate stays within them and lists only relations between its own -----

  lemma CandidatesRespectCaps(out: seq<Candidate>, digest: Digest, relations: seq<Relation>,
                              views: map<string, View>, limits: Limits)
    requires limits.maxChainLength > 0 && IsCandidateList(out, digest, relations, views, limits)
    ensures |out| <= limits.maxCandidateChains
    ensures forall k :: k in out ==> 0 < |k.findingIds| <= limits.maxChainLength && NoDup(k.findingIds)
    ensures forall k, id :: k in out && id in k.relationIds ==>
              exists r :: r in relations && r.id == id && r.findingA in k.findingIds && r.findingB in k.findingIds
  {
    var all :| IsFullList(all, AllCandidates(digest, relations, views, limits))
               && out == Take(all, limits.maxCandidateChains);
    forall k | k in out
      ensures 0 < |k.findingIds| <= limits.maxChainLength && NoDup(k.findingIds)
      ensures forall id :: id in k.relationIds ==>
                exists r :: r in relations && r.id == id && r.findingA in k.findingIds && r.findingB in k.findingIds
    {
      assert k in Elements(all);
      var c :| c in Components(relations) && CandidateFor(digest, c, relations, views, limits) == Some(k);
      ListedFacts(digest, c, relations, views, limits);
    }
  }

  lemma ListedFacts(digest: Digest, c: set<string>, relations: seq<Relation>, views: map<string, View>, limits: Limits)
    requires limits.maxChainLength > 0 && CandidateFor(digest, c, relations, views, limits).Some?
    ensures var k := CandidateFor(digest, c, relations, views, limits).value;
            && 0 < |k.findingIds| <= limits.maxChainLength && NoDup(k.findingIds) && Elements(k.findingIds) <= c
            && forall id :: id in k.relationIds ==>
                 exists r :: r in relations && r.id == id && r.findingA in k.findingIds && r.findingB in k.findingIds
  {
    SortedSetFacts(c);
    var ids := Listed(c, limits);
    assert Elements(ids) <= Elements(SortedSet(c));
    IdsWithin(relations, ids);
  }

  lemma IdsWithin(relations: seq<Relation>, ids: seq<string>)
    ensures forall id :: id in SortStrings(RelationIds(Within(relations, Elements(ids)))) ==>
              exists r :: r in relations && r.id == id && r.findingA in ids && r.findingB in ids
  {
    var w := Within(relations, Elements(ids));
    WithinFacts(relations, Elements(ids));
    var sorted := SortStrings(RelationIds(w));
    SortPermutes(RelationIds(w), LexLess);
    forall id | id in sorted
      ensures exists r :: r in relations && r.id == id && r.findingA in ids && r.findingB in ids
    {
      assert id in Elements(RelationIds(w));
      var i :| 0 <= i < |w| && RelationIds(w)[i] == id;
      assert w[i] in w;
    }
  }

  // ----- isolation over whole chains -----

  /** Every relation joins two viewed findings of one non-empty scan and one identity. */
  ghost predicate Isolated(relations: seq<Relation>, views: map<string, View>) {
    forall r :: r in relations ==>
      && r.findingA in views && r.findingB in views
      && views[r.findingA].scanId != "" && views[r.findingA].scanId == views[r.findingB].scanId
      && views[r.findingA].identity == views[r.findingB].identity
  }

  ghost function Scans(views: map<string, View>): map<string, string> {
    map id | id in views :: views[id].scanId
  }

  ghost function Identities(views: map<string, View>): map<string, string> {
    map id | id in views :: views[id].identity
  }

  lemma ComponentIsolated(relations: seq<Relation>, views: map<string, View>, x: string, y: string)
    requires Isolated(relations, views) && x in Nodes(Graph(relations)) && y in Component(Graph(relations), x)
    ensures x in views && y in views && views[y].scanId == views[x].scanId != "" && views[y].identity == views[x].identity
  {
    var e := Graph(relations);
    var t := TouchingRelation(relations, x);
    forall a, b | (a, b) in e
      ensures a in views && b in views && views[a].scanId == views[b].scanId && views[a].identity == views[b].identity
    {
      var i :| 0 <= i < |relations| && Ends(relations)[i] == (a, b);
      assert relations[i] in relations;
    }
    var w :| Joins(e, w, x, y);
    WalkKeepsColour(e, w, Scans(views));
    WalkKeepsColour(e, w, Identities(views));
  }

  /** However long the chain of relations between them, all findings a candidate lists share one
      non-empty scan and one identity, and these are the candidate's own. */
  lemma CandidatesAreIsolated(out: seq<Candidate>, digest: Digest, relations: seq<Relation>,
                              views: map<string, View>, limits: Limits)
    requires limits.maxChainLength > 0 && Isolated(relations, views)
    requires IsCandidateList(out, digest, relations, views, limits)
    ensures forall k, id :: k in out && id in k.findingIds ==>
              id in views && views[id].scanId == k.scanJobId != "" && views[id].identity == k.identityContext
  {
    var all :| IsFullList(all, AllCandidates(digest, relations, views, limits))
               && out == Take(all, limits.maxCandidateChains);
    forall k, id | k in out && id in k.findingIds
      ensures id in views && views[id].scanId == k.scanJobId != "" && views[id].identity == k.identityContext
    {
      assert k in Elements(all);
      var c :| c in Components(relations) && CandidateFor(digest, c, relations, views, limits) == Some(k);
      ListedFacts(digest, c, relations, views, limits);
      var x :| x in Nodes(Graph(relations)) && c == Component(Graph(relations), x);
      var first := k.findingIds[0];
      assert first in Elements(k.findingIds) && id in Elements(k.findingIds);
      ComponentIsolated(relations, views, x, first);
      ComponentIsolated(relations, views, x, id);
    }
  }

  // ----- the list is unique -----

  ghost predicate DistinctIds(candidates: set<Candidate>) {
    forall a, b :: a in candidates && b in candidates && a.id == b.id ==> a == b
  }

  /** With distinct candidate IDs there is only one candidate list, whatever roots union-find chose and
      whatever order its classes were visited in. */
  lemma CandidateListUnique(x: seq<Candidate>, y: seq<Candidate>, digest: Digest, relations: seq<Relation>,
                            views: map<string, View>, limits: Limits)
    requires limits.maxChainLength > 0 && DistinctIds(AllCandidates(digest, relations, views, limits))
    requires IsCandidateList(x, digest, relations, views, limits)
    requires IsCandidateList(y, digest, relations, views, limits)
    ensures x == y
  {
    var candidates := AllCandidates(digest, relations, views, limits);
    var a :| IsFullList(a, candidates) && x == Take(a, limits.maxCandidateChains);
    var b :| IsFullList(b, candidates) && y == Take(b, limits.maxCandidateChains);
    NoDupPermutation(a, b);
    CandidateStrictTotal(candidates);
    SortedUnique(a, b, CandidateLess);
  }

  lemma CandidateStrictTotal(candidates: set<Candidate>)
    requires DistinctIds(candidates)
    ensures StrictTotalOn(CandidateLess, candidates)
  {
    LexIsOrder();
  }

  /** Candidate IDs are distinct when the digest is injective and no finding ID holds a separator. */
  lemma IdsDistinct(digest: Digest, relations: seq<Relation>, views: map<string, View>, limits: Limits)
    requires limits.maxChainLength > 0
    requires forall a: string, b: string :: digest(a) == digest(b) ==> a == b
    requires forall x :: x in Nodes(Graph(relations)) ==> Joining.Free(x, Joining.UNIT_SEPARATOR)
    ensures DistinctIds(AllCandidates(digest, relations, views, limits))
  {
    var candidates := AllCandidates(digest, relations, views, limits);
    forall a, b | a in candidates && b in candidates && a.id == b.id ensures a == b {
      var c :| c in Components(relations) && CandidateFor(digest, c, relations, views, limits) == Some(a);
      var d :| d in Components(relations) && CandidateFor(digest, d, relations, views, limits) == Some(b);
      ListedFacts(digest, c, relations, views, limits);
      ListedFacts(digest, d, relations, views, limits);
      IdsFree(relations, c, a.findingIds);
      IdsFree(relations, d, b.findingIds);
      Joining.JoinInjective(a.findingIds, b.findingIds, Joining.UNIT_SEPARATOR);
      var x := a.findingIds[0];
      assert x in Elements(a.findingIds) && x in Elements(b.findingIds);
      assert x in c * d;
      ComponentsDisjoint(relations, c, d);
    }
  }

  lemma IdsFree(relations: seq<Relation>, c: set<string>, ids: seq<string>)
    requires c in Components(relations) && Elements(ids) <= c
    requires forall x :: x in Nodes(Graph(relations)) ==> Joining.Free(x, Joining.UNIT_SEPARATOR)
    ensures Joining.AllFree(ids, Joining.UNIT_SEPARATOR)
  {
    forall i | 0 <= i < |ids| ensures Joining.Free(ids[i], Joining.UNIT_SEPARATOR) {
      assert ids[i] in Elements(ids);
    }
  }
}
