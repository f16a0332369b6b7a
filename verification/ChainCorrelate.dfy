/** The entry point: select findings, relate every isolated pair, build candidates. */
module ChainCorrelate {
  import opened FirstBy
  import opened Ordering
  import opened ChainModel
  import opened ChainComponents
  import opened ChainCandidates
  import opened ChainRelate

  // ----- selection -----

  /** Scan, host, endpoint, then ID. */
  predicate FindingLess(a: Finding, b: Finding) {
    if a.scanId != b.scanId then LexLess(a.scanId, b.scanId)
    else if a.host != b.host then LexLess(a.host, b.host)
    else if a.affectedEndpoint != b.affectedEndpoint then LexLess(a.affectedEndpoint, b.affectedEndpoint)
    else LexLess(a.id, b.id)
  }

  const FindingId := (f: Finding) => f.id

  const RelationId := (r: Relation) => r.id

  ghost predicate DistinctFindings(fs: seq<Finding>) {
    DistinctKeys(fs, FindingId)
  }

  lemma FindingStrictTotal(fs: seq<Finding>)
    requires DistinctFindings(fs)
    ensures StrictTotalOn(FindingLess, Elements(fs))
  {
    LexIsOrder();
    forall a, b | a in Elements(fs) && b in Elements(fs) && a != b ensures FindingLess(a, b) || FindingLess(b, a) {
      var i :| 0 <= i < |fs| && fs[i] == a;
      var j :| 0 <= j < |fs| && fs[j] == b;
      assert i != j;
    }
  }

  /** The findings Correlate works on, in the order it compares them. */
  ghost function Chosen(fs: seq<Finding>, limits: Limits): seq<Finding> {
    Take(Sort(Firsts(fs, FindingId, {""}), FindingLess), limits.maxFindings)
  }

  function Views(fs: seq<Finding>): map<string, View>
    decreases |fs|
  {
    if fs == [] then map[] else Views(fs[..|fs| - 1])[fs[|fs| - 1].id := ViewOf(fs[|fs| - 1])]
  }

  lemma ViewsStep(fs: seq<Finding>, i: nat)
    requires i < |fs|
    ensures Views(fs[..i + 1]) == Views(fs[..i])[fs[i].id := ViewOf(fs[i])]
  {
    assert fs[..i + 1][..i] == fs[..i];
  }

  method BuildViews(findings: seq<Finding>, limits: Limits) returns (views: map<string, View>, order: seq<Finding>)
    ensures order == Chosen(findings, limits) && views == Views(order)
  {
    order := KeepFirsts(findings, FindingId, {""});
    order := Sort(order, FindingLess);
    if |order| > limits.maxFindings {
      order := order[..limits.maxFindings];
    }
    views := map[];
    for i := 0 to |order|
      invariant views == Views(order[..i])
    {
      ViewsStep(order, i);
      views := views[order[i].id := ViewOf(order[i])];
    }
    assert order[..|order|] == order;
  }

  lemma {:induction false} ViewsFacts(fs: seq<Finding>)
    requires DistinctFindings(fs)
    ensures Views(fs).Keys == KeySet(fs, FindingId)
    ensures forall f :: f in fs ==> f.id in Views(fs) && Views(fs)[f.id] == ViewOf(f)
    decreases |fs|
  {
    if fs != [] {
      var n := |fs| - 1;
      var rest, f := fs[..n], fs[n];
      ViewsFacts(rest);
      assert fs == rest + [f];
      KeySetSnoc(rest, f, FindingId);
      ViewsSnoc(rest, f, Views(rest), ViewOf(f));
    }
  }

  lemma ViewsSnoc(rest: seq<Finding>, f: Finding, views: map<string, View>, v: View)
    requires DistinctFindings(rest + [f])
    requires forall g :: g in rest ==> g.id in views && views[g.id] == ViewOf(g)
    requires v == ViewOf(f)
    ensures forall g :: g in rest + [f] ==> g.id in views[f.id := v] && views[f.id := v][g.id] == ViewOf(g)
  {
    var all := rest + [f];
    forall g | g in rest ensures g.id != f.id {
      var i :| 0 <= i < |rest| && rest[i] == g;
      assert FindingId(all[i]) != FindingId(all[|rest|]);
    }
  }

  // ----- pairs -----

  /** The gate in front of every pair: nothing is related across it. */
  function PairRelations(digest: Digest, a: Finding, b: Finding, freq: map<string, nat>): seq<Relation> {
    if IsolatedPair(ViewOf(a), ViewOf(b)) then RelationsFor(digest, ViewOf(a), ViewOf(b), freq) else []
  }

  function Relating(digest: Digest, freq: map<string, nat>): (Finding, Finding) -> seq<Relation> {
    (a, b) => PairRelations(digest, a, b, freq)
  }

  predicate RelationLess(a: Relation, b: Relation) {
    if a.kind != b.kind then LexLess(TypeName(a.kind), TypeName(b.kind))
    else if a.findingA != b.findingA then LexLess(a.findingA, b.findingA)
    else if a.findingB != b.findingB then LexLess(a.findingB, b.findingB)
    else LexLess(a.id, b.id)
  }

  // ----- Correlate -----

  ghost function TakenPairs(digest: Digest, order: seq<Finding>, limits: Limits): seq<Relation> {
    Take(AllPairs(Relating(digest, Frequencies(Views(order))), order), limits.maxRelations)
  }

  /** The relations Correlate reports: the cap, then duplicate suppression, then the order. */
  ghost function RelationsOf(digest: Digest, order: seq<Finding>, limits: Limits): seq<Relation> {
    Sort(Firsts(TakenPairs(digest, order, limits), RelationId, {}), RelationLess)
  }

  /** What Correlate returns for an input. */
  ghost predicate IsResult(digest: Digest, findings: seq<Finding>, limits: Limits,
                           relations: seq<Relation>, candidates: seq<Candidate>)
    requires limits.maxChainLength > 0
  {
    var order := Chosen(findings, limits);
    relations == RelationsOf(digest, order, limits)
    && candidates == CandidateList(digest, relations, Views(order), limits)
    && IsCandidateList(candidates, digest, relations, Views(order), limits)
  }

  /** When the result is marked as truncated. */
  ghost predicate Marked(digest: Digest, findings: seq<Finding>, limits: Limits, relations: seq<Relation>)
    requires limits.maxChainLength > 0
  {
    var order := Chosen(findings, limits);
    || |findings| > limits.maxFindings
    || Crosses(Relating(digest, Frequencies(Views(order))), order, limits.maxRelations, |order|)
    || CandidatesCut(digest, relations, Views(order), limits)
  }

  method Correlate(digest: Digest, findings: seq<Finding>, rawLimits: Limits)
    returns (relations: seq<Relation>, candidates: seq<Candidate>, truncated: bool)
    ensures IsResult(digest, findings, Normalize(rawLimits), relations, candidates)
    ensures truncated <==> Marked(digest, findings, Normalize(rawLimits), relations)
  {
    var limits := Normalize(rawLimits);
    var views, order := BuildViews(findings, limits);
    var freq := TokenFrequency(views);
    truncated := |findings| > limits.maxFindings;
    var over;
    relations, over := CollectPairs(Relating(digest, freq), order, limits.maxRelations);
    truncated := truncated || over;
    relations := KeepFirsts(relations, RelationId, {});
    relations := Sort(relations, RelationLess);
    var cut;
    candidates, cut := BuildCandidates(digest, relations, views, limits);
    truncated := truncated || cut;
  }

  /** A cap made the result leave out a finding, a relation, a member of a component or a candidate. */
  ghost predicate Lost(digest: Digest, findings: seq<Finding>, limits: Limits, relations: seq<Relation>)
    requires limits.maxChainLength > 0
  {
    var order := Chosen(findings, limits);
    || |Firsts(findings, FindingId, {""})| > limits.maxFindings
    || |AllPairs(Relating(digest, Frequencies(Views(order))), order)| > limits.maxRelations
    || CandidatesCut(digest, relations, Views(order), limits)
  }

  /** The mark says exactly whether something was left out, unless findings that only repeat others or have no
      ID push the input past its cap, or some pair's last relation happens to be the last that fits. */
  lemma MarkedIffLost(digest: Digest, findings: seq<Finding>, limits: Limits, relations: seq<Relation>)
    requires limits.maxChainLength > 0
    ensures var order := Chosen(findings, limits);
            var pair := Relating(digest, Frequencies(Views(order)));
            var silent := |AllPairs(pair, order)| > limits.maxRelations && Lands(pair, order, limits.maxRelations);
            var padded := |findings| > limits.maxFindings >= |Firsts(findings, FindingId, {""})|;
            var cut := CandidatesCut(digest, relations, Views(order), limits);
            && (Marked(digest, findings, limits, relations) && !Lost(digest, findings, limits, relations)
                <==> padded && !cut && |AllPairs(pair, order)| <= limits.maxRelations)
            && (Lost(digest, findings, limits, relations) && !Marked(digest, findings, limits, relations)
                <==> silent && !cut && |findings| <= limits.maxFindings)
  {
    var order := Chosen(findings, limits);
    CrossesIff(Relating(digest, Frequencies(Views(order))), order, limits.maxRelations);
    FirstsNoLonger(findings, FindingId, {""});
  }

  // ----- the relations lie between isolated chosen findings -----

  lemma ChosenDistinct(findings: seq<Finding>, limits: Limits)
    ensures DistinctFindings(Chosen(findings, limits))
    ensures forall f :: f in Chosen(findings, limits) ==> f in findings
  {
    var first := Firsts(findings, FindingId, {""});
    FirstsFacts(findings, FindingId, {""});
    var sorted := Sort(first, FindingLess);
    SortPermutes(first, FindingLess);
    SameMultisetSameElements(first, sorted);
    KeysStayDistinct(first, sorted);
  }

  lemma KeysStayDistinct(s: seq<Finding>, t: seq<Finding>)
    requires DistinctFindings(s) && multiset(s) == multiset(t)
    ensures DistinctFindings(t)
  {
    NoDupFromMultiset(s, t);
    SameMultisetSameElements(s, t);
    forall i, j | 0 <= i < j < |t| ensures FindingId(t[i]) != FindingId(t[j]) {
      assert t[i] in s && t[j] in s;
      var a :| 0 <= a < |s| && s[a] == t[i];
      var b :| 0 <= b < |s| && s[b] == t[j];
      assert t[i] != t[j] && a != b;
    }
  }

  /** Two findings behind a relation, isolated from all others. */
  lemma RelatedPair(digest: Digest, order: seq<Finding>, limits: Limits, r: Relation) returns (a: Finding, b: Finding)
    requires r in RelationsOf(digest, order, limits)
    ensures a in order && b in order && IsolatedPair(ViewOf(a), ViewOf(b)) && Between(r, ViewOf(a), ViewOf(b))
    ensures r in PairRelations(digest, a, b, Frequencies(Views(order)))
  {
    var freq := Frequencies(Views(order));
    var taken := TakenPairs(digest, order, limits);
    var first := Firsts(taken, RelationId, {});
    FirstsFacts(taken, RelationId, {});
    SortPermutes(first, RelationLess);
    SameMultisetSameElements(Sort(first, RelationLess), first);
    a, b := FromPair(Relating(digest, freq), order, |order|, r);
    RelationsJoinThePair(digest, ViewOf(a), ViewOf(b), freq);
  }

  lemma RelationsIsolated(digest: Digest, order: seq<Finding>, limits: Limits)
    requires DistinctFindings(order)
    ensures Isolated(RelationsOf(digest, order, limits), Views(order))
  {
    ViewsFacts(order);
    var views := Views(order);
    forall r | r in RelationsOf(digest, order, limits)
      ensures r.findingA in views && r.findingB in views
      ensures views[r.findingA].scanId != "" && views[r.findingA].scanId == views[r.findingB].scanId
      ensures views[r.findingA].identity == views[r.findingB].identity
    {
      var a, b := RelatedPair(digest, order, limits, r);
    }
  }

  /** Isolation over whole chains: whatever the input, all findings of a candidate come from one
      non-empty scan and one identity, the candidate's own. */
  lemma ChainsNeverCrossIsolation(digest: Digest, findings: seq<Finding>, limits: Limits,
                                  relations: seq<Relation>, candidates: seq<Candidate>)
    requires limits.maxChainLength > 0 && IsResult(digest, findings, limits, relations, candidates)
    ensures forall k, id :: k in candidates && id in k.findingIds ==>
              exists f :: f in findings && f.id == id && f.scanId == k.scanJobId != ""
                          && f.identityContext == k.identityContext
  {
    var order := Chosen(findings, limits);
    ChosenDistinct(findings, limits);
    RelationsIsolated(digest, order, limits);
    CandidatesAreIsolated(candidates, digest, relations, Views(order), limits);
    ViewsFacts(order);
    forall k, id | k in candidates && id in k.findingIds
      ensures exists f :: f in findings && f.id == id && f.scanId == k.scanJobId != ""
                          && f.identityContext == k.identityContext
    {
      assert id in KeySet(order, FindingId);
      var f :| f in order && f.id == id;
      assert Views(order)[id] == ViewOf(f);
    }
  }

  // ----- order independence -----

  /** Findings with equal IDs are equal. */
  ghost predicate Consistent(fs: seq<Finding>) {
    forall f, g :: f in fs && g in fs && f.id == g.id ==> f == g
  }

  lemma ChosenOfSameSet(fs: seq<Finding>, gs: seq<Finding>, limits: Limits)
    requires Consistent(fs) && Elements(fs) == Elements(gs)
    ensures Chosen(fs, limits) == Chosen(gs, limits)
  {
    var first := Firsts(fs, FindingId, {""});
    FirstsOfSameSet(fs, gs, FindingId, {""});
    FirstsFacts(fs, FindingId, {""});
    FindingStrictTotal(first);
    SortOfPermutation(first, Firsts(gs, FindingId, {""}), FindingLess);
  }

  /** Reordering or repeating findings, in any way that leaves their set unchanged, changes neither the
      relations nor the candidates, under any caps. */
  lemma CorrelateOrderIrrelevant(digest: Digest, fs: seq<Finding>, gs: seq<Finding>, limits: Limits,
                                 r: seq<Relation>, c: seq<Candidate>, r': seq<Relation>, c': seq<Candidate>)
    requires limits.maxChainLength > 0 && Consistent(fs) && Elements(fs) == Elements(gs)
    requires IsResult(digest, fs, limits, r, c) && IsResult(digest, gs, limits, r', c')
    ensures r == r' && c == c'
  {
    ChosenOfSameSet(fs, gs, limits);
  }
}
