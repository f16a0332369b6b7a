/** Exactly when two findings are related, kind by kind and over their fields alone. */
module ChainMeaning {
  import opened Basics
  import opened Ordering
  import opened ChainModel
  import opened ChainRelate
  import opened ChainTokens
  import opened ChainCorrelate
  import opened Text
  import Joining

  // ----- what relates two findings -----

  /** One non-empty scan and one identity. */
  ghost predicate Together(a: Finding, b: Finding) {
    a.scanId != "" && a.scanId == b.scanId && a.identityContext == b.identityContext
  }

  function Folded(s: string): string {
    ToLower(TrimSpace(s))
  }

  ghost predicate Occurs(s: string, part: string) {
    exists pre: string, post: string :: s == pre + part + post
  }

  /** Some text contains part, as it is or in lower case. */
  ghost predicate Shows(texts: seq<string>, part: string) {
    exists e :: e in texts && Occurs(e, part)
  }

  ghost predicate ShowsLowered(texts: seq<string>, part: string) {
    exists e :: e in texts && Occurs(ToLower(e), part)
  }

  /** v is the value of the affected parameter, and reads like an identifier. */
  ghost predicate Names(f: Finding, v: string) {
    && f.affectedParameter != "" && v == f.parameterValue && |v| >= 4
    && exists c :: c in v && ('0' <= c <= '9' || c == '-' || c == '_')
  }

  function PathText(f: Finding): string {
    if f.affectedEndpoint == "" then f.urlPath else f.affectedEndpoint
  }

  /** The same endpoint: host, port and path, told apart by a separator. */
  ghost predicate SamePlace(a: Finding, b: Finding) {
    Folded(a.host) + "\U{001F}" + Joining.Itoa(a.port) + "\U{001F}" + PathText(a)
    == Folded(b.host) + "\U{001F}" + Joining.Itoa(b.port) + "\U{001F}" + PathText(b)
  }

  /** A specific token both findings carry, and no more than four of the batch. */
  ghost predicate Shares(a: Finding, b: Finding, batch: set<Finding>, t: string) {
    Specific(t) && Carries(a, t) && Carries(b, t) && |Carriers(batch, t)| <= 4
  }

  /** A finding that reveals data shows the resource of another. */
  ghost predicate Flows(src: Finding, dst: Finding, v: string) {
    && Folded(src.vulnerabilityType) in {"info_exposure", "reflected_xss", "sqli", "path_traversal", "idor"}
    && Names(dst, v) && Shows(src.evidence, v)
  }

  /** A finding that leads elsewhere mentions the other's host, not its own. */
  ghost predicate Reaches(src: Finding, dst: Finding, host: string) {
    && Folded(src.vulnerabilityType) in {"open_redirect", "ssrf"}
    && host == Folded(dst.host) && |host| >= 4 && host != Folded(src.host)
    && ShowsLowered(src.evidence, host)
  }

  ghost predicate Severe(f: Finding) {
    f.severity == High || f.severity == Critical
  }

  /** a and b are related in this way, on account of detail. */
  ghost predicate Fits(kind: RelationType, a: Finding, b: Finding, batch: set<Finding>, detail: string) {
    match kind
    case SameEndpoint => SamePlace(a, b) && detail == Folded(a.host) + ":" + Joining.Itoa(a.port) + PathText(a)
    case SameParameter => a.affectedParameter != "" && a.affectedParameter == b.affectedParameter == detail
    case SameResource => Names(a, detail) && Names(b, detail)
    case SameIdentity => a.identityContext != "" && a.identityContext == b.identityContext == detail
    case SharedEvidence => Shares(a, b, batch, detail) && forall t :: Shares(a, b, batch, t) ==> |t| <= |detail|
    case DataFlow => Flows(a, b, detail) || Flows(b, a, detail)
    case PotentialPrecondition => Reaches(a, b, detail) || Reaches(b, a, detail)
    case PotentialImpactAmplifier =>
      && a.vulnerabilityType != b.vulnerabilityType && (Severe(a) || Severe(b))
      && if SamePlace(a, b) then detail == "endpoint" else detail == "resource" && exists v :: Names(a, v) && Names(b, v)
  }

  function Weight(kind: RelationType): real {
    match kind
    case SameEndpoint => 0.6
    case SameParameter => 0.3
    case SameResource => 0.7
    case SameIdentity => 0.5
    case SharedEvidence => 0.5
    case DataFlow => 0.65
    case PotentialPrecondition => 0.55
    case PotentialImpactAmplifier => 0.4
  }

  /** r joins a and b: its ends in string order, its ID from kind and ends, the weight of its kind. */
  ghost predicate Joins(digest: Digest, a: Finding, b: Finding, r: Relation) {
    && {r.findingA, r.findingB} == {a.id, b.id} && LexLess(r.findingA, r.findingB)
    && r.scanJobId == a.scanId && r.confidence == Weight(r.kind)
    && r.id == digest(Joining.Join([TypeName(r.kind), r.findingA, r.findingB], '\U{001F}'))
  }

  ghost predicate Relates(digest: Digest, a: Finding, b: Finding, batch: set<Finding>, r: Relation) {
    a.id != b.id && Together(a, b) && Joins(digest, a, b, r) && Fits(r.kind, a, b, batch, r.detail)
  }

  /** freq counts, for every specific token, the findings of the batch that carry it. */
  ghost predicate Counts(freq: map<string, nat>, batch: set<Finding>) {
    forall t :: Specific(t) ==> Lookup(freq, t) == |Carriers(batch, t)|
  }

  // ----- the parts -----

  lemma NewIs(digest: Digest, kind: RelationType, a: Finding, b: Finding, detail: string, r: Relation)
    requires a.id != b.id && a.scanId == b.scanId
    ensures r == NewRelation(digest, kind, ViewOf(a), ViewOf(b), Weight(kind), detail)
       <==> Joins(digest, a, b, r) && r.kind == kind && r.detail == detail
  {
    LexTrichotomy(a.id, b.id);
    LexTrichotomy(r.findingA, r.findingB);
    var x := if LexLess(b.id, a.id) then b.id else a.id;
    var y := if LexLess(b.id, a.id) then a.id else b.id;
    Ordered(x, y, r.findingA, r.findingB);
    assert {a.id, b.id} == {x, y};
  }

  lemma Ordered(x: string, y: string, u: string, v: string)
    requires LexLess(x, y)
    ensures {u, v} == {x, y} && LexLess(u, v) <==> u == x && v == y
  {
    LexTrichotomy(x, y);
    LexTrichotomy(u, v);
    if {u, v} == {x, y} && LexLess(u, v) {
      assert u in {x, y} && v in {x, y} && x in {u, v} && y in {u, v};
    }
  }

  lemma JoinsEitherWay(digest: Digest, a: Finding, b: Finding, r: Relation)
    requires a.scanId == b.scanId
    ensures Joins(digest, a, b, r) <==> Joins(digest, b, a, r)
  {
    assert {a.id, b.id} == {b.id, a.id};
  }

  lemma WhenIs(condition: bool, digest: Digest, kind: RelationType, a: Finding, b: Finding, detail: string, r: Relation)
    requires a.id != b.id && a.scanId == b.scanId
    ensures r in When(condition, NewRelation(digest, kind, ViewOf(a), ViewOf(b), Weight(kind), detail))
       <==> condition && Joins(digest, a, b, r) && r.kind == kind && r.detail == detail
  {
    NewIs(digest, kind, a, b, detail, r);
  }

  lemma ResourceIs(f: Finding, v: string)
    ensures v != "" ==> (ResourceValue(f) == v <==> Names(f, v))
    ensures ResourceValue(f) != "" ==> Names(f, ResourceValue(f))
    ensures Names(f, v) ==> v != ""
  {
    var w := f.parameterValue;
    if HasDigit(w) {
      var i :| 0 <= i < |w| && IsDigit(w[i]);
      assert w[i] in w;
    }
  }

  lemma SharesResourceIff(a: Finding, b: Finding)
    ensures SharesResource(ViewOf(a), ViewOf(b)) <==> exists v :: Names(a, v) && Names(b, v)
    ensures forall v :: Names(a, v) && Names(b, v) ==> v == ResourceValue(a) == ResourceValue(b)
  {
    ResourceIs(a, ResourceValue(a));
    ResourceIs(b, ResourceValue(b));
    forall v | Names(a, v) && Names(b, v) ensures v == ResourceValue(a) == ResourceValue(b) {
      ResourceIs(a, v);
      ResourceIs(b, v);
    }
  }

  lemma PlaceIff(a: Finding, b: Finding)
    ensures SharesEndpoint(ViewOf(a), ViewOf(b)) <==> SamePlace(a, b)
    ensures DisplayEndpoint(a) == Folded(a.host) + ":" + Joining.Itoa(a.port) + PathText(a)
  {
    assert "\U{001F}" == [Joining.UNIT_SEPARATOR];
    assert EndpointKey(a)[|HostOf(a)|] == Joining.UNIT_SEPARATOR;
  }

  lemma OccursIff(s: string, part: string)
    ensures Contains(s, part) <==> Occurs(s, part)
  {
    if Contains(s, part) {
      var i :| 0 <= i <= |s| && OccursAt(s, part, i);
      assert s == s[..i] + part + s[i + |part|..];
    }
    if Occurs(s, part) {
      var pre, post :| s == pre + part + post;
      assert OccursAt(s, part, |pre|);
    }
  }

  lemma ContentsShow(contents: seq<string>, part: string)
    ensures (exists i | 0 <= i < |contents| :: Contains(contents[i], part)) <==> Shows(contents, part)
  {
    if i :| 0 <= i < |contents| && Contains(contents[i], part) {
      OccursIff(contents[i], part);
      assert contents[i] in contents;
    }
    if Shows(contents, part) {
      var e :| e in contents && Occurs(e, part);
      var i :| 0 <= i < |contents| && contents[i] == e;
      OccursIff(contents[i], part);
    }
  }

  lemma MentionsIff(f: Finding, part: string)
    requires part != ""
    ensures var contents := EvidenceStrings(f.evidence);
            (exists i | 0 <= i < |contents| :: Contains(contents[i], part)) <==> Shows(f.evidence, part)
  {
    var contents := EvidenceStrings(f.evidence);
    EvidenceStringsAre(f.evidence);
    ContentsShow(contents, part);
    if Shows(contents, part) {
      var e :| e in contents && Occurs(e, part);
      assert e in f.evidence;
    }
    if Shows(f.evidence, part) {
      var e :| e in f.evidence && Occurs(e, part);
      assert e in contents;
    }
  }

  lemma MentionsLowerIff(f: Finding, contents: seq<string>, part: string)
    requires part != "" && contents == EvidenceStrings(f.evidence)
    ensures (exists i | 0 <= i < |contents| :: Contains(ToLower(contents[i]), part)) ==> ShowsLowered(f.evidence, part)
    ensures ShowsLowered(f.evidence, part) ==> exists i | 0 <= i < |contents| :: Contains(ToLower(contents[i]), part)
  {
    EvidenceStringsAre(f.evidence);
    if i :| 0 <= i < |contents| && Contains(ToLower(contents[i]), part) {
      OccursIff(ToLower(contents[i]), part);
      assert contents[i] in contents;
      assert contents[i] in f.evidence && Occurs(ToLower(contents[i]), part);
    }
    if ShowsLowered(f.evidence, part) {
      var e :| e in f.evidence && Occurs(ToLower(e), part);
      assert e != "";
      var i :| 0 <= i < |contents| && contents[i] == e;
      OccursIff(ToLower(contents[i]), part);
      assert Contains(ToLower(contents[i]), part);
    }
  }

  lemma FlowsIff(src: Finding, dst: Finding, v: string)
    requires v == ResourceValue(dst)
    ensures var contents := EvidenceStrings(src.evidence);
            Flows(src, dst, v)
            <==> && NormalizeType(src.vulnerabilityType) in {"info_exposure", "reflected_xss", "sqli", "path_traversal", "idor"}
                 && v != "" && exists i | 0 <= i < |contents| :: Contains(contents[i], v)
  {
    ResourceIs(dst, v);
    if v != "" {
      MentionsIff(src, v);
    }
  }

  lemma FlowList(digest: Digest, src: Finding, dst: Finding, v: string)
    requires v == ResourceValue(dst)
    ensures DataFlowRelation(digest, ViewOf(src), ViewOf(dst))
         == When(Flows(src, dst, v), NewRelation(digest, DataFlow, ViewOf(src), ViewOf(dst), 0.65, v))
  {
    FlowsIff(src, dst, v);
    var contents := EvidenceStrings(src.evidence);
    assert contents == EvidenceStrings(ViewOf(src).finding.evidence) && v == ViewOf(dst).resource;
    if Flows(src, dst, v) {
      var i :| 0 <= i < |contents| && Contains(contents[i], v);
      assert DataFlowRelation(digest, ViewOf(src), ViewOf(dst)) == [NewRelation(digest, DataFlow, ViewOf(src), ViewOf(dst), 0.65, v)];
    }
  }

  lemma FlowsValue(src: Finding, dst: Finding, v: string)
    ensures Flows(src, dst, v) ==> v == ResourceValue(dst)
  {
    ResourceIs(dst, v);
  }

  lemma FlowIs(digest: Digest, src: Finding, dst: Finding, r: Relation)
    requires src.id != dst.id && src.scanId == dst.scanId
    ensures r in DataFlowRelation(digest, ViewOf(src), ViewOf(dst))
       <==> Joins(digest, src, dst, r) && r.kind == DataFlow && Flows(src, dst, r.detail)
  {
    FlowsAmong(digest, src, dst, ResourceValue(dst), Flows(src, dst, ResourceValue(dst)), r);
    FlowsValue(src, dst, r.detail);
  }

  lemma FlowsAmong(digest: Digest, src: Finding, dst: Finding, v: string, flows: bool, r: Relation)
    requires src.id != dst.id && src.scanId == dst.scanId && v == ResourceValue(dst) && flows == Flows(src, dst, v)
    ensures r in DataFlowRelation(digest, ViewOf(src), ViewOf(dst))
       <==> Joins(digest, src, dst, r) && r.kind == DataFlow && r.detail == v && flows
  {
    FlowList(digest, src, dst, v);
    WhenIs(flows, digest, DataFlow, src, dst, v, r);
  }

  lemma PreconditionIs(digest: Digest, src: Finding, dst: Finding, r: Relation)
    requires src.id != dst.id && src.scanId == dst.scanId
    ensures r in PreconditionRelation(digest, ViewOf(src), ViewOf(dst))
       <==> Joins(digest, src, dst, r) && r.kind == PotentialPrecondition && Reaches(src, dst, r.detail)
  {
    var host := HostOf(dst);
    NewIs(digest, PotentialPrecondition, src, dst, host, r);
    if |host| >= 4 {
      MentionsLowerIff(src, EvidenceStrings(src.evidence), host);
    }
  }

  lemma InStructure(digest: Digest, a: Finding, b: Finding, r: Relation)
    ensures var va, vb := ViewOf(a), ViewOf(b);
            r in StructuralRelations(digest, va, vb)
            <==> || r in When(SharesEndpoint(va, vb), NewRelation(digest, SameEndpoint, va, vb, 0.6, DisplayEndpoint(a)))
                 || r in When(va.param != "" && va.param == vb.param, NewRelation(digest, SameParameter, va, vb, 0.3, va.param))
                 || r in When(SharesResource(va, vb), NewRelation(digest, SameResource, va, vb, 0.7, va.resource))
                 || r in When(va.identity != "" && va.identity == vb.identity,
                              NewRelation(digest, SameIdentity, va, vb, 0.5, va.identity))
  {
  }

  lemma SameResourceIs(digest: Digest, a: Finding, b: Finding, batch: set<Finding>, r: Relation)
    requires a.id != b.id && a.scanId == b.scanId
    ensures var va, vb := ViewOf(a), ViewOf(b);
            r in When(SharesResource(va, vb), NewRelation(digest, SameResource, va, vb, 0.7, va.resource))
            <==> Joins(digest, a, b, r) && r.kind == SameResource && Fits(SameResource, a, b, batch, r.detail)
  {
    var va, vb := ViewOf(a), ViewOf(b);
    SharesResourceIff(a, b);
    ResourceIs(a, ResourceValue(a));
    ResourceIs(b, ResourceValue(b));
    WhenIs(SharesResource(va, vb), digest, SameResource, a, b, va.resource, r);
  }

  lemma SameFieldIs(digest: Digest, a: Finding, b: Finding, batch: set<Finding>, r: Relation)
    requires a.id != b.id && a.scanId == b.scanId
    ensures var va, vb := ViewOf(a), ViewOf(b);
            && (r in When(SharesEndpoint(va, vb), NewRelation(digest, SameEndpoint, va, vb, 0.6, DisplayEndpoint(a)))
                <==> Joins(digest, a, b, r) && r.kind == SameEndpoint && Fits(SameEndpoint, a, b, batch, r.detail))
            && (r in When(va.param != "" && va.param == vb.param, NewRelation(digest, SameParameter, va, vb, 0.3, va.param))
                <==> Joins(digest, a, b, r) && r.kind == SameParameter && Fits(SameParameter, a, b, batch, r.detail))
            && (r in When(va.identity != "" && va.identity == vb.identity,
                          NewRelation(digest, SameIdentity, va, vb, 0.5, va.identity))
                <==> Joins(digest, a, b, r) && r.kind == SameIdentity && Fits(SameIdentity, a, b, batch, r.detail))
  {
    var va, vb := ViewOf(a), ViewOf(b);
    PlaceIff(a, b);
    WhenIs(SharesEndpoint(va, vb), digest, SameEndpoint, a, b, DisplayEndpoint(a), r);
    WhenIs(va.param != "" && va.param == vb.param, digest, SameParameter, a, b, va.param, r);
    WhenIs(va.identity != "" && va.identity == vb.identity, digest, SameIdentity, a, b, va.identity, r);
  }

  lemma StructureIs(digest: Digest, a: Finding, b: Finding, batch: set<Finding>, r: Relation)
    requires a.id != b.id && Together(a, b)
    ensures r in StructuralRelations(digest, ViewOf(a), ViewOf(b))
       <==> Joins(digest, a, b, r) && r.kind in {SameEndpoint, SameParameter, SameResource, SameIdentity}
            && Fits(r.kind, a, b, batch, r.detail)
  {
    InStructure(digest, a, b, r);
    SameFieldIs(digest, a, b, batch, r);
    SameResourceIs(digest, a, b, batch, r);
  }

  lemma AmplifierIs(digest: Digest, a: Finding, b: Finding, batch: set<Finding>, r: Relation)
    requires a.id != b.id && Together(a, b)
    ensures r in AmplifierRelation(digest, ViewOf(a), ViewOf(b))
       <==> Joins(digest, a, b, r) && r.kind == PotentialImpactAmplifier && Fits(r.kind, a, b, batch, r.detail)
  {
    var va, vb := ViewOf(a), ViewOf(b);
    PlaceIff(a, b);
    SharesResourceIff(a, b);
    var basis := if SharesEndpoint(va, vb) then "endpoint" else "resource";
    NewIs(digest, PotentialImpactAmplifier, a, b, basis, r);
  }

  lemma SharableIff(a: Finding, b: Finding, freq: map<string, nat>, batch: set<Finding>, t: string)
    requires Counts(freq, batch)
    ensures t in SplitTokens(JoinedEvidence(a)) && Sharable(t, Elements(SplitTokens(JoinedEvidence(b))), freq)
       <==> Shares(a, b, batch, t)
  {
    CarriesIff(a, t);
    CarriesIff(b, t);
    SpecificIff(t);
  }

  /** The shared token is a longest one, and there is one if there is any at all. */
  lemma BestIsShared(a: Finding, b: Finding, freq: map<string, nat>, batch: set<Finding>)
    requires Counts(freq, batch)
    ensures var best := BestToken(SplitTokens(JoinedEvidence(a)), Elements(SplitTokens(JoinedEvidence(b))), freq);
            && (best != "" ==> Fits(SharedEvidence, a, b, batch, best))
            && ((exists t :: Shares(a, b, batch, t)) ==> best != "")
  {
    var tokens, other := SplitTokens(JoinedEvidence(a)), Elements(SplitTokens(JoinedEvidence(b)));
    BestTokenIsBest(tokens, other, freq);
    forall t ensures t in tokens && Sharable(t, other, freq) <==> Shares(a, b, batch, t) {
      SharableIff(a, b, freq, batch, t);
    }
  }

  lemma EvidenceList(digest: Digest, a: Finding, b: Finding, freq: map<string, nat>, best: string)
    requires best == BestToken(SplitTokens(JoinedEvidence(a)), Elements(SplitTokens(JoinedEvidence(b))), freq)
    ensures EvidenceRelation(digest, ViewOf(a), ViewOf(b), freq)
         == When(best != "", NewRelation(digest, SharedEvidence, ViewOf(a), ViewOf(b), 0.5, best))
  {
  }

  lemma EvidenceIs(digest: Digest, a: Finding, b: Finding, freq: map<string, nat>, batch: set<Finding>) returns (best: string)
    requires Counts(freq, batch) && a.id != b.id && Together(a, b)
    ensures best != "" ==> Fits(SharedEvidence, a, b, batch, best)
    ensures (exists t :: Shares(a, b, batch, t)) ==> best != ""
    ensures EvidenceRelation(digest, ViewOf(a), ViewOf(b), freq)
         == When(best != "", NewRelation(digest, SharedEvidence, ViewOf(a), ViewOf(b), Weight(SharedEvidence), best))
  {
    BestIsShared(a, b, freq, batch);
    best := BestToken(SplitTokens(JoinedEvidence(a)), Elements(SplitTokens(JoinedEvidence(b))), freq);
    EvidenceList(digest, a, b, freq, best);
  }

  lemma InParts(digest: Digest, a: View, b: View, freq: map<string, nat>, r: Relation)
    requires a.finding.id != b.finding.id
    ensures r in RelationsFor(digest, a, b, freq)
       <==> || r in StructuralRelations(digest, a, b) || r in EvidenceRelation(digest, a, b, freq)
            || r in DataFlowRelation(digest, a, b) || r in DataFlowRelation(digest, b, a)
            || r in PreconditionRelation(digest, a, b) || r in PreconditionRelation(digest, b, a)
            || r in AmplifierRelation(digest, a, b)
  {
  }

  // ----- the pair -----

  /** Two findings are related exactly as their fields say: nothing is reported that Relates does not allow, all
      it allows is, and where several tokens are shared a longest one is reported. */
  lemma PairMeans(digest: Digest, a: Finding, b: Finding, freq: map<string, nat>, batch: set<Finding>)
    requires Counts(freq, batch)
    ensures forall r :: r in PairRelations(digest, a, b, freq) ==> Relates(digest, a, b, batch, r)
    ensures forall r :: Relates(digest, a, b, batch, r) && r.kind != SharedEvidence ==> r in PairRelations(digest, a, b, freq)
    ensures a.id != b.id && Together(a, b) && (exists t :: Shares(a, b, batch, t)) ==>
              exists r :: r in PairRelations(digest, a, b, freq) && r.kind == SharedEvidence
  {
    if a.id != b.id && Together(a, b) {
      var best := EvidenceIs(digest, a, b, freq, batch);
      forall r: Relation
        ensures r in PairRelations(digest, a, b, freq) ==> Relates(digest, a, b, batch, r)
        ensures Relates(digest, a, b, batch, r) && r.kind != SharedEvidence ==> r in PairRelations(digest, a, b, freq)
      {
        OneMeans(digest, a, b, freq, batch, best, r);
      }
      if exists t :: Shares(a, b, batch, t) {
        var r := NewRelation(digest, SharedEvidence, ViewOf(a), ViewOf(b), Weight(SharedEvidence), best);
        InParts(digest, ViewOf(a), ViewOf(b), freq, r);
      }
    }
  }

  lemma OneMeans(digest: Digest, a: Finding, b: Finding, freq: map<string, nat>, batch: set<Finding>, best: string, r: Relation)
    requires a.id != b.id && Together(a, b) && (best != "" ==> Fits(SharedEvidence, a, b, batch, best))
    requires EvidenceRelation(digest, ViewOf(a), ViewOf(b), freq)
          == When(best != "", NewRelation(digest, SharedEvidence, ViewOf(a), ViewOf(b), Weight(SharedEvidence), best))
    ensures r in PairRelations(digest, a, b, freq) ==> Relates(digest, a, b, batch, r)
    ensures Relates(digest, a, b, batch, r) && r.kind != SharedEvidence ==> r in PairRelations(digest, a, b, freq)
  {
    InParts(digest, ViewOf(a), ViewOf(b), freq, r);
    WhenIs(best != "", digest, SharedEvidence, a, b, best, r);
    StructureIs(digest, a, b, batch, r);
    FlowIs(digest, a, b, r);
    FlowIs(digest, b, a, r);
    PreconditionIs(digest, a, b, r);
    PreconditionIs(digest, b, a, r);
    AmplifierIs(digest, a, b, batch, r);
    JoinsEitherWay(digest, a, b, r);
  }
}
