/** What the engine reports about one identity, said over the fields of the raw findings alone: no group, no
    signature and no step of the fold is mentioned in the result. */
module CorrelationMeaning {
  import opened Basics
  import opened Ordering
  import opened Findings
  import opened GroupStream
  import opened GroupContents
  import opened Consolidation
  import opened Canonical
  import opened BucketFold
  import opened CorrelationEngine
  import opened CorrelationBatch

  /** Two findings with the same evidence, in whatever order it is listed. */
  ghost predicate Alike(f: Finding, g: Finding) {
    multiset(f.evidence) == multiset(g.evidence)
  }

  /** c is the least confidence claimed with f's evidence. */
  ghost predicate LeastConfidence(fs: set<Finding>, f: Finding, c: real) {
    && (exists g :: g in fs && Alike(f, g) && g.confidence == c)
    && (forall g :: g in fs && Alike(f, g) ==> c <= g.confidence)
  }

  /** s is the least severity claimed with f's evidence, unrecognised ones counting only among themselves. */
  ghost predicate LeastSeverity(fs: set<Finding>, f: Finding, s: int) {
    && (exists g :: g in fs && Alike(f, g) && Rank(g.severity) == s)
    && (forall g :: g in fs && Alike(f, g) && Rank(g.severity) >= 0 ==> 0 <= s <= Rank(g.severity))
  }

  /** The greatest of the least severities; Info if none is recognised. */
  ghost predicate MeansSeverity(fs: set<Finding>, severity: Severity) {
    && Rank(severity) >= 0
    && (forall f, s :: f in fs && LeastSeverity(fs, f, s) ==> s <= Rank(severity))
    && (severity == Info || exists f :: f in fs && LeastSeverity(fs, f, Rank(severity)))
  }

  /** The greatest of the least confidences, not below zero. */
  ghost predicate MeansConfidence(fs: set<Finding>, confidence: real) {
    && confidence >= 0.0
    && (forall f, c :: f in fs && LeastConfidence(fs, f, c) ==> c <= confidence)
    && (confidence == 0.0 || exists f :: f in fs && LeastConfidence(fs, f, confidence))
  }

  /** No evidence in fs is claimed with more severity, or as severely and with more confidence, than f's. */
  ghost predicate Leads(fs: set<Finding>, f: Finding) {
    forall g :: g in fs ==> Below(fs, g, f)
  }

  ghost predicate Below(fs: set<Finding>, g: Finding, f: Finding) {
    forall s, c, s', c' ::
      LeastSeverity(fs, f, s) && LeastConfidence(fs, f, c) && LeastSeverity(fs, g, s') && LeastConfidence(fs, g, c') ==>
        s' < s || (s' == s && c' <= c)
  }

  /** Title and detector are those of a finding with the leading evidence, the first title in string order. */
  ghost predicate MeansTitle(fs: set<Finding>, title: string, detectorId: string) {
    if fs == {} then title == "" && detectorId == ""
    else exists f :: f in fs && f.title == title && f.detectorId == detectorId && Leads(fs, f)
                     && forall g :: g in fs && Alike(f, g) ==> !LexLess(g.title, title)
  }

  ghost function Evidences(fs: set<Finding>): set<multiset<Evidence>> {
    set f | f in fs :: multiset(f.evidence)
  }

  /** An evidence item with its content cut to the first 4096 characters. */
  ghost predicate IsCut(e: Evidence, c: Evidence) {
    c.kind == e.kind && c.content <= e.content && |c.content| == if |e.content| > 4096 then 4096 else |e.content|
  }

  ghost function CutOf(e: Evidence): (c: Evidence)
    ensures IsCut(e, c)
  {
    if |e.content| > 4096 then e.(content := e.content[..4096]) else e
  }

  /** The cut items of all findings. */
  ghost function Cuts(fs: set<Finding>): set<Evidence> {
    set f, e | f in fs && e in f.evidence :: CutOf(e)
  }

  ghost predicate KindThenContent(a: Evidence, b: Evidence) {
    LexLess(a.kind, b.kind) || (a.kind == b.kind && LexLess(a.content, b.content))
  }

  /** At most twenty of them, by kind and content; what is left out is shorter, or as long and later. */
  ghost predicate MeansEvidence(out: seq<Evidence>, union: set<Evidence>) {
    && (forall i, j :: 0 <= i < j < |out| ==> KindThenContent(out[i], out[j]))
    && (forall e :: e in out ==> e in union)
    && |out| == (if |union| > 20 then 20 else |union|)
    && forall e, d :: e in out && d in union && d !in out ==>
         |e.content| > |d.content| || (|e.content| == |d.content| && KindThenContent(e, d))
  }

  lemma SelectionMeans(out: seq<Evidence>, union: set<Evidence>)
    requires IsSelection(out, union)
    ensures MeansEvidence(out, union)
  {
    LexIsOrder();
    forall i, j | 0 <= i < j < |out| ensures KindThenContent(out[i], out[j]) {
      assert !EvidenceLess(out[j], out[i]) && out[i] != out[j];
    }
    forall e | e in out ensures e in union {
      assert e in Elements(out);
    }
  }

  /** By host, port, path, type, parameter and at last ID. */
  ghost predicate Listed(out: seq<CanonicalFinding>) {
    forall i, j :: 0 <= i < j < |out| ==> Precedes(out[i], out[j])
  }

  ghost predicate Precedes(x: CanonicalFinding, y: CanonicalFinding) {
    var a, b := x.identity, y.identity;
    || LexLess(a.host, b.host)
    || (a.host == b.host && a.port < b.port)
    || (a.host == b.host && a.port == b.port && LexLess(a.path, b.path))
    || (a.host == b.host && a.port == b.port && a.path == b.path && LexLess(a.vulnerabilityType, b.vulnerabilityType))
    || (a.host == b.host && a.port == b.port && a.path == b.path && a.vulnerabilityType == b.vulnerabilityType
        && (LexLess(a.parameter, b.parameter) || (a.parameter == b.parameter && LexLess(x.findingId, y.findingId))))
  }

  lemma ReportListed(out: seq<CanonicalFinding>)
    requires Sorted(out, FindingLess) && DistinctIds(out)
    ensures Listed(out)
  {
    LexIsOrder();
    forall i, j | 0 <= i < j < |out| ensures Precedes(out[i], out[j]) {
      assert !FindingLess(out[j], out[i]) && out[i].findingId != out[j].findingId;
    }
  }

  /** What x says about all the findings of its identity, kept being those whose evidence is retained. */
  ghost predicate Means(all: seq<Finding>, kept: set<Finding>, x: CanonicalFinding) {
    && (forall f :: f in all ==> x.identity == f.identity)
    && x.rawFindingCount == |all|
    && IsFirstSeen(x.firstSeen, Elements(all)) && IsLastSeen(x.lastSeen, Elements(all))
    && MeansSeverity(kept, x.severity) && MeansConfidence(kept, x.confidence)
    && MeansTitle(kept, x.title, x.detectorId)
    && MeansCount(|Evidences(kept)|, x)
    && MeansEvidence(x.evidence, Cuts(kept))
  }

  ghost predicate MeansCount(evidences: nat, x: CanonicalFinding) {
    x.evidenceGroupCount == evidences && (x.status == Confirmed <==> evidences >= 2)
  }

  // ----- from groups to findings -----

  /** Equal signatures stand for equal evidence. */
  ghost predicate Separates(digest: Digest, fs: seq<Finding>) {
    forall f, g :: f in fs && g in fs && Signature(digest, f.evidence) == Signature(digest, g.evidence) ==> Alike(f, g)
  }

  /** As they do between separator-free evidence under an injective digest. */
  lemma SeparatorFreeSeparates(digest: Digest, fs: seq<Finding>)
    requires Injective(digest) && forall f :: f in fs ==> SeparatorFree(f.evidence)
    ensures Separates(digest, fs)
  {
    forall f, g | f in fs && g in fs && Signature(digest, f.evidence) == Signature(digest, g.evidence) ensures Alike(f, g) {
      SignatureDeterminesEvidence(digest, f.evidence, g.evidence);
    }
  }

  ghost function Kept(digest: Digest, fs: seq<Finding>): set<Finding> {
    set f | f in fs && Signature(digest, f.evidence) in Top(Claims(digest, fs), MAX_GROUPS)
  }

  lemma SeparatesIsFaithful(digest: Digest, fs: seq<Finding>)
    requires Separates(digest, fs)
    ensures Faithful(digest, fs)
  {
    forall f, g | f in fs && g in fs && Signature(digest, f.evidence) == Signature(digest, g.evidence)
      ensures BoundedItems(f.evidence) == BoundedItems(g.evidence)
    {
      SignatureOrderIrrelevant(digest, f.evidence, g.evidence);
    }
  }

  /** m holds, for every retained signature, the summary of the claims about it. */
  ghost predicate Summary(digest: Digest, fs: seq<Finding>, m: Groups) {
    && Keyed(m) && m.Keys == Top(Claims(digest, fs), MAX_GROUPS)
    && (forall u :: u in m ==> Summarises(m[u], Elements(Claims(digest, fs)), u))
    && (forall u :: u in m ==> EntryFrom(m[u], Elements(Claims(digest, fs)), u))
  }

  lemma FoldIsSummary(digest: Digest, id: Identity, fs: seq<Finding>)
    requires SteadyBucket(digest, fs)
    ensures Summary(digest, fs, FoldAll(digest, id, fs).groups)
  {
    var stream := Claims(digest, fs);
    var K, m := Top(stream, MAX_GROUPS), Run(stream, MAX_GROUPS);
    FoldGroups(digest, id, fs);
    SteadyConsolidates(stream, K, MAX_GROUPS, stream);
    forall u | u in m ensures Summarises(m[u], Elements(stream), u) && EntryFrom(m[u], Elements(stream), u) {
      MergedSummarises(stream, u);
      Sourced(map[], stream, MAX_GROUPS, u);
    }
  }

  lemma ClaimIn(digest: Digest, fs: seq<Finding>, f: Finding)
    requires f in fs
    ensures ToGroup(digest, f) in Elements(Claims(digest, fs))
    ensures Signature(digest, f.evidence) in Sigs(Claims(digest, fs))
  {
    var i :| 0 <= i < |fs| && fs[i] == f;
    assert Claims(digest, fs)[i] == ToGroup(digest, f);
  }

  /** The claims about a retained signature are those of the alike findings. */
  lemma AlikeIff(digest: Digest, fs: seq<Finding>, f: Finding, g: Finding)
    requires Separates(digest, fs) && f in Kept(digest, fs) && g in fs
    ensures Alike(f, g) <==> Signature(digest, g.evidence) == Signature(digest, f.evidence)
    ensures Alike(f, g) ==> g in Kept(digest, fs)
  {
    if Alike(f, g) {
      SignatureOrderIrrelevant(digest, f.evidence, g.evidence);
    }
  }

  /** The finding a claim came from. */
  lemma FindingOf(digest: Digest, fs: seq<Finding>, c: Group, f: Finding) returns (g: Finding)
    requires Separates(digest, fs) && f in Kept(digest, fs)
    requires c in Elements(Claims(digest, fs)) && c.signature == Signature(digest, f.evidence)
    ensures g in Kept(digest, fs) && Alike(f, g) && c == ToGroup(digest, g)
  {
    var i := ClaimOf(digest, fs, c);
    g := fs[i];
    AlikeIff(digest, fs, f, g);
  }

  /** ... and the claim an alike finding became. */
  lemma ClaimFrom(digest: Digest, fs: seq<Finding>, f: Finding, h: Finding) returns (c: Group)
    requires Separates(digest, fs) && f in Kept(digest, fs) && h in Kept(digest, fs) && Alike(f, h)
    ensures c in Elements(Claims(digest, fs)) && c.signature == Signature(digest, f.evidence)
    ensures c.confidence == h.confidence && c.severity == h.severity && c.title == h.title
  {
    AlikeIff(digest, fs, f, h);
    ClaimIn(digest, fs, h);
    c := ToGroup(digest, h);
  }

  lemma GroupConfidence(digest: Digest, fs: seq<Finding>, m: Groups, f: Finding)
    requires Separates(digest, fs) && Summary(digest, fs, m) && f in Kept(digest, fs)
    ensures LeastConfidence(Kept(digest, fs), f, m[Signature(digest, f.evidence)].confidence)
  {
    var u := Signature(digest, f.evidence);
    var c :| c in Elements(Claims(digest, fs)) && c.signature == u && c.confidence == m[u].confidence;
    var g := FindingOf(digest, fs, c, f);
    forall h | h in Kept(digest, fs) && Alike(f, h) ensures m[u].confidence <= h.confidence {
      var d := ClaimFrom(digest, fs, f, h);
    }
  }

  lemma SeverityClaim(g: Group, claims: set<Group>, u: string) returns (c: Group)
    requires Summarises(g, claims, u)
    ensures c in claims && c.signature == u && Rank(c.severity) == Rank(g.severity)
  {
    c :| c in claims && c.signature == u && Rank(c.severity) == Rank(g.severity);
  }

  lemma SeverityBound(g: Group, claims: set<Group>, u: string, c: Group)
    requires Summarises(g, claims, u) && c in claims && c.signature == u && Rank(c.severity) >= 0
    ensures 0 <= Rank(g.severity) <= Rank(c.severity)
  {
  }

  lemma GroupSeverity(digest: Digest, fs: seq<Finding>, m: Groups, f: Finding)
    requires Separates(digest, fs) && Summary(digest, fs, m) && f in Kept(digest, fs)
    ensures LeastSeverity(Kept(digest, fs), f, Rank(m[Signature(digest, f.evidence)].severity))
  {
    var u := Signature(digest, f.evidence);
    var c := SeverityClaim(m[u], Elements(Claims(digest, fs)), u);
    var g := FindingOf(digest, fs, c, f);
    forall h | h in Kept(digest, fs) && Alike(f, h) && Rank(h.severity) >= 0
      ensures 0 <= Rank(m[u].severity) <= Rank(h.severity)
    {
      var d := ClaimFrom(digest, fs, f, h);
      SeverityBound(m[u], Elements(Claims(digest, fs)), u, d);
    }
  }

  lemma TitleClaim(g: Group, claims: set<Group>, u: string) returns (c: Group)
    requires EntryFrom(g, claims, u)
    ensures c in claims && c.signature == u && FromSame(c, g)
  {
    c :| c in claims && c.signature == u && FromSame(c, g);
  }

  lemma GroupTitle(digest: Digest, fs: seq<Finding>, m: Groups, f: Finding) returns (g: Finding)
    requires Separates(digest, fs) && Summary(digest, fs, m) && f in Kept(digest, fs)
    ensures var h := m[Signature(digest, f.evidence)];
            g in Kept(digest, fs) && Alike(f, g) && g.title == h.title && g.detectorId == h.detectorId
    ensures forall k :: k in Kept(digest, fs) && Alike(f, k) ==> !LexLess(k.title, g.title)
  {
    var u := Signature(digest, f.evidence);
    var c := TitleClaim(m[u], Elements(Claims(digest, fs)), u);
    g := FindingOf(digest, fs, c, f);
    forall k | k in Kept(digest, fs) && Alike(f, k) ensures !LexLess(k.title, m[u].title) {
      var d := ClaimFrom(digest, fs, f, k);
    }
  }

  /** Some retained finding claims under a retained signature. */
  lemma Claimant(digest: Digest, fs: seq<Finding>, m: Groups, u: string) returns (f: Finding)
    requires Summary(digest, fs, m) && u in m
    ensures f in Kept(digest, fs) && Signature(digest, f.evidence) == u
  {
    var c :| c in Elements(Claims(digest, fs)) && c.signature == u && c.confidence == m[u].confidence;
    var i := ClaimOf(digest, fs, c);
    f := fs[i];
  }

  lemma SeverityMeans(digest: Digest, fs: seq<Finding>, m: Groups, severity: Severity)
    requires Separates(digest, fs) && Summary(digest, fs, m) && HasSeverity(m, severity)
    ensures MeansSeverity(Kept(digest, fs), severity)
  {
    var kept := Kept(digest, fs);
    forall f, s | f in kept && LeastSeverity(kept, f, s) ensures s <= Rank(severity) {
      GroupSeverity(digest, fs, m, f);
      LeastSeverityUnique(kept, f, s, Rank(m[Signature(digest, f.evidence)].severity));
    }
    if severity != Info {
      var k :| k in m && m[k].severity == severity;
      var f := Claimant(digest, fs, m, k);
      GroupSeverity(digest, fs, m, f);
    }
  }

  lemma LeastSeverityUnique(fs: set<Finding>, f: Finding, s: int, t: int)
    requires LeastSeverity(fs, f, s) && LeastSeverity(fs, f, t)
    ensures s == t
  {
  }

  lemma ConfidenceMeans(digest: Digest, fs: seq<Finding>, m: Groups, confidence: real)
    requires Separates(digest, fs) && Summary(digest, fs, m) && HasConfidence(m, confidence)
    ensures MeansConfidence(Kept(digest, fs), confidence)
  {
    var kept := Kept(digest, fs);
    forall f, c | f in kept && LeastConfidence(kept, f, c) ensures c <= confidence {
      GroupConfidence(digest, fs, m, f);
    }
    if confidence != 0.0 {
      var k :| k in m && m[k].confidence == confidence;
      var f := Claimant(digest, fs, m, k);
      GroupConfidence(digest, fs, m, f);
    }
  }

  lemma StrongestDominates(m: Groups, u: string, v: string)
    requires IsStrongest(m, u) && v in m
    ensures Rank(m[v].severity) < Rank(m[u].severity)
            || (Rank(m[v].severity) == Rank(m[u].severity) && m[v].confidence <= m[u].confidence)
  {
  }

  lemma LeadsOver(digest: Digest, fs: seq<Finding>, m: Groups, f: Finding, g: Finding, s: int, c: real, s': int, c': real)
    requires Separates(digest, fs) && Summary(digest, fs, m) && f in Kept(digest, fs) && g in Kept(digest, fs)
    requires IsStrongest(m, Signature(digest, f.evidence))
    requires LeastSeverity(Kept(digest, fs), f, s) && LeastConfidence(Kept(digest, fs), f, c)
    requires LeastSeverity(Kept(digest, fs), g, s') && LeastConfidence(Kept(digest, fs), g, c')
    ensures s' < s || (s' == s && c' <= c)
  {
    GroupOf(digest, fs, m, f, s, c);
    GroupOf(digest, fs, m, g, s', c');
    StrongestDominates(m, Signature(digest, f.evidence), Signature(digest, g.evidence));
  }

  lemma StrongestLeads(digest: Digest, fs: seq<Finding>, m: Groups, f: Finding)
    requires Separates(digest, fs) && Summary(digest, fs, m) && f in Kept(digest, fs)
    requires IsStrongest(m, Signature(digest, f.evidence))
    ensures Leads(Kept(digest, fs), f)
  {
    var kept := Kept(digest, fs);
    forall g | g in kept ensures Below(kept, g, f) {
      forall s, c, s', c' | LeastSeverity(kept, f, s) && LeastConfidence(kept, f, c)
          && LeastSeverity(kept, g, s') && LeastConfidence(kept, g, c')
        ensures s' < s || (s' == s && c' <= c)
      {
        LeadsOver(digest, fs, m, f, g, s, c, s', c');
      }
    }
  }

  lemma GroupOf(digest: Digest, fs: seq<Finding>, m: Groups, f: Finding, s: int, c: real)
    requires Separates(digest, fs) && Summary(digest, fs, m) && f in Kept(digest, fs)
    requires LeastSeverity(Kept(digest, fs), f, s) && LeastConfidence(Kept(digest, fs), f, c)
    ensures var g := m[Signature(digest, f.evidence)]; Rank(g.severity) == s && g.confidence == c
  {
    GroupSeverity(digest, fs, m, f);
    GroupConfidence(digest, fs, m, f);
    LeastSeverityUnique(Kept(digest, fs), f, s, Rank(m[Signature(digest, f.evidence)].severity));
  }

  lemma AlikeLeads(fs: set<Finding>, f: Finding, g: Finding)
    requires Leads(fs, f) && Alike(f, g)
    ensures Leads(fs, g)
  {
    forall s: int | LeastSeverity(fs, g, s) ensures LeastSeverity(fs, f, s) {
    }
    forall c: real | LeastConfidence(fs, g, c) ensures LeastConfidence(fs, f, c) {
    }
    forall k | k in fs ensures Below(fs, k, g) {
      assert Below(fs, k, f);
    }
  }

  lemma TitleMeans(digest: Digest, fs: seq<Finding>, m: Groups, title: string, detectorId: string)
    requires Separates(digest, fs) && Summary(digest, fs, m)
    requires if m == map[] then title == "" && detectorId == ""
             else exists k :: IsStrongest(m, k) && title == m[k].title && detectorId == m[k].detectorId
    ensures MeansTitle(Kept(digest, fs), title, detectorId)
  {
    if m == map[] {
      assert m.Keys == {};
    } else {
      var k :| IsStrongest(m, k) && title == m[k].title && detectorId == m[k].detectorId;
      var f := Claimant(digest, fs, m, k);
      StrongestLeads(digest, fs, m, f);
      var g := GroupTitle(digest, fs, m, f);
      AlikeLeads(Kept(digest, fs), f, g);
    }
  }

  lemma CountMeans(digest: Digest, fs: seq<Finding>, m: Groups)
    requires Separates(digest, fs) && Summary(digest, fs, m)
    ensures |m| == |Evidences(Kept(digest, fs))|
  {
    var kept := Kept(digest, fs);
    forall u | u in m.Keys ensures exists f :: f in kept && Signature(digest, f.evidence) == u {
      var f := Claimant(digest, fs, m, u);
    }
    SameSize(digest, kept, m.Keys);
    assert |m| == |m.Keys|;
  }

  /** Signatures and evidences correspond one to one. */
  lemma {:induction false} SameSize(digest: Digest, kept: set<Finding>, sigs: set<string>)
    requires forall f :: f in kept ==> Signature(digest, f.evidence) in sigs
    requires forall u :: u in sigs ==> exists f :: f in kept && Signature(digest, f.evidence) == u
    requires forall f, g :: f in kept && g in kept && Signature(digest, f.evidence) == Signature(digest, g.evidence) ==> Alike(f, g)
    ensures |sigs| == |Evidences(kept)|
    decreases |sigs|
  {
    if sigs == {} {
      assert Evidences(kept) == {};
    } else {
      var u :| u in sigs;
      var f :| f in kept && Signature(digest, f.evidence) == u;
      var others := set g | g in kept && Signature(digest, g.evidence) != u;
      SameSize(digest, others, sigs - {u});
      OneEvidenceLess(digest, kept, others, f);
    }
  }

  lemma OneEvidenceLess(digest: Digest, kept: set<Finding>, others: set<Finding>, f: Finding)
    requires forall f, g :: f in kept && g in kept && Signature(digest, f.evidence) == Signature(digest, g.evidence) ==> Alike(f, g)
    requires f in kept && others == set g | g in kept && Signature(digest, g.evidence) != Signature(digest, f.evidence)
    ensures |Evidences(kept)| == |Evidences(others)| + 1
  {
    var e := multiset(f.evidence);
    forall x ensures x in Evidences(kept) <==> x in Evidences(others) || x == e {
      if x in Evidences(kept) {
        var g :| g in kept && multiset(g.evidence) == x;
        assert g in others || Alike(f, g);
      }
    }
    if e in Evidences(others) {
      var g :| g in others && multiset(g.evidence) == e;
      SignatureOrderIrrelevant(digest, g.evidence, f.evidence);
    }
    assert Evidences(kept) == Evidences(others) + {e};
  }

  /** There is only one such item. */
  lemma CutIsOne(e: Evidence, c: Evidence)
    requires IsCut(e, c)
    ensures c == CutOf(e)
  {
    assert c.content == e.content[..|c.content|];
  }

  lemma ItemsCut(items: seq<Evidence>)
    ensures Elements(BoundedItems(items)) == set e | e in items :: CutOf(e)
  {
    BoundedItemsFacts(items);
    forall e | e in items ensures Truncate(e) == CutOf(e) {
      CutIsOne(e, Truncate(e));
    }
  }

  lemma CutIsRetained(digest: Digest, fs: seq<Finding>, m: Groups, f: Finding, e: Evidence)
    requires Separates(digest, fs) && Summary(digest, fs, m) && f in Kept(digest, fs) && e in f.evidence
    ensures CutOf(e) in EvidenceUnion(m)
  {
    var u := Signature(digest, f.evidence);
    var g := EvidenceOf(digest, fs, m, u, f);
    assert e in multiset(f.evidence) && e in g.evidence;
    ItemsCut(g.evidence);
    assert CutOf(e) in Elements(m[u].evidence);
  }

  lemma RetainedIsCut(digest: Digest, fs: seq<Finding>, m: Groups, c: Evidence) returns (f: Finding, e: Evidence)
    requires Separates(digest, fs) && Summary(digest, fs, m) && c in EvidenceUnion(m)
    ensures f in Kept(digest, fs) && e in f.evidence && c == CutOf(e)
  {
    var u :| u in m && c in m[u].evidence;
    var h := Claimant(digest, fs, m, u);
    f := EvidenceOf(digest, fs, m, u, h);
    ItemsCut(f.evidence);
    assert c in Elements(m[u].evidence);
    e :| e in f.evidence && c == CutOf(e);
  }

  lemma UnionMeans(digest: Digest, fs: seq<Finding>, m: Groups)
    requires Separates(digest, fs) && Summary(digest, fs, m)
    ensures EvidenceUnion(m) == Cuts(Kept(digest, fs))
  {
    var kept, union := Kept(digest, fs), EvidenceUnion(m);
    forall c | c in Cuts(kept) ensures c in union {
      var f, e :| f in kept && e in f.evidence && c == CutOf(e);
      CutIsRetained(digest, fs, m, f, e);
    }
    forall c | c in union ensures c in Cuts(kept) {
      var f, e := RetainedIsCut(digest, fs, m, c);
    }
  }

  lemma EvidenceOf(digest: Digest, fs: seq<Finding>, m: Groups, u: string, f: Finding) returns (g: Finding)
    requires Separates(digest, fs) && Summary(digest, fs, m) && u in m
    requires f in Kept(digest, fs) && Signature(digest, f.evidence) == u
    ensures g in Kept(digest, fs) && Alike(f, g) && m[u].evidence == BoundedItems(g.evidence)
  {
    var c :| c in Elements(Claims(digest, fs)) && c.signature == u && c.evidence == m[u].evidence;
    g := FindingOf(digest, fs, c, f);
  }

  // ----- the theorem -----

  lemma GroupsMean(digest: Digest, fs: seq<Finding>, m: Groups, x: CanonicalFinding)
    requires Separates(digest, fs) && Summary(digest, fs, m)
    requires HasSeverity(m, x.severity) && HasConfidence(m, x.confidence) && IsSelection(x.evidence, EvidenceUnion(m))
    ensures MeansSeverity(Kept(digest, fs), x.severity) && MeansConfidence(Kept(digest, fs), x.confidence)
    ensures |m| == |Evidences(Kept(digest, fs))|
    ensures MeansEvidence(x.evidence, Cuts(Kept(digest, fs)))
  {
    SeverityMeans(digest, fs, m, x.severity);
    ConfidenceMeans(digest, fs, m, x.confidence);
    CountMeans(digest, fs, m);
    UnionMeans(digest, fs, m);
    SelectionMeans(x.evidence, EvidenceUnion(m));
  }

  lemma BucketMeans(naming: Naming, digest: Digest, id: Identity, fs: seq<Finding>, x: CanonicalFinding)
    requires Separates(digest, fs) && SteadyBucket(digest, fs) && forall f :: f in fs ==> f.identity == id
    requires Reports(naming, FoldAll(digest, id, fs), x)
    ensures Means(fs, Kept(digest, fs), x) && x.evidenceGroupCount <= 50
  {
    RunBounded(map[], Claims(digest, fs), MAX_GROUPS);
    FoldIsSummary(digest, id, fs);
    FoldGroups(digest, id, fs);
    FoldTimes(digest, id, fs);
    StateMeans(naming, digest, FoldAll(digest, id, fs), fs, x);
  }

  lemma StateMeans(naming: Naming, digest: Digest, b: BucketState, fs: seq<Finding>, x: CanonicalFinding)
    requires Separates(digest, fs) && Summary(digest, fs, b.groups) && forall f :: f in fs ==> f.identity == b.identity
    requires b.rawInputCount == |fs| && IsFirstSeen(b.firstSeen, Elements(fs)) && IsLastSeen(b.lastSeen, Elements(fs))
    requires Reports(naming, b, x)
    ensures Means(fs, Kept(digest, fs), x)
  {
    ReportGroupsMean(naming, digest, b, fs, x);
    ReportTitleMeans(naming, digest, b, fs, x);
  }

  lemma ReportGroupsMean(naming: Naming, digest: Digest, b: BucketState, fs: seq<Finding>, x: CanonicalFinding)
    requires Separates(digest, fs) && Summary(digest, fs, b.groups) && Reports(naming, b, x)
    ensures MeansSeverity(Kept(digest, fs), x.severity) && MeansConfidence(Kept(digest, fs), x.confidence)
    ensures MeansCount(|Evidences(Kept(digest, fs))|, x)
    ensures MeansEvidence(x.evidence, Cuts(Kept(digest, fs)))
  {
    GroupsMean(digest, fs, b.groups, x);
  }

  lemma ReportTitleMeans(naming: Naming, digest: Digest, b: BucketState, fs: seq<Finding>, x: CanonicalFinding)
    requires Separates(digest, fs) && Summary(digest, fs, b.groups) && Reports(naming, b, x)
    ensures MeansTitle(Kept(digest, fs), x.title, x.detectorId)
  {
    TitleMeans(digest, fs, b.groups, x.title, x.detectorId);
  }

  /** Every reported finding says about the raw findings of its identity what Means spells out; there is one
      for exactly each reported name; and up to fifty different evidences everything counts. */
  lemma ReportMeans(naming: Naming, digest: Digest, fs: seq<Finding>, out: seq<CanonicalFinding>, k: string)
    requires IsReport(naming, IngestAll(naming, digest, map[], fs), out)
    requires Tame(naming, digest, fs) && Separates(digest, Of(naming, fs, k))
    ensures Listed(out)
    ensures (exists x :: x in out && x.findingId == k) <==> (exists f :: f in fs && naming(f.identity) == k)
    ensures forall x :: x in out && x.findingId == k ==>
              Means(Of(naming, fs, k), Kept(digest, Of(naming, fs, k)), x) && x.evidenceGroupCount <= 50
    ensures |Evidences(Elements(Of(naming, fs, k)))| <= 50 ==> Kept(digest, Of(naming, fs, k)) == Elements(Of(naming, fs, k))
  {
    var mine := Of(naming, fs, k);
    ReportListed(out);
    IngestPartitions(naming, digest, fs, k);
    NamesReported(naming, fs, out, k, IngestAll(naming, digest, map[], fs));
    assert SteadyBucket(digest, mine);
    forall x | x in out && x.findingId == k ensures Means(mine, Kept(digest, mine), x) && x.evidenceGroupCount <= 50 {
      SameIdentity(naming, fs, k);
      BucketMeans(naming, digest, mine[0].identity, mine, x);
    }
    if |Evidences(Elements(mine))| <= 50 {
      FewAreKept(digest, mine);
    }
  }

  lemma NamesReported(naming: Naming, fs: seq<Finding>, out: seq<CanonicalFinding>, k: string, snap: Snapshot)
    requires IsReport(naming, snap, out) && (k in snap <==> Of(naming, fs, k) != [])
    ensures (exists x :: x in out && x.findingId == k) <==> (exists f :: f in fs && naming(f.identity) == k)
  {
    assert k in Ids(out) <==> k in snap;
    if k in snap {
      OfMembers(naming, fs, k, Of(naming, fs, k)[0]);
    }
    if f :| f in fs && naming(f.identity) == k {
      OfMembers(naming, fs, k, f);
    }
  }

  lemma SameIdentity(naming: Naming, fs: seq<Finding>, k: string)
    requires forall f, g :: f in fs && g in fs && naming(f.identity) == naming(g.identity) ==> f.identity == g.identity
    ensures forall f, g :: f in Of(naming, fs, k) && g in Of(naming, fs, k) ==> f.identity == g.identity
  {
    forall f | f in Of(naming, fs, k) ensures f in fs && naming(f.identity) == k {
      OfMembers(naming, fs, k, f);
    }
  }

  lemma FewAreKept(digest: Digest, fs: seq<Finding>)
    requires Separates(digest, fs) && |Evidences(Elements(fs))| <= 50
    ensures Kept(digest, fs) == Elements(fs)
  {
    var sigs := Sigs(Claims(digest, fs));
    forall f | f in fs ensures Signature(digest, f.evidence) in sigs {
      ClaimIn(digest, fs, f);
    }
    forall u | u in sigs ensures exists f :: f in Elements(fs) && Signature(digest, f.evidence) == u {
      var c :| c in Claims(digest, fs) && c.signature == u;
      var i := ClaimOf(digest, fs, c);
      assert fs[i] in Elements(fs);
    }
    SameSize(digest, Elements(fs), sigs);
    SubsetSize(Top(Claims(digest, fs), MAX_GROUPS), sigs);
  }

  /** For every stream, however long and in whatever order: each report counts all findings of its name and spans
      their sightings. */
  lemma ReportSpans(naming: Naming, digest: Digest, fs: seq<Finding>, out: seq<CanonicalFinding>, x: CanonicalFinding)
    requires IsReport(naming, IngestAll(naming, digest, map[], fs), out) && x in out
    ensures var mine := Of(naming, fs, x.findingId);
            && x.rawFindingCount == |mine|
            && IsFirstSeen(x.firstSeen, Elements(mine)) && IsLastSeen(x.lastSeen, Elements(mine))
  {
    var mine := Of(naming, fs, x.findingId);
    IngestPartitions(naming, digest, fs, x.findingId);
    FoldTimes(digest, mine[0].identity, mine);
    FoldGroups(digest, mine[0].identity, mine);
  }
}
