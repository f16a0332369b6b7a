/** What a canonical finding says about a bucket, and that it is the only one that does. */
module Canonical {
  import opened Basics
  import opened Ordering
  import opened Findings
  import opened GroupStream
  import opened Consolidation

  /** How an identity is turned into a finding ID. */
  type Naming = Identity -> string

  datatype Status = New | Confirmed

  datatype BucketState = BucketState(
    identity: Identity, groups: Groups, rawInputCount: nat, firstSeen: int, lastSeen: int)

  datatype CanonicalFinding = CanonicalFinding(
    findingId: string, identity: Identity, detectorId: string, title: string, severity: Severity,
    confidence: real, status: Status, evidence: seq<Evidence>, firstSeen: int, lastSeen: int,
    rawFindingCount: nat, evidenceGroupCount: nat)

  // ----- the evidence of a canonical finding -----

  /** Longer content first, then kind, then content. */
  predicate MoreDetailed(a: Evidence, b: Evidence) {
    if |a.content| != |b.content| then |a.content| > |b.content| else EvidenceLess(a, b)
  }

  lemma MoreDetailedStrictTotal(s: set<Evidence>)
    ensures StrictTotalOn(MoreDetailed, s)
  {
    LexIsOrder();
  }

  function BoundForOutput(items: seq<Evidence>): seq<Evidence> {
    if |items| <= MAX_ITEMS then Sort(items, EvidenceLess)
    else
      SortPermutes(items, MoreDetailed);
      Sort(Sort(items, MoreDetailed)[..MAX_ITEMS], EvidenceLess)
  }

  /** out lists, in canonical order, the MAX_ITEMS most detailed items of union. */
  ghost predicate IsSelection(out: seq<Evidence>, union: set<Evidence>) {
    && NoDup(out) && Elements(out) <= union
    && |out| == (if |union| <= MAX_ITEMS then |union| else MAX_ITEMS)
    && Sorted(out, EvidenceLess)
    && forall k, d :: k in out && d in union && d !in out ==> MoreDetailed(k, d)
  }

  lemma BoundForOutputSelects(items: seq<Evidence>)
    requires NoDup(items)
    ensures IsSelection(BoundForOutput(items), Elements(items))
  {
    if |items| <= MAX_ITEMS {
      SelectsAll(items);
    } else {
      SelectsMostDetailed(items);
    }
  }

  lemma SortedDistinct(items: seq<Evidence>)
    requires NoDup(items)
    ensures var out := Sort(items, EvidenceLess);
            NoDup(out) && Sorted(out, EvidenceLess) && Elements(out) == Elements(items) && |out| == |items|
  {
    EvidenceStrictTotal(Elements(items));
    SortPermutes(items, EvidenceLess);
    SortSorts(items, EvidenceLess);
    NoDupFromMultiset(items, Sort(items, EvidenceLess));
  }

  lemma SelectsAll(items: seq<Evidence>)
    requires NoDup(items) && |items| <= MAX_ITEMS
    ensures IsSelection(Sort(items, EvidenceLess), Elements(items))
  {
    NoDupCount(items);
    SortedDistinct(items);
    var out := Sort(items, EvidenceLess);
    forall d | d in Elements(items) ensures d in out {
      assert d in Elements(out);
    }
  }

  /** The first MAX_ITEMS of a ranking are at least as detailed as everything after them. */
  lemma RankedHead(items: seq<Evidence>)
    requires NoDup(items) && |items| > MAX_ITEMS
    ensures var ranked := Sort(items, MoreDetailed);
            |ranked| == |items| && NoDup(ranked) && NoDup(ranked[..MAX_ITEMS])
            && Elements(ranked[..MAX_ITEMS]) <= Elements(items)
            && (forall k, d ::
                  k in Elements(ranked[..MAX_ITEMS]) && d in Elements(items) - Elements(ranked[..MAX_ITEMS]) ==>
                  MoreDetailed(k, d))
  {
    MoreDetailedStrictTotal(Elements(items));
    SortPermutes(items, MoreDetailed);
    SortSorts(items, MoreDetailed);
    var ranked := Sort(items, MoreDetailed);
    NoDupFromMultiset(items, ranked);
    var kept := ranked[..MAX_ITEMS];
    assert Elements(kept) <= Elements(ranked);
    forall k, d | k in Elements(kept) && d in Elements(items) && d !in Elements(kept) ensures MoreDetailed(k, d) {
      assert d in Elements(ranked) && k in Elements(ranked);
      var i :| 0 <= i < MAX_ITEMS && kept[i] == k;
      var j :| 0 <= j < |ranked| && ranked[j] == d;
      assert forall h :: 0 <= h < MAX_ITEMS ==> kept[h] in Elements(kept);
      assert !MoreDetailed(ranked[j], ranked[i]);
    }
  }

  lemma SelectsMostDetailed(items: seq<Evidence>)
    requires NoDup(items) && |items| > MAX_ITEMS
    ensures IsSelection(BoundForOutput(items), Elements(items))
  {
    NoDupCount(items);
    RankedHead(items);
    var kept := Sort(items, MoreDetailed)[..MAX_ITEMS];
    SortedDistinct(kept);
    var out := Sort(kept, EvidenceLess);
    assert forall e :: e in out <==> e in Elements(out);
  }

  lemma SelectionUnique(a: seq<Evidence>, b: seq<Evidence>, union: set<Evidence>)
    requires IsSelection(a, union) && IsSelection(b, union)
    ensures a == b
  {
    NoDupCount(a);
    NoDupCount(b);
    MoreDetailedStrictTotal(union);
    SelectionSame(a, b, union);
    SelectionSame(b, a, union);
    NoDupPermutation(a, b);
    EvidenceStrictTotal(Elements(a));
    SortedUnique(a, b, EvidenceLess);
  }

  lemma SelectionSame(a: seq<Evidence>, b: seq<Evidence>, union: set<Evidence>)
    requires IsSelection(a, union) && IsSelection(b, union) && StrictTotalOn(MoreDetailed, union)
    requires |Elements(a)| == |Elements(b)|
    ensures Elements(a) <= Elements(b)
  {
    forall x | x in Elements(a) ensures x in Elements(b) {
      if x !in Elements(b) {
        if Elements(b) <= Elements(a) {
          SubsetSize(Elements(b), Elements(a));
        } else {
          var y :| y in Elements(b) && y !in Elements(a);
        }
      }
    }
  }

  // ----- the canonical finding of a bucket -----

  ghost function EvidenceUnion(m: Groups): set<Evidence> {
    set k, e | k in m && e in m[k].evidence :: e
  }

  ghost predicate IsStrongest(m: Groups, k: string) {
    k in m && forall j :: j in m && j != k ==> Stronger(m[k], m[j])
  }

  ghost predicate HasSeverity(m: Groups, s: Severity) {
    && Rank(s) >= 0
    && (forall k :: k in m ==> Rank(m[k].severity) <= Rank(s))
    && (s == Info || exists k :: k in m && m[k].severity == s)
  }

  ghost predicate HasConfidence(m: Groups, c: real) {
    && c >= 0.0 && (forall k :: k in m ==> m[k].confidence <= c)
    && (c == 0.0 || exists k :: k in m && m[k].confidence == c)
  }

  /** cf is what a bucket in state b reports. */
  ghost predicate Reports(naming: Naming, b: BucketState, cf: CanonicalFinding) {
    && cf.findingId == naming(b.identity) && cf.identity == b.identity
    && HasSeverity(b.groups, cf.severity) && HasConfidence(b.groups, cf.confidence)
    && (cf.status == Confirmed <==> |b.groups| >= 2)
    && IsSelection(cf.evidence, EvidenceUnion(b.groups))
    && cf.firstSeen == b.firstSeen && cf.lastSeen == b.lastSeen
    && cf.rawFindingCount == b.rawInputCount && cf.evidenceGroupCount == |b.groups|
    && (if b.groups == map[] then cf.title == "" && cf.detectorId == ""
        else exists k :: IsStrongest(b.groups, k) && cf.title == b.groups[k].title
                         && cf.detectorId == b.groups[k].detectorId)
  }

  /** Two buckets that agree on what matters: same claims, same evidence under each signature. */
  ghost predicate SameContents(a: Groups, b: Groups) {
    a.Keys == b.Keys && forall k :: k in a ==> SameClaim(a[k], b[k]) && a[k].evidence == b[k].evidence
  }

  /** Buckets with the same contents report the same finding, apart from which detector is named. */
  lemma ReportsAgree(naming: Naming, a: BucketState, b: BucketState, x: CanonicalFinding, y: CanonicalFinding)
    requires Keyed(a.groups) && Keyed(b.groups)
    requires Reports(naming, a, x) && Reports(naming, b, y)
    requires a.identity == b.identity && a.rawInputCount == b.rawInputCount
    requires a.firstSeen == b.firstSeen && a.lastSeen == b.lastSeen && SameContents(a.groups, b.groups)
    ensures x == y.(detectorId := x.detectorId)
    ensures (forall k :: IsStrongest(a.groups, k) ==> a.groups[k].detectorId == b.groups[k].detectorId) ==> x == y
  {
    var m, n := a.groups, b.groups;
    assert |m| == |m.Keys| && |n| == |n.Keys|;
    SeveritySame(m, n, x.severity, y.severity);
    ConfidenceSame(m, n, x.confidence, y.confidence);
    assert EvidenceUnion(m) == EvidenceUnion(n);
    SelectionUnique(x.evidence, y.evidence, EvidenceUnion(m));
    if m != map[] {
      assert n != map[] by { assert n.Keys != {}; }
      var k :| IsStrongest(m, k) && x.title == m[k].title && x.detectorId == m[k].detectorId;
      var j :| IsStrongest(n, j) && y.title == n[j].title && y.detectorId == n[j].detectorId;
      StrongestSame(m, n, k, j);
    } else {
      assert n == map[] by { assert n.Keys == {}; }
    }
  }

  lemma StrongestSame(m: Groups, n: Groups, k: string, j: string)
    requires SameContents(m, n) && IsStrongest(m, k) && IsStrongest(n, j)
    ensures k == j
  {
    StrongerIsOrder();
    assert SameClaim(m[k], n[k]) && SameClaim(m[j], n[j]);
  }

  lemma SeveritySame(m: Groups, n: Groups, s: Severity, t: Severity)
    requires SameContents(m, n) && HasSeverity(m, s) && HasSeverity(n, t)
    ensures s == t
  {
    assert forall k :: k in m ==> SameClaim(m[k], n[k]);
  }

  lemma ConfidenceSame(m: Groups, n: Groups, c: real, d: real)
    requires SameContents(m, n) && HasConfidence(m, c) && HasConfidence(n, d)
    ensures c == d
  {
    assert forall k :: k in m ==> SameClaim(m[k], n[k]);
  }

}
