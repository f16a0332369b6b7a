/** The engine against its batch specification: partition by identity, consolidate, report. */
module CorrelationBatch {
  import opened Basics
  import opened Ordering
  import opened Joining
  import opened Findings
  import opened GroupStream
  import opened GroupOrder
  import opened GroupOrderExact
  import opened Consolidation
  import opened IdentityKey
  import opened Canonical
  import opened BucketFold
  import opened CorrelationEngine

  /** The findings reported under k, in arrival order. */
  function Of(naming: Naming, fs: seq<Finding>, k: string): seq<Finding>
    decreases |fs|
  {
    if fs == [] then []
    else
      var n := |fs| - 1;
      Of(naming, fs[..n], k) + if naming(fs[n].identity) == k then [fs[n]] else []
  }

  lemma {:induction false} OfPermutes(naming: Naming, fs: seq<Finding>, k: string)
    ensures forall f :: multiset(Of(naming, fs, k))[f] == if naming(f.identity) == k then multiset(fs)[f] else 0
    decreases |fs|
  {
    if fs != [] {
      var n := |fs| - 1;
      assert fs == fs[..n] + [fs[n]];
      OfPermutes(naming, fs[..n], k);
    }
  }

  lemma OfSame(naming: Naming, fs: seq<Finding>, gs: seq<Finding>, k: string)
    requires multiset(fs) == multiset(gs)
    ensures multiset(Of(naming, fs, k)) == multiset(Of(naming, gs, k))
  {
    OfPermutes(naming, fs, k);
    OfPermutes(naming, gs, k);
  }

  lemma OfMembers(naming: Naming, fs: seq<Finding>, k: string, f: Finding)
    ensures f in Of(naming, fs, k) <==> f in fs && naming(f.identity) == k
  {
    OfPermutes(naming, fs, k);
    assert f in Of(naming, fs, k) <==> f in multiset(Of(naming, fs, k));
    assert f in fs <==> f in multiset(fs);
  }

  /** Ingesting a stream leaves one bucket per name, holding the fold of the findings of that name. */
  lemma {:induction false} IngestPartitions(naming: Naming, digest: Digest, fs: seq<Finding>, k: string)
    ensures k in IngestAll(naming, digest, map[], fs) <==> Of(naming, fs, k) != []
    ensures Of(naming, fs, k) != [] ==>
              IngestAll(naming, digest, map[], fs)[k]
              == FoldAll(digest, Of(naming, fs, k)[0].identity, Of(naming, fs, k))
    decreases |fs|
  {
    if fs != [] {
      var n := |fs| - 1;
      IngestPartitions(naming, digest, fs[..n], k);
      PartitionStep(naming, digest, IngestAll(naming, digest, map[], fs[..n]), Of(naming, fs[..n], k), k, fs[n]);
    }
  }

  lemma PartitionStep(naming: Naming, digest: Digest, snap: Snapshot, mine: seq<Finding>, k: string, f: Finding)
    requires k in snap <==> mine != []
    requires mine != [] ==> snap[k] == FoldAll(digest, mine[0].identity, mine)
    ensures var mine' := mine + if naming(f.identity) == k then [f] else [];
            var snap' := IngestOne(naming, digest, snap, f);
            (k in snap' <==> mine' != [])
            && (mine' != [] ==> snap'[k] == FoldAll(digest, mine'[0].identity, mine'))
  {
    if naming(f.identity) == k {
      assert (mine + [f])[..|mine + [f]| - 1] == mine;
      assert mine == [] ==> FoldAll(digest, f.identity, mine) == EmptyBucket(f.identity);
    } else {
      assert mine + [] == mine;
    }
  }

  lemma IngestSnoc(naming: Naming, digest: Digest, snap: Snapshot, fs: seq<Finding>, f: Finding)
    ensures IngestAll(naming, digest, snap, fs + [f]) == IngestOne(naming, digest, IngestAll(naming, digest, snap, fs), f)
  {
    assert (fs + [f])[..|fs + [f]| - 1] == fs;
  }

  /** Splitting a batch over several calls changes nothing. */
  lemma {:induction false} IngestRebatches(naming: Naming, digest: Digest, snap: Snapshot, a: seq<Finding>, b: seq<Finding>)
    ensures IngestAll(naming, digest, snap, a + b)
         == IngestAll(naming, digest, IngestAll(naming, digest, snap, a), b)
    decreases |b|
  {
    if b == [] {
      assert a + b == a;
    } else {
      var pre, f := b[..|b| - 1], b[|b| - 1];
      assert b == pre + [f] && a + b == (a + pre) + [f];
      IngestRebatches(naming, digest, snap, a, pre);
      IngestSnoc(naming, digest, snap, a + pre, f);
      IngestSnoc(naming, digest, IngestAll(naming, digest, snap, a), pre, f);
    }
  }

  /** Per name: one identity, equal signatures mean equal evidence, and a bucket that is steady. */
  ghost predicate Tame(naming: Naming, digest: Digest, fs: seq<Finding>) {
    && (forall f, g :: f in fs && g in fs && naming(f.identity) == naming(g.identity) ==> f.identity == g.identity)
    && (forall k :: Faithful(digest, Of(naming, fs, k)))
    && (forall k :: SteadyBucket(digest, Of(naming, fs, k)))
  }

  /** Entry by entry the same, but for the detector named where the findings of one title disagree. */
  ghost predicate SameReports(naming: Naming, digest: Digest, fs: seq<Finding>,
                              x: seq<CanonicalFinding>, y: seq<CanonicalFinding>)
  {
    && |x| == |y|
    && forall i :: 0 <= i < |x| ==>
         && x[i] == y[i].(detectorId := x[i].detectorId)
         && (DetectorsAgree(digest, Of(naming, fs, x[i].findingId)) ==> x[i] == y[i])
  }

  /** The report is a function of the multiset of findings: order, batching and map iteration do
      not reach it. */
  lemma ReportOrderIrrelevant(naming: Naming, digest: Digest, fs: seq<Finding>, gs: seq<Finding>,
                              x: seq<CanonicalFinding>, y: seq<CanonicalFinding>)
    requires multiset(fs) == multiset(gs) && Tame(naming, digest, fs)
    requires IsReport(naming, IngestAll(naming, digest, map[], fs), x)
    requires IsReport(naming, IngestAll(naming, digest, map[], gs), y)
    ensures SameReports(naming, digest, fs, x, y)
    ensures (forall k :: DetectorsAgree(digest, Of(naming, fs, k))) ==> x == y
  {
    LinedUp(naming, digest, fs, gs, x, y);
    forall i | 0 <= i < |x|
      ensures x[i] == y[i].(detectorId := x[i].detectorId)
      ensures DetectorsAgree(digest, Of(naming, fs, x[i].findingId)) ==> x[i] == y[i]
    {
      assert x[i] in x && y[i] in y;
      SameEntry(naming, digest, fs, gs, x[i].findingId, x[i], y[i]);
    }
  }

  lemma LinedUp(naming: Naming, digest: Digest, fs: seq<Finding>, gs: seq<Finding>,
                x: seq<CanonicalFinding>, y: seq<CanonicalFinding>)
    requires multiset(fs) == multiset(gs) && Tame(naming, digest, fs)
    requires IsReport(naming, IngestAll(naming, digest, map[], fs), x)
    requires IsReport(naming, IngestAll(naming, digest, map[], gs), y)
    ensures |x| == |y| && forall i :: 0 <= i < |x| ==> x[i].findingId == y[i].findingId
  {
    ReportWithin(naming, digest, fs, gs, x, y);
    TameOfPermutation(naming, digest, fs, gs);
    ReportWithin(naming, digest, gs, fs, y, x);
    SameBlanks(x, y);
    forall i | 0 <= i < |x| ensures x[i].findingId == y[i].findingId {
      assert Blank(x[i]) == Blank(y[i]);
    }
  }

  /** Everything but the detector. */
  function Blank(a: CanonicalFinding): CanonicalFinding {
    a.(detectorId := "")
  }

  ghost predicate Within(x: seq<CanonicalFinding>, y: seq<CanonicalFinding>) {
    forall a :: a in x ==> exists b :: b in y && Blank(a) == Blank(b)
  }

  /** Two sorted reports of the same entries line up, whatever detectors they name. */
  lemma SameBlanks(x: seq<CanonicalFinding>, y: seq<CanonicalFinding>)
    requires Within(x, y) && Within(y, x) && DistinctIds(x) && DistinctIds(y)
    requires Sorted(x, FindingLess) && Sorted(y, FindingLess)
    ensures |x| == |y| && forall i :: 0 <= i < |x| ==> Blank(x[i]) == Blank(y[i])
  {
    var us, vs := Map(x, Blank), Map(y, Blank);
    BlanksWithin(x, y);
    BlanksWithin(y, x);
    FindingStrictTotal(us);
    NoDupPermutation(us, vs);
    SortedUnique(us, vs, FindingLess);
    assert forall i :: 0 <= i < |x| ==> us[i] == Blank(x[i]) && vs[i] == Blank(y[i]);
  }

  lemma BlanksWithin(x: seq<CanonicalFinding>, y: seq<CanonicalFinding>)
    requires Within(x, y) && DistinctIds(x) && Sorted(x, FindingLess)
    ensures Elements(Map(x, Blank)) <= Elements(Map(y, Blank))
    ensures DistinctIds(Map(x, Blank)) && NoDup(Map(x, Blank)) && Sorted(Map(x, Blank), FindingLess)
  {
    var us, vs := Map(x, Blank), Map(y, Blank);
    forall c | c in Elements(us) ensures c in Elements(vs) {
      var i :| 0 <= i < |us| && us[i] == c;
      assert x[i] in x;
      var b :| b in y && Blank(x[i]) == Blank(b);
      var j :| 0 <= j < |y| && y[j] == b;
      assert vs[j] == c;
    }
    assert forall i :: 0 <= i < |x| ==> us[i].findingId == x[i].findingId;
    forall i, j | 0 <= i < j < |us| ensures !FindingLess(us[j], us[i]) {
      assert !FindingLess(x[j], x[i]);
    }
  }

  lemma TameOfPermutation(naming: Naming, digest: Digest, fs: seq<Finding>, gs: seq<Finding>)
    requires multiset(fs) == multiset(gs) && Tame(naming, digest, fs)
    ensures Tame(naming, digest, gs)
  {
    SameMultisetSameElements(fs, gs);
    forall k ensures Faithful(digest, Of(naming, gs, k)) && SteadyBucket(digest, Of(naming, gs, k)) {
      var a, b := Of(naming, fs, k), Of(naming, gs, k);
      OfSame(naming, fs, gs, k);
      SameMultisetSameElements(a, b);
      assert Faithful(digest, a) && SteadyBucket(digest, a);
      SteadyBucketOfPermutation(digest, a, b);
    }
  }

  lemma ReportWithin(naming: Naming, digest: Digest, fs: seq<Finding>, gs: seq<Finding>,
                     x: seq<CanonicalFinding>, y: seq<CanonicalFinding>)
    requires multiset(fs) == multiset(gs) && Tame(naming, digest, fs)
    requires IsReport(naming, IngestAll(naming, digest, map[], fs), x)
    requires IsReport(naming, IngestAll(naming, digest, map[], gs), y)
    ensures Within(x, y)
  {
    forall a | a in x ensures exists b :: b in y && Blank(a) == Blank(b) {
      var k := a.findingId;
      IngestPartitions(naming, digest, fs, k);
      IngestPartitions(naming, digest, gs, k);
      OfSame(naming, fs, gs, k);
      SameMultisetSameElements(Of(naming, fs, k), Of(naming, gs, k));
      assert k in Ids(y);
      var b :| b in y && b.findingId == k;
      SameEntry(naming, digest, fs, gs, k, a, b);
      assert Blank(a) == Blank(b);
    }
  }

  lemma SameEntry(naming: Naming, digest: Digest, fs: seq<Finding>, gs: seq<Finding>, k: string,
                  a: CanonicalFinding, b: CanonicalFinding)
    requires multiset(fs) == multiset(gs) && Tame(naming, digest, fs)
    requires k in IngestAll(naming, digest, map[], fs) && Reports(naming, IngestAll(naming, digest, map[], fs)[k], a)
    requires k in IngestAll(naming, digest, map[], gs) && Reports(naming, IngestAll(naming, digest, map[], gs)[k], b)
    ensures a == b.(detectorId := a.detectorId)
    ensures DetectorsAgree(digest, Of(naming, fs, k)) ==> a == b
  {
    IngestPartitions(naming, digest, fs, k);
    IngestPartitions(naming, digest, gs, k);
    var p, q := Of(naming, fs, k), Of(naming, gs, k);
    OfSame(naming, fs, gs, k);
    SameMultisetSameElements(p, q);
    SameMultisetSameElements(fs, gs);
    OfMembers(naming, fs, k, p[0]);
    OfMembers(naming, gs, k, q[0]);
    assert Faithful(digest, p) && SteadyBucket(digest, p);
    SameFold(naming, digest, p[0].identity, p, q, a, b);
  }

  lemma SameFold(naming: Naming, digest: Digest, id: Identity, p: seq<Finding>, q: seq<Finding>,
                 a: CanonicalFinding, b: CanonicalFinding)
    requires multiset(p) == multiset(q) && Faithful(digest, p) && SteadyBucket(digest, p)
    requires Reports(naming, FoldAll(digest, id, p), a) && Reports(naming, FoldAll(digest, id, q), b)
    ensures a == b.(detectorId := a.detectorId)
    ensures DetectorsAgree(digest, p) ==> a == b
  {
    SteadyOrderIrrelevant(digest, id, p, q);
    FoldGroups(digest, id, p);
    FoldGroups(digest, id, q);
    ReportsAgree(naming, FoldAll(digest, id, p), FoldAll(digest, id, q), a, b);
  }

  /** The engine's own naming: a digest of the identity key. */
  function KeyDigest(idDigest: Digest): Naming {
    (id: Identity) => FindingId(idDigest, id)
  }

  /** What makes findings tame in the engine's own naming: injective digests and no separator bytes
      where they would be read as structure. */
  lemma SeparatorFreeIsTame(idDigest: Digest, digest: Digest, fs: seq<Finding>)
    requires Injective(idDigest) && Injective(digest)
    requires forall f :: f in fs ==> SeparatorFree(f.evidence) && AllFree(Components(f.identity), UNIT_SEPARATOR)
    requires forall k :: SteadyBucket(digest, Of(KeyDigest(idDigest), fs, k))
    ensures Tame(KeyDigest(idDigest), digest, fs)
  {
    var naming := KeyDigest(idDigest);
    forall f, g | f in fs && g in fs && naming(f.identity) == naming(g.identity) ensures f.identity == g.identity {
      KeyDeterminesIdentity(f.identity);
      assert Key(g.identity) == Key(f.identity);
    }
    forall k ensures Faithful(digest, Of(naming, fs, k)) {
      forall f, g | f in Of(naming, fs, k) && g in Of(naming, fs, k)
                    && Signature(digest, f.evidence) == Signature(digest, g.evidence)
        ensures BoundedItems(f.evidence) == BoundedItems(g.evidence)
      {
        OfMembers(naming, fs, k, f);
        OfMembers(naming, fs, k, g);
        SignatureDeterminesEvidence(digest, f.evidence, g.evidence);
        SignatureOrderIrrelevant(digest, f.evidence, g.evidence);
      }
    }
  }

  // ----- a concrete stream on which order is visible -----

  function Name(i: nat): string {
    seq(i, _ => 'a')
  }

  /** cap middling claims under different signatures. */
  function Filler(i: nat): Group {
    Group(Name(i), 0.5, Low, [], "", "", "", "")
  }

  function Fillers(n: nat): seq<Group> {
    if n == 0 then [] else Fillers(n - 1) + [Filler(n - 1)]
  }

  const STRONG: Group := Group("b", 0.9, High, [], "", "", "", "")
  const WEAK: Group := STRONG.(severity := Info)

  function Names(n: nat): set<string> {
    if n == 0 then {} else Names(n - 1) + {Name(n - 1)}
  }

  lemma {:induction false} NamesFacts(n: nat)
    ensures |Names(n)| == n
    ensures forall u :: u in Names(n) ==> |u| < n && u == Name(|u|)
    ensures "b" !in Names(n)
  {
    if n > 0 {
      NamesFacts(n - 1);
      assert Name(n - 1) !in Names(n - 1);
      assert n > 1 ==> Name(n - 1)[0] == 'a';
    }
  }

  lemma {:induction false} FillersSigs(n: nat)
    ensures Sigs(Fillers(n)) == Names(n)
  {
    if n > 0 {
      var s := Fillers(n);
      assert s[..|s| - 1] == Fillers(n - 1);
      SigsSnoc(s);
      FillersSigs(n - 1);
    }
  }

  function Stream(n: nat): seq<Group> {
    [STRONG, WEAK] + Fillers(n)
  }

  lemma StreamSnoc(n: nat)
    requires n > 0
    ensures Stream(n) == Stream(n - 1) + [Filler(n - 1)]
    ensures Stream(n)[..|Stream(n)| - 1] == Stream(n - 1)
  {
  }

  lemma {:induction false} StreamSigs(n: nat)
    ensures Sigs(Stream(n)) == {"b"} + Names(n)
    ensures Merged(Stream(n), "b") == WEAK
  {
    if n == 0 {
      StreamStart();
    } else {
      StreamSigs(n - 1);
      NamesFacts(n);
      assert Name(n - 1) in Names(n);
      StreamStep(Stream(n - 1), Names(n - 1), Filler(n - 1));
      StreamSnoc(n);
    }
  }

  lemma StreamStep(pre: seq<Group>, names: set<string>, g: Group)
    requires Sigs(pre) == {"b"} + names && g.signature != "b"
    ensures Sigs(pre + [g]) == {"b"} + (names + {g.signature})
    ensures Merged(pre + [g], "b") == Merged(pre, "b")
  {
    var s := pre + [g];
    assert s[..|s| - 1] == pre;
    SigsSnoc(s);
    MergedSnoc(pre, g, "b");
  }

  lemma StreamStart()
    ensures Sigs(Stream(0)) == {"b"} && Merged(Stream(0), "b") == WEAK
  {
    var s := Stream(0);
    assert s == [STRONG] + [WEAK] && s[..1] == [STRONG];
    Single(STRONG);
    SigsSnoc(s);
    MergedSnoc([STRONG], WEAK, "b");
    assert forall g :: g in s ==> g.signature == "b";
  }

  lemma {:induction false} StreamMerged(n: nat, u: string)
    requires u in Names(n)
    ensures u in Sigs(Stream(n)) && Merged(Stream(n), u) == Filler(|u|)
  {
    NamesFacts(n);
    NamesFacts(n - 1);
    StreamSigs(n);
    StreamSigs(n - 1);
    StreamSnoc(n);
    MergedSnoc(Stream(n - 1), Filler(n - 1), u);
    if u in Names(n - 1) {
      StreamMerged(n - 1, u);
      assert |u| < n - 1 == |Name(n - 1)|;
    } else {
      assert u == Name(n - 1) && u != "b";
    }
  }

  /** A strong claim, its later weakening and a full bucket of middling claims: some order of these
      52 findings retains other signatures than another. */
  lemma EvictionSeesOrder(cap: nat)
    requires cap >= 1
    ensures !OrderIndependent(Stream(cap), cap)
  {
    var s, K := Stream(cap), Names(cap);
    NamesFacts(cap);
    StreamSigs(cap);
    forall u | u in K ensures Stronger(Merged(s, u), WEAK) && !Stronger(Merged(s, u), STRONG) {
      StreamMerged(cap, u);
    }
    assert "b" in Sigs(s) && |Sigs(s)| == cap + 1;
    assert IsTop(s, K, cap);
    assert STRONG == s[0] && Name(cap - 1) in K;
    var p, q := OrdersDiffer(s, K, cap, Name(cap - 1), STRONG);
  }
}
