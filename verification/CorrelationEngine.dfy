/** The engine over many identities, and the batch view of what it reports. */
module CorrelationEngine {
  import opened Ordering
  import opened Findings
  import opened Consolidation
  import opened Canonical
  import opened BucketFold
  import opened Correlation

  type Snapshot = map<string, BucketState>

  ghost function BucketFor(naming: Naming, snap: Snapshot, f: Finding): BucketState {
    var key := naming(f.identity);
    if key in snap then snap[key] else EmptyBucket(f.identity)
  }

  ghost function IngestOne(naming: Naming, digest: Digest, snap: Snapshot, f: Finding): Snapshot
  {
    snap[naming(f.identity) := Fold(digest, BucketFor(naming, snap, f), f)]
  }

  ghost function IngestAll(naming: Naming, digest: Digest, snap: Snapshot, fs: seq<Finding>): Snapshot
    decreases |fs|
  {
    if fs == [] then snap
    else IngestOne(naming, digest, IngestAll(naming, digest, snap, fs[..|fs| - 1]), fs[|fs| - 1])
  }

  /** Visible order of canonical findings; the finding ID breaks the last tie. */
  predicate FindingLess(a: CanonicalFinding, b: CanonicalFinding) {
    if a.identity.host != b.identity.host then LexLess(a.identity.host, b.identity.host)
    else if a.identity.port != b.identity.port then a.identity.port < b.identity.port
    else if a.identity.path != b.identity.path then LexLess(a.identity.path, b.identity.path)
    else if a.identity.vulnerabilityType != b.identity.vulnerabilityType then
      LexLess(a.identity.vulnerabilityType, b.identity.vulnerabilityType)
    else if a.identity.parameter != b.identity.parameter then LexLess(a.identity.parameter, b.identity.parameter)
    else LexLess(a.findingId, b.findingId)
  }

  ghost predicate DistinctIds(out: seq<CanonicalFinding>) {
    forall i, j :: 0 <= i < j < |out| ==> out[i].findingId != out[j].findingId
  }

  ghost function Ids(out: seq<CanonicalFinding>): set<string> {
    set x | x in out :: x.findingId
  }

  /** out lists, in canonical order, one report per bucket. */
  ghost predicate IsReport(naming: Naming, snap: Snapshot, out: seq<CanonicalFinding>) {
    && Sorted(out, FindingLess) && DistinctIds(out) && Ids(out) == snap.Keys
    && forall x :: x in out ==> x.findingId in snap && Reports(naming, snap[x.findingId], x)
  }

  lemma FindingStrictTotal(out: seq<CanonicalFinding>)
    requires DistinctIds(out)
    ensures StrictTotalOn(FindingLess, Elements(out))
  {
    LexIsOrder();
    forall a, b | a in Elements(out) && b in Elements(out) && a != b ensures FindingLess(a, b) || FindingLess(b, a) {
      var i :| 0 <= i < |out| && out[i] == a;
      var j :| 0 <= j < |out| && out[j] == b;
      assert i != j;
    }
  }

  /** The bucket object b is in abstract state st. */
  ghost predicate Holds(b: Bucket, digest: Digest, st: BucketState)
    reads b
  {
    b.Valid() && b.digest == digest && b.state == st
  }

  class Engine {
    const naming: Naming
    const digest: Digest
    var buckets: map<string, Bucket>
    ghost var contents: Snapshot  // the state of every bucket, by key

    ghost predicate Valid()
      reads this, buckets.Values
    {
      && buckets.Keys == contents.Keys
      && (forall k :: k in buckets ==> Holds(buckets[k], digest, contents[k]) && naming(contents[k].identity) == k)
      && (forall j, k :: j in buckets && k in buckets && j != k ==> buckets[j] != buckets[k])
    }

    constructor (naming: Naming, digest: Digest)
      ensures Valid() && contents == map[] && this.naming == naming && this.digest == digest
    {
      this.naming, this.digest := naming, digest;
      buckets, contents := map[], map[];
    }

    /** Makes sure there is a bucket for f's identity. */
    method Obtain(f: Finding) returns (key: string, isNew: bool)
      requires Valid()
      modifies this
      ensures Valid() && key == naming(f.identity)
      ensures isNew <==> key !in old(contents)
      ensures contents == old(contents)[key := BucketFor(naming, old(contents), f)]
      ensures forall k :: k in buckets && !(k in old(buckets) && buckets[k] == old(buckets)[k]) ==> fresh(buckets[k])
    {
      key := naming(f.identity);
      isNew := key !in buckets;
      if isNew {
        var b := new Bucket(f.identity, digest);
        buckets := buckets[key := b];
        contents := contents[key := EmptyBucket(f.identity)];
      }
    }

    /** Valid but for what contents says of one bucket. */
    ghost predicate ValidBut(key: string)
      reads this, buckets.Values
    {
      && buckets.Keys == contents.Keys
      && (forall k :: k in buckets && k != key ==> Holds(buckets[k], digest, contents[k]) && naming(contents[k].identity) == k)
      && (forall j, k :: j in buckets && k in buckets && j != k ==> buckets[j] != buckets[k])
    }

    ghost method Record(key: string, next: BucketState)
      requires ValidBut(key) && key in buckets && Holds(buckets[key], digest, next) && naming(next.identity) == key
      modifies this`contents
      ensures Valid() && contents == old(contents)[key := next]
    {
      contents := contents[key := next];
    }

    /** One bucket, one finding; no other bucket changes. */
    method Apply(key: string, f: Finding)
      requires Valid() && key in buckets
      modifies this`contents, buckets[key]
      ensures Valid() && contents == old(contents)[key := Fold(digest, old(contents)[key], f)]
    {
      var b := buckets[key];
      b.Ingest(f);
      Record(key, b.state);
    }

    method IngestFinding(f: Finding) returns (key: string, isNew: bool)
      requires Valid()
      modifies this, buckets.Values
      ensures Valid() && contents == IngestOne(naming, digest, old(contents), f)
      ensures forall k :: k in buckets && !(k in old(buckets) && buckets[k] == old(buckets)[k]) ==> fresh(buckets[k])
      ensures key == naming(f.identity) && (isNew <==> key !in old(contents))
    {
      key, isNew := Obtain(f);
      Overwrite(old(contents), key, contents[key], Fold(digest, contents[key], f));
      Apply(key, f);
    }

    /** Folds findings in, in order; each result says whether its identity was new. */
    method Ingest(findings: seq<Finding>) returns (results: seq<(string, bool)>)
      requires Valid()
      modifies this, buckets.Values
      ensures Valid() && contents == IngestAll(naming, digest, old(contents), findings)
      ensures results == Results(naming, digest, old(contents), findings)
    {
      results := [];
      for i := 0 to |findings|
        invariant Valid() && contents == IngestAll(naming, digest, old(contents), findings[..i])
        invariant forall k :: k in buckets && !(k in old(buckets) && buckets[k] == old(buckets)[k]) ==> fresh(buckets[k])
        invariant results == Results(naming, digest, old(contents), findings[..i])
      {
        assert findings[..i + 1][..i] == findings[..i];
        var key, isNew := IngestFinding(findings[i]);
        results := results + [(key, isNew)];
      }
      assert findings[..|findings|] == findings;
    }

    /** Every canonical finding, in canonical order, whatever order the map is visited in. */
    method Findings() returns (out: seq<CanonicalFinding>)
      requires Valid()
      ensures IsReport(naming, contents, out)
    {
      out := [];
      var rest := buckets.Keys;
      while rest != {}
        invariant rest <= buckets.Keys && Gathered(naming, contents, rest, out)
        decreases |rest|
      {
        var k :| k in rest;
        var cf := buckets[k].Build(naming);
        GatheredStep(naming, contents, rest, out, k, cf);
        out := out + [cf];
        rest := rest - {k};
      }
      SortedReport(naming, contents, out);
      out := Sort(out, FindingLess);
    }

    method Len() returns (n: nat)
      requires Valid()
      ensures n == |contents|
    {
      assert |contents| == |contents.Keys| && |buckets| == |buckets.Keys|;
      n := |buckets|;
    }
  }

  lemma Overwrite<K, V>(m: map<K, V>, k: K, x: V, y: V)
    ensures m[k := x][k := y] == m[k := y]
  {
  }

  /** Each finding's key, and whether it is new: nothing ingested before it had that key. */
  ghost function Results(naming: Naming, digest: Digest, start: Snapshot, fs: seq<Finding>): seq<(string, bool)>
    decreases |fs|
  {
    if fs == [] then []
    else
      var n := |fs| - 1;
      var key := naming(fs[n].identity);
      Results(naming, digest, start, fs[..n]) + [(key, key !in IngestAll(naming, digest, start, fs[..n]))]
  }

  /** out holds one report for each bucket outside rest. */
  ghost predicate Gathered(naming: Naming, snap: Snapshot, rest: set<string>, out: seq<CanonicalFinding>) {
    && DistinctIds(out) && Ids(out) == snap.Keys - rest
    && forall x :: x in out ==> x.findingId in snap && Reports(naming, snap[x.findingId], x)
  }

  lemma IdsSnoc(out: seq<CanonicalFinding>, cf: CanonicalFinding)
    ensures Ids(out + [cf]) == Ids(out) + {cf.findingId}
  {
    assert forall x :: x in out + [cf] <==> x in out || x == cf;
  }

  lemma DistinctSnoc(out: seq<CanonicalFinding>, cf: CanonicalFinding)
    requires DistinctIds(out) && cf.findingId !in Ids(out)
    ensures DistinctIds(out + [cf])
  {
    forall i | 0 <= i < |out| ensures out[i].findingId != cf.findingId {
      assert out[i] in out;
    }
  }

  lemma GatheredStep(naming: Naming, snap: Snapshot, rest: set<string>, out: seq<CanonicalFinding>, k: string, cf: CanonicalFinding)
    requires Gathered(naming, snap, rest, out) && k in rest && rest <= snap.Keys
    requires cf.findingId == k && Reports(naming, snap[k], cf)
    ensures Gathered(naming, snap, rest - {k}, out + [cf])
  {
    DistinctSnoc(out, cf);
    IdsSnoc(out, cf);
  }

  lemma SortedReport(naming: Naming, snap: Snapshot, out: seq<CanonicalFinding>)
    requires Gathered(naming, snap, {}, out)
    ensures IsReport(naming, snap, Sort(out, FindingLess))
  {
    FindingStrictTotal(out);
    SortSorts(out, FindingLess);
    SortPermutes(out, FindingLess);
    SameReports(out, Sort(out, FindingLess));
  }

  lemma SameReports(out: seq<CanonicalFinding>, sorted: seq<CanonicalFinding>)
    requires multiset(out) == multiset(sorted) && DistinctIds(out)
    ensures DistinctIds(sorted) && Ids(sorted) == Ids(out) && (forall x :: x in sorted <==> x in out)
  {
    SameMultisetSameElements(out, sorted);
    assert NoDup(out);
    NoDupFromMultiset(out, sorted);
    forall i, j | 0 <= i < j < |sorted| ensures sorted[i].findingId != sorted[j].findingId {
      assert sorted[i] in out && sorted[j] in out;
      var a :| 0 <= a < |out| && out[a] == sorted[i];
      var b :| 0 <= b < |out| && out[b] == sorted[j];
    }
    forall s ensures s in Ids(sorted) <==> s in Ids(out) {
      if s in Ids(sorted) {
        var x :| x in sorted && x.findingId == s;
      }
      if s in Ids(out) {
        var x :| x in out && x.findingId == s;
      }
    }
  }
}
