/** Findings as the detection engine normalises, identifies and deduplicates them. */
module DetectionFindings {
  import opened FirstBy
  import Joining

  datatype Evidence = Evidence(id: string, findingId: string, createdAt: int, content: string)

  /** Times are points on a clock; 0 is Go's zero time. */
  datatype Finding = Finding(
    id: string, scanId: string, detectorId: string, target: string, host: string, port: int, url: string,
    httpMethod: string, affectedEndpoint: string, affectedParameter: string, vulnerabilityType: string,
    severity: string, validationStatus: string, source: string, identityContext: string,
    evidence: seq<Evidence>, firstSeen: int, lastSeen: int)

  datatype Target = Target(
    scanJobId: string, kind: string, host: string, port: int, url: string, httpMethod: string, path: string,
    parameter: string, identityContext: string)

  datatype Metadata = Metadata(id: string, defaultSeverity: string, targetTypes: seq<string>, methods: seq<string>)

  const ENDPOINT_KIND := "endpoint"
  const UNVALIDATED := "UNVALIDATED"
  const DEFAULT_SOURCE := "sakanner"

  /** Source of new identifiers for a finding and its evidence items. */
  datatype NewIds = NewIds(finding: string, evidence: nat -> string)

  function Default(text: string, fallback: string): string {
    if text == "" then fallback else text
  }

  function OwnItem(item: Evidence, findingId: string, newId: string, now: int): Evidence {
    Evidence(Default(item.id, newId), findingId, if item.createdAt == 0 then now else item.createdAt, item.content)
  }

  function OwnEvidence(items: seq<Evidence>, findingId: string, newId: nat -> string, now: int): seq<Evidence> {
    seq(|items|, i requires 0 <= i < |items| => OwnItem(items[i], findingId, newId(i), now))
  }

  function NormalizeFinding(f: Finding, meta: Metadata, t: Target, now: int, ids: NewIds): Finding {
    var id := Default(f.id, ids.finding);
    Finding(id, t.scanJobId, meta.id, Default(f.target, t.host), t.host, t.port, Default(f.url, t.url),
            Default(f.httpMethod, t.httpMethod), Default(f.affectedEndpoint, t.path), Default(f.affectedParameter, t.parameter),
            f.vulnerabilityType, Default(f.severity, meta.defaultSeverity), Default(f.validationStatus, UNVALIDATED),
            Default(f.source, DEFAULT_SOURCE), Default(f.identityContext, t.identityContext),
            OwnEvidence(f.evidence, id, ids.evidence, now), if f.firstSeen == 0 then now else f.firstSeen, now)
  }

  /** result is the finding's own value, or the given one where it has none. */
  ghost predicate Filled(own: string, given: string, result: string) {
    (own != "" ==> result == own) && (own == "" ==> result == given)
  }

  /** What the detector reported stays; what it left out comes from the target, the detector's metadata or the
      defaults; the scan, the detector, the host and the port are never the detector's to choose. */
  lemma NormalizeKeeps(f: Finding, meta: Metadata, t: Target, now: int, ids: NewIds)
    ensures var n := NormalizeFinding(f, meta, t, now, ids);
            && n.scanId == t.scanJobId && n.detectorId == meta.id && n.host == t.host && n.port == t.port
            && Filled(f.target, t.host, n.target) && Filled(f.url, t.url, n.url)
            && Filled(f.httpMethod, t.httpMethod, n.httpMethod) && Filled(f.affectedEndpoint, t.path, n.affectedEndpoint)
            && Filled(f.affectedParameter, t.parameter, n.affectedParameter)
            && Filled(f.identityContext, t.identityContext, n.identityContext)
            && Filled(f.severity, meta.defaultSeverity, n.severity) && Filled(f.validationStatus, "UNVALIDATED", n.validationStatus)
            && Filled(f.source, "sakanner", n.source) && Filled(f.id, ids.finding, n.id)
            && n.vulnerabilityType == f.vulnerabilityType && n.lastSeen == now
            && (f.firstSeen != 0 ==> n.firstSeen == f.firstSeen) && (f.firstSeen == 0 ==> n.firstSeen == now)
            && |n.evidence| == |f.evidence|
            && forall i: nat :: i < |f.evidence| ==>
                 && Filled(f.evidence[i].id, ids.evidence(i), n.evidence[i].id) && n.evidence[i].content == f.evidence[i].content
                 && n.evidence[i].createdAt == if f.evidence[i].createdAt == 0 then now else f.evidence[i].createdAt
  {
    var n := NormalizeFinding(f, meta, t, now, ids);
    forall i: nat | i < |f.evidence| ensures n.evidence[i] == OwnItem(f.evidence[i], n.id, ids.evidence(i), now) {
    }
  }

  /** Normalising again, whatever new identifiers are on offer then, changes nothing, and every evidence item
      belongs to its finding. */
  lemma NormalizeSettles(f: Finding, meta: Metadata, t: Target, now: int, ids: NewIds, later: NewIds)
    requires now != 0 && ids.finding != "" && forall i: nat :: i < |f.evidence| ==> ids.evidence(i) != ""
    ensures var n := NormalizeFinding(f, meta, t, now, ids);
            NormalizeFinding(n, meta, t, now, later) == n
            && forall e :: e in n.evidence ==> e.findingId == n.id
  {
    var n := NormalizeFinding(f, meta, t, now, ids);
    var again := NormalizeFinding(n, meta, t, now, later);
    assert n.id != "" && again.id == n.id;
    OwnEvidenceSettles(f.evidence, n.id, ids.evidence, later.evidence, now);
  }

  lemma OwnEvidenceSettles(items: seq<Evidence>, id: string, newId: nat -> string, later: nat -> string, now: int)
    requires now != 0 && forall i: nat :: i < |items| ==> newId(i) != ""
    ensures var own := OwnEvidence(items, id, newId, now);
            OwnEvidence(own, id, later, now) == own && forall e :: e in own ==> e.findingId == id
  {
    var own := OwnEvidence(items, id, newId, now);
    var again := OwnEvidence(own, id, later, now);
    forall i: nat | i < |items| ensures again[i] == own[i] && own[i].findingId == id {
      assert own[i] == OwnItem(items[i], id, newId(i), now) && newId(i) != "";
      assert again[i] == OwnItem(own[i], id, later(i), now);
    }
    assert again == own;
  }

  function KeyParts(f: Finding): seq<string> {
    [f.detectorId, f.host, Joining.Itoa(f.port), f.affectedEndpoint, f.httpMethod, f.affectedParameter, f.vulnerabilityType]
  }

  function DedupKey(f: Finding): string {
    Joining.Join(KeyParts(f), Joining.UNIT_SEPARATOR)
  }

  const KeyOf := (f: Finding) => DedupKey(f)

  ghost function Keys(fs: seq<Finding>): set<string> {
    KeySet(fs, KeyOf)
  }

  /** The finding with its i-th and next key part replaced; the port has no neighbour here. */
  function WithPair(f: Finding, i: nat, x: string, y: string): (r: Finding)
    requires i in {0, 3, 4, 5}
    ensures KeyParts(r) == KeyParts(f)[i := x][i + 1 := y]
  {
    match i
    case 0 => f.(detectorId := x, host := y)
    case 3 => f.(affectedEndpoint := x, httpMethod := y)
    case 4 => f.(httpMethod := x, affectedParameter := y)
    case _ => f.(affectedParameter := x, vulnerabilityType := y)
  }

  /** A part holding the separator lets a finding with other parts share the key. */
  lemma SeparatorCollides(f: Finding, i: nat) returns (g: Finding)
    requires i < 7 && !Joining.Free(KeyParts(f)[i], Joining.UNIT_SEPARATOR)
    ensures KeyParts(g) != KeyParts(f) && DedupKey(g) == DedupKey(f)
  {
    var sep := Joining.UNIT_SEPARATOR;
    Joining.ItoaFree(f.port, sep);
    var c := KeyParts(f);
    var a, b := Joining.SplitAtSeparator(c[i], sep);
    if i == 1 || i == 6 {
      var x := c[i - 1] + [sep] + a;
      g := WithPair(f, i - 1, x, b);
      assert |x| > |c[i - 1]|;
      assert KeyParts(g)[i - 1] == x;
      Joining.JoinNeighbours(c, i - 1, x, b, sep);
    } else {
      var y := b + [sep] + c[i + 1];
      g := WithPair(f, i, a, y);
      assert |a| < |c[i]|;
      assert KeyParts(g)[i] == a;
      Joining.JoinNeighbours(c, i, a, y, sep);
    }
  }

  /** The same detector, place, method, parameter and type. */
  ghost predicate SameCase(f: Finding, g: Finding) {
    && f.detectorId == g.detectorId && f.host == g.host && f.port == g.port && f.affectedEndpoint == g.affectedEndpoint
    && f.httpMethod == g.httpMethod && f.affectedParameter == g.affectedParameter
    && f.vulnerabilityType == g.vulnerabilityType
  }

  lemma SameParts(f: Finding, g: Finding)
    ensures KeyParts(f) == KeyParts(g) <==> SameCase(f, g)
  {
    var c, d := KeyParts(f), KeyParts(g);
    if c == d {
      assert c[0] == d[0] && c[1] == d[1] && c[2] == d[2] && c[3] == d[3] && c[4] == d[4] && c[5] == d[5] && c[6] == d[6];
      Joining.ItoaInjective(f.port, g.port);
    }
  }

  /** Findings of the same case share their key, and only those do exactly when no part of the key contains
      the separator. */
  lemma DedupKeyDetermines(f: Finding)
    ensures forall g: Finding :: SameCase(g, f) ==> DedupKey(g) == DedupKey(f)
    ensures (forall g: Finding :: DedupKey(g) == DedupKey(f) ==> SameCase(g, f))
       <==> Joining.AllFree(KeyParts(f), Joining.UNIT_SEPARATOR)
  {
    forall g: Finding ensures KeyParts(g) == KeyParts(f) <==> SameCase(g, f) {
      SameParts(g, f);
    }
    if Joining.AllFree(KeyParts(f), Joining.UNIT_SEPARATOR) {
      forall g: Finding | DedupKey(g) == DedupKey(f) ensures KeyParts(g) == KeyParts(f) {
        Joining.JoinDetermines(KeyParts(f), KeyParts(g), Joining.UNIT_SEPARATOR);
      }
    } else {
      var i :| 0 <= i < 7 && !Joining.Free(KeyParts(f)[i], Joining.UNIT_SEPARATOR);
      var g := SeparatorCollides(f, i);
    }
  }

  /** First occurrence of every key not on record; the rest are counted. */
  method Deduplicate(existing: seq<Finding>, findings: seq<Finding>) returns (kept: seq<Finding>, duplicates: nat)
    ensures kept == Firsts(findings, KeyOf, Keys(existing))
    ensures |kept| + duplicates == |findings|
  {
    var seen: set<string> := {};
    for i := 0 to |existing|
      invariant seen == Keys(existing[..i])
    {
      assert existing[..i + 1] == existing[..i] + [existing[i]];
      KeySetSnoc(existing[..i], existing[i], KeyOf);
      seen := seen + {DedupKey(existing[i])};
    }
    assert existing[..|existing|] == existing;
    kept, duplicates := [], 0;
    for i := 0 to |findings|
      invariant kept == Firsts(findings[..i], KeyOf, Keys(existing)) && seen == Keys(existing) + Keys(kept)
      invariant |kept| + duplicates == i
    {
      assert findings[..i + 1][..i] == findings[..i];
      var key := DedupKey(findings[i]);
      if key in seen {
        duplicates := duplicates + 1;
        continue;
      }
      KeySetSnoc(kept, findings[i], KeyOf);
      seen := seen + {key};
      kept := kept + [findings[i]];
    }
    assert findings[..|findings|] == findings;
  }

  /** What deduplication keeps: exactly the found keys that are not on record, each once. */
  lemma KeptKeys(existing: seq<Finding>, findings: seq<Finding>)
    ensures var kept := Firsts(findings, KeyOf, Keys(existing));
            && Keys(kept) == Keys(findings) - Keys(existing)
            && DistinctKeys(kept, KeyOf) && |kept| == |Keys(kept)|
            && forall f :: f in kept ==> f in findings
  {
    var kept := Firsts(findings, KeyOf, Keys(existing));
    FirstsFacts(findings, KeyOf, Keys(existing));
    DistinctSize(kept);
  }

  lemma {:induction false} DistinctSize(fs: seq<Finding>)
    requires DistinctKeys(fs, KeyOf)
    ensures |fs| == |Keys(fs)|
    decreases |fs|
  {
    if fs != [] {
      var n := |fs| - 1;
      var rest := fs[..n];
      assert fs == rest + [fs[n]];
      DistinctSize(rest);
      KeySetSnoc(rest, fs[n], KeyOf);
      forall f | f in rest ensures KeyOf(f) != KeyOf(fs[n]) {
        var i :| 0 <= i < n && fs[i] == f;
      }
    }
  }

  lemma KeysJoin(fs: seq<Finding>, gs: seq<Finding>)
    ensures Keys(fs + gs) == Keys(fs) + Keys(gs)
  {
    forall k ensures k in Keys(fs + gs) <==> k in Keys(fs) + Keys(gs) {
      if k in Keys(fs) {
        var f :| f in fs && KeyOf(f) == k;
        assert f in fs + gs;
      }
      if k in Keys(gs) {
        var g :| g in gs && KeyOf(g) == k;
        assert g in fs + gs;
      }
    }
  }

  /** A second run that finds no new keys persists nothing. */
  lemma SecondRunPersistsNothing(existing: seq<Finding>, findings: seq<Finding>, again: seq<Finding>)
    requires Keys(again) <= Keys(existing) + Keys(findings)
    ensures Firsts(again, KeyOf, Keys(existing + Firsts(findings, KeyOf, Keys(existing)))) == []
  {
    var kept := Firsts(findings, KeyOf, Keys(existing));
    KeptKeys(existing, findings);
    KeysJoin(existing, kept);
    KeptKeys(existing + kept, again);
    var second := Firsts(again, KeyOf, Keys(existing + kept));
    assert forall f :: f in second ==> KeyOf(f) in Keys(second);
    assert |second| == |Keys(second)| == 0;
  }
}
