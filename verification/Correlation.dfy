/** The correlation engine: one bucket of groups per identity, updated in place. */
module Correlation {
  import opened Basics
  import opened Ordering
  import opened Findings
  import opened GroupStream
  import opened Consolidation
  import opened Canonical
  import opened BucketFold

  class Bucket {
    const identity: Identity
    const digest: Digest
    var groups: Groups
    var rawInputCount: nat
    var firstSeen: int
    var lastSeen: int

    ghost var state: BucketState  // the abstract value of this bucket

    ghost predicate Valid()
      reads this
    {
      && state == BucketState(identity, groups, rawInputCount, firstSeen, lastSeen)
      && Keyed(groups) && |groups| <= MAX_GROUPS
    }

    constructor (identity: Identity, digest: Digest)
      ensures Valid() && state == EmptyBucket(identity) && this.digest == digest
    {
      this.identity, this.digest := identity, digest;
      groups, rawInputCount, firstSeen, lastSeen := map[], 0, 0, 0;
      state := EmptyBucket(identity);
    }

    /** The weakest group, found by visiting the map in an arbitrary order. */
    method FindWeakest() returns (w: Group)
      requires Keyed(groups) && groups != map[]
      ensures w == Weakest(groups)
    {
      StrongerIsOrder();
      var rest := groups.Keys;
      var first :| first in rest;
      w := groups[first];
      rest := rest - {first};
      while rest != {}
        invariant rest <= groups.Keys && w.signature in groups && groups[w.signature] == w
        invariant w.signature !in rest
        invariant forall k :: k in groups && k !in rest && k != w.signature ==> Stronger(groups[k], w)
        decreases |rest|
      {
        var k :| k in rest;
        if Stronger(w, groups[k]) {
          w := groups[k];
        }
        rest := rest - {k};
      }
      WeakestUnique(groups, w, Weakest(groups));
    }

    /** Absorb a repeat, fill a free slot, or displace the weakest group. */
    method Store(g: Group)
      requires Keyed(groups) && |groups| <= MAX_GROUPS
      modifies this`groups
      ensures Keyed(groups) && |groups| <= MAX_GROUPS && groups == Step(old(groups), g, MAX_GROUPS)
    {
      var sig := g.signature;
      StepFacts(groups, g, MAX_GROUPS);
      if sig in groups {
        groups := groups[sig := Absorb(groups[sig], g)];
      } else if |groups| < MAX_GROUPS {
        groups := groups[sig := g];
      } else {
        var weakest := FindWeakest();
        if Stronger(g, weakest) {
          groups := groups - {weakest.signature};
          groups := groups[sig := g];
        }
      }
    }

    /** Widens the sighting interval. */
    method Sight(f: Finding)
      modifies this`firstSeen, this`lastSeen
      ensures firstSeen == NextFirst(old(firstSeen), f) && lastSeen == NextLast(old(lastSeen), f)
    {
      var seen := f.firstSeen;
      if seen == 0 {
        seen := f.lastSeen;
      }
      if seen != 0 && (firstSeen == 0 || seen < firstSeen) {
        firstSeen := seen;
      }
      var last := f.lastSeen;
      if last == 0 {
        last := seen;
      }
      if last > lastSeen {
        lastSeen := last;
      }
    }

    method Ingest(f: Finding)
      requires Valid()
      modifies this
      ensures Valid() && state == Fold(digest, old(state), f)
    {
      var items := BoundEvidence(f.evidence);
      Store(Group(Signature(digest, f.evidence), f.confidence, f.severity, items,
                  f.title, f.description, f.remediation, f.detectorId));
      rawInputCount := rawInputCount + 1;
      Sight(f);
      state := Fold(digest, state, f);
    }

    /** The canonical finding, built by visiting the map in an arbitrary order. */
    method Build(naming: Naming) returns (cf: CanonicalFinding)
      requires Valid()
      ensures Reports(naming, state, cf)
    {
      var severity, confidence := Info, 0.0;
      var winning: Option<Group> := None;
      var union: seq<Evidence> := [];
      var rest := groups.Keys;
      Start(groups);
      while rest != {}
        invariant rest <= groups.Keys && Progress(groups, rest, severity, confidence, winning, union)
        decreases |rest|
      {
        var k :| k in rest;
        var g := groups[k];
        VisitOne(groups, rest, k, severity, confidence, winning, union);
        severity := MaxSeverity(severity, g.severity);
        if g.confidence > confidence {
          confidence := g.confidence;
        }
        if winning == None || Stronger(g, winning.value) {
          winning := Some(g);
        }
        union := union + g.evidence;
        rest := rest - {k};
      }
      var items := RemoveDuplicates(union);
      cf := CanonicalFinding(
        naming(identity), identity,
        if winning.Some? then winning.value.detectorId else "",
        if winning.Some? then winning.value.title else "",
        severity, confidence, if |groups| >= 2 then Confirmed else New,
        BoundForOutput(items), firstSeen, lastSeen, rawInputCount, |groups|);
      Finish(naming, state, severity, confidence, winning, union, cf);
    }
  }

  /** w is the strongest of the groups visited so far. */
  ghost predicate IsWinner(m: Groups, rest: set<string>, w: Group) {
    w.signature in m && m[w.signature] == w && IsStrongest(m - rest, w.signature)
  }

  /** The running maxima, winner and evidence union over the groups outside rest. */
  ghost predicate Progress(m: Groups, rest: set<string>, severity: Severity, confidence: real,
                           winning: Option<Group>, union: seq<Evidence>) {
    && HasSeverity(m - rest, severity) && HasConfidence(m - rest, confidence)
    && (winning == None <==> m.Keys == rest)
    && (winning.Some? ==> IsWinner(m, rest, winning.value))
    && Elements(union) == EvidenceUnion(m - rest)
  }

  lemma Start(m: Groups)
    ensures Progress(m, m.Keys, Info, 0.0, None, [])
  {
    assert (m - m.Keys) == map[];
  }

  function Winner(winning: Option<Group>, g: Group): Option<Group> {
    if winning == None || Stronger(g, winning.value) then Some(g) else winning
  }

  lemma VisitOne(m: Groups, rest: set<string>, k: string, severity: Severity, confidence: real,
                 winning: Option<Group>, union: seq<Evidence>)
    requires Keyed(m) && rest <= m.Keys && k in rest
    requires Progress(m, rest, severity, confidence, winning, union)
    ensures Progress(m, rest - {k}, MaxSeverity(severity, m[k].severity),
                     if m[k].confidence > confidence then m[k].confidence else confidence,
                     Winner(winning, m[k]), union + m[k].evidence)
  {
    var a, b := m - rest, m - (rest - {k});
    assert b.Keys == a.Keys + {k};
    assert forall j :: j in a ==> j in b && b[j] == a[j];
    assert b[k] == m[k];
    WinnerStep(m, rest, k, winning);
    assert Elements(union + m[k].evidence) == Elements(union) + Elements(m[k].evidence);
    assert EvidenceUnion(b) == EvidenceUnion(a) + Elements(m[k].evidence);
  }

  lemma WinnerStep(m: Groups, rest: set<string>, k: string, winning: Option<Group>)
    requires Keyed(m) && rest <= m.Keys && k in rest
    requires winning == None <==> m.Keys == rest
    requires winning.Some? ==> IsWinner(m, rest, winning.value)
    ensures IsWinner(m, rest - {k}, Winner(winning, m[k]).value)
  {
    StrongerIsOrder();
    var a, b := m - rest, m - (rest - {k});
    assert b.Keys == a.Keys + {k};
    assert forall j :: j in a ==> j in b && b[j] == a[j];
  }

  lemma Finish(naming: Naming, b: BucketState, severity: Severity, confidence: real,
               winning: Option<Group>, union: seq<Evidence>, cf: CanonicalFinding)
    requires Progress(b.groups, {}, severity, confidence, winning, union)
    requires cf == CanonicalFinding(
        naming(b.identity), b.identity,
        if winning.Some? then winning.value.detectorId else "",
        if winning.Some? then winning.value.title else "",
        severity, confidence, if |b.groups| >= 2 then Confirmed else New,
        BoundForOutput(Dedupe(union)), b.firstSeen, b.lastSeen, b.rawInputCount, |b.groups|)
    ensures Reports(naming, b, cf)
  {
    assert b.groups - {} == b.groups;
    EvidenceDone(b.groups, union);
    WinnerDone(b.groups, winning);
  }

  lemma EvidenceDone(m: Groups, union: seq<Evidence>)
    requires Elements(union) == EvidenceUnion(m)
    ensures IsSelection(BoundForOutput(Dedupe(union)), EvidenceUnion(m))
  {
    DedupeFacts(union);
    BoundForOutputSelects(Dedupe(union));
  }

  lemma WinnerDone(m: Groups, winning: Option<Group>)
    requires winning == None <==> m.Keys == {}
    requires winning.Some? ==> IsWinner(m, {}, winning.value)
    ensures m == map[] <==> winning == None
    ensures winning.Some? ==> IsStrongest(m, winning.value.signature) && m[winning.value.signature] == winning.value
  {
    assert m - {} == m;
    assert m == map[] <==> m.Keys == {};
  }
}
