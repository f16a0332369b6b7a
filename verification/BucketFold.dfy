/** A bucket's whole state as a fold over the findings it ingests, and how little of it depends on
    the order they arrive in. */
module BucketFold {
  import opened Ordering
  import opened Findings
  import opened GroupStream
  import opened GroupContents
  import opened Consolidation
  import opened Canonical

  // ----- first and last sightings -----

  function Seen(f: Finding): int {
    if f.firstSeen == 0 then f.lastSeen else f.firstSeen
  }

  function LastOf(f: Finding): int {
    if f.lastSeen == 0 then Seen(f) else f.lastSeen
  }

  function NextFirst(current: int, f: Finding): int {
    if Seen(f) != 0 && (current == 0 || Seen(f) < current) then Seen(f) else current
  }

  function NextLast(current: int, f: Finding): int {
    if LastOf(f) > current then LastOf(f) else current
  }

  // ----- the fold -----

  ghost function Fold(digest: Digest, b: BucketState, f: Finding): BucketState {
    BucketState(b.identity, Step(b.groups, ToGroup(digest, f), MAX_GROUPS), b.rawInputCount + 1,
                NextFirst(b.firstSeen, f), NextLast(b.lastSeen, f))
  }

  function EmptyBucket(id: Identity): BucketState {
    BucketState(id, map[], 0, 0, 0)
  }

  ghost function FoldAll(digest: Digest, id: Identity, fs: seq<Finding>): BucketState
    decreases |fs|
  {
    if fs == [] then EmptyBucket(id)
    else Fold(digest, FoldAll(digest, id, fs[..|fs| - 1]), fs[|fs| - 1])
  }

  function Claims(digest: Digest, fs: seq<Finding>): seq<Group> {
    seq(|fs|, i requires 0 <= i < |fs| => ToGroup(digest, fs[i]))
  }

  lemma {:induction false} FoldGroups(digest: Digest, id: Identity, fs: seq<Finding>)
    ensures FoldAll(digest, id, fs).groups == Run(Claims(digest, fs), MAX_GROUPS)
    ensures FoldAll(digest, id, fs).rawInputCount == |fs|
    ensures FoldAll(digest, id, fs).identity == id
    decreases |fs|
  {
    if fs != [] {
      var n := |fs| - 1;
      FoldGroups(digest, id, fs[..n]);
      var c := Claims(digest, fs);
      assert c[..n] == Claims(digest, fs[..n]);
      assert c[n] == ToGroup(digest, fs[n]);
    } else {
      assert Claims(digest, fs) == [];
    }
  }

  /** t is the least first sighting of all findings, where one without a first sighting was first seen when
      it was last seen; 0 if no finding has any. */
  ghost predicate IsFirstSeen(t: int, fs: set<Finding>) {
    && (forall f :: f in fs && f.firstSeen != 0 ==> t != 0 && t <= f.firstSeen)
    && (forall f :: f in fs && f.firstSeen == 0 && f.lastSeen != 0 ==> t != 0 && t <= f.lastSeen)
    && (t != 0 ==> exists f :: f in fs && (f.firstSeen == t || (f.firstSeen == 0 && f.lastSeen == t)))
  }

  /** t is the greatest last sighting of all findings, where one without a last sighting was last seen when
      it was first seen; 0 if none is later than the zero time. */
  ghost predicate IsLastSeen(t: int, fs: set<Finding>) {
    && t >= 0 && (forall f :: f in fs ==> f.lastSeen <= t)
    && (forall f :: f in fs && f.lastSeen == 0 ==> f.firstSeen <= t)
    && (t != 0 ==> exists f :: f in fs && (f.lastSeen == t || (f.lastSeen == 0 && f.firstSeen == t)))
  }

  lemma TimesStep(first: int, last: int, fs: set<Finding>, f: Finding)
    requires IsFirstSeen(first, fs) && IsLastSeen(last, fs)
    ensures IsFirstSeen(NextFirst(first, f), fs + {f}) && IsLastSeen(NextLast(last, f), fs + {f})
  {
    var all := fs + {f};
    assert f in all;
    assert forall g :: g in fs ==> g in all;
  }

  lemma {:induction false} FoldTimes(digest: Digest, id: Identity, fs: seq<Finding>)
    ensures IsFirstSeen(FoldAll(digest, id, fs).firstSeen, Elements(fs))
    ensures IsLastSeen(FoldAll(digest, id, fs).lastSeen, Elements(fs))
    decreases |fs|
  {
    if fs != [] {
      var n := |fs| - 1;
      var pre, f := fs[..n], fs[n];
      assert fs == pre + [f];
      assert Elements(fs) == Elements(pre) + {f};
      FoldTimes(digest, id, pre);
      var b := FoldAll(digest, id, pre);
      TimesStep(b.firstSeen, b.lastSeen, Elements(pre), f);
    }
  }

  // ----- order independence within the bound -----

  /** Equal signatures stand for equal evidence. */
  ghost predicate Faithful(digest: Digest, fs: seq<Finding>) {
    forall f, g :: f in fs && g in fs && Signature(digest, f.evidence) == Signature(digest, g.evidence) ==>
      BoundedItems(f.evidence) == BoundedItems(g.evidence)
  }

  /** Findings with the same evidence signature and the same title name the same detector. */
  ghost predicate DetectorsAgree(digest: Digest, fs: seq<Finding>) {
    forall f, g :: f in fs && g in fs && f.title == g.title
                   && Signature(digest, f.evidence) == Signature(digest, g.evidence) ==>
      f.detectorId == g.detectorId
  }

  /** The consolidated group keeps the evidence of one of its claims ... */
  lemma {:induction false} EvidenceSource(stream: seq<Group>, s: string) returns (i: nat)
    requires s in Sigs(stream)
    ensures i < |stream| && stream[i].signature == s && stream[i].evidence == Merged(stream, s).evidence
    decreases |stream|
  {
    var n := |stream| - 1;
    var pre, g := stream[..n], stream[n];
    assert stream == pre + [g];
    if s in Sigs(pre) {
      i := EvidenceSource(pre, s);
    } else {
      i := n;
    }
  }

  /** ... and names the detector of one of those with its title. */
  lemma {:induction false} DetectorSource(stream: seq<Group>, s: string) returns (i: nat)
    requires s in Sigs(stream)
    ensures i < |stream| && stream[i].signature == s && stream[i].title == Merged(stream, s).title
    ensures stream[i].detectorId == Merged(stream, s).detectorId
    decreases |stream|
  {
    var n := |stream| - 1;
    var pre, g := stream[..n], stream[n];
    assert stream == pre + [g];
    if s in Sigs(pre) {
      i := DetectorSource(pre, s);
      if g.signature == s && LexLess(g.title, Merged(pre, s).title) {
        i := n;
      }
    } else {
      i := n;
    }
  }

  lemma ClaimsPermute(digest: Digest, fs: seq<Finding>, gs: seq<Finding>)
    requires multiset(fs) == multiset(gs)
    ensures multiset(Claims(digest, fs)) == multiset(Claims(digest, gs))
  {
    var f := (x: Finding) => ToGroup(digest, x);
    assert Claims(digest, fs) == Map(fs, f) && Claims(digest, gs) == Map(gs, f);
    MapPermutes(fs, gs, f);
  }

  lemma MergedAlike(digest: Digest, fs: seq<Finding>, gs: seq<Finding>, s: string)
    requires multiset(fs) == multiset(gs) && s in Sigs(Claims(digest, fs)) && Faithful(digest, fs)
    ensures s in Sigs(Claims(digest, gs))
    ensures SameClaim(Merged(Claims(digest, fs), s), Merged(Claims(digest, gs), s))
    ensures Merged(Claims(digest, fs), s).evidence == Merged(Claims(digest, gs), s).evidence
  {
    var p, q := Claims(digest, fs), Claims(digest, gs);
    ClaimsPermute(digest, fs, gs);
    SameMultisetSameElements(p, q);
    SameMultisetSameElements(fs, gs);
    MergedOfPermutation(p, q, s);
    var i := EvidenceSource(p, s);
    var j := EvidenceSource(q, s);
    assert fs[i] in fs && gs[j] in fs;
  }

  lemma MergedSameDetector(digest: Digest, fs: seq<Finding>, gs: seq<Finding>, s: string)
    requires multiset(fs) == multiset(gs) && s in Sigs(Claims(digest, fs)) && DetectorsAgree(digest, fs)
    ensures s in Sigs(Claims(digest, gs))
    ensures Merged(Claims(digest, fs), s).detectorId == Merged(Claims(digest, gs), s).detectorId
  {
    var p, q := Claims(digest, fs), Claims(digest, gs);
    ClaimsPermute(digest, fs, gs);
    SameMultisetSameElements(p, q);
    SameMultisetSameElements(fs, gs);
    MergedOfPermutation(p, q, s);
    var i := DetectorSource(p, s);
    var j := DetectorSource(q, s);
    assert fs[i] in fs && gs[j] in fs;
  }

  /** Up to MAX_GROUPS distinct signatures, a bucket's contents are the batch consolidation of its
      findings and do not depend on their order. */
  lemma BucketOrderIrrelevant(digest: Digest, id: Identity, fs: seq<Finding>, gs: seq<Finding>)
    requires multiset(fs) == multiset(gs) && Faithful(digest, fs)
    requires |Sigs(Claims(digest, fs))| <= MAX_GROUPS
    ensures FoldAll(digest, id, fs).groups == Consolidated(Claims(digest, fs))
    ensures var a, b := FoldAll(digest, id, fs), FoldAll(digest, id, gs);
            && SameContents(a.groups, b.groups) && a.rawInputCount == b.rawInputCount
            && a.firstSeen == b.firstSeen && a.lastSeen == b.lastSeen
            && (DetectorsAgree(digest, fs) ==>
                  forall k :: k in a.groups && k in b.groups ==> a.groups[k].detectorId == b.groups[k].detectorId)
  {
    var p, q := Claims(digest, fs), Claims(digest, gs);
    ClaimsPermute(digest, fs, gs);
    SameMultisetSameElements(p, q);
    SameMultisetSameElements(fs, gs);
    SigsOfPermutation(p, q);
    FoldGroups(digest, id, fs);
    FoldGroups(digest, id, gs);
    SmallStreamConsolidates(p, MAX_GROUPS);
    SmallStreamConsolidates(q, MAX_GROUPS);
    FoldTimes(digest, id, fs);
    FoldTimes(digest, id, gs);
    forall s | s in Sigs(p)
      ensures SameClaim(Merged(p, s), Merged(q, s)) && Merged(p, s).evidence == Merged(q, s).evidence
      ensures DetectorsAgree(digest, fs) ==> Merged(p, s).detectorId == Merged(q, s).detectorId
    {
      MergedAlike(digest, fs, gs, s);
      if DetectorsAgree(digest, fs) {
        MergedSameDetector(digest, fs, gs, s);
      }
    }
  }

  /** A group kept in both orders carries the same evidence, and the same detector where the
      findings of equal title agree on it. */
  lemma SourcesAgree(digest: Digest, fs: seq<Finding>, g: Group, h: Group, u: string)
    requires Faithful(digest, fs) && SameClaim(g, h)
    requires EntryFrom(g, Elements(Claims(digest, fs)), u) && EntryFrom(h, Elements(Claims(digest, fs)), u)
    ensures g.evidence == h.evidence
    ensures DetectorsAgree(digest, fs) ==> g.detectorId == h.detectorId
  {
    var c := Claims(digest, fs);
    var e :| e in Elements(c) && e.signature == u && e.evidence == g.evidence;
    var e' :| e' in Elements(c) && e'.signature == u && e'.evidence == h.evidence;
    var i := ClaimOf(digest, fs, e);
    var i' := ClaimOf(digest, fs, e');
    assert fs[i] in fs && fs[i'] in fs;
    var t :| t in Elements(c) && t.signature == u && FromSame(t, g);
    var t' :| t' in Elements(c) && t'.signature == u && FromSame(t', h);
    var j := ClaimOf(digest, fs, t);
    var j' := ClaimOf(digest, fs, t');
    assert fs[j] in fs && fs[j'] in fs;
  }

  lemma ClaimOf(digest: Digest, fs: seq<Finding>, g: Group) returns (i: nat)
    requires g in Elements(Claims(digest, fs))
    ensures i < |fs| && g == ToGroup(digest, fs[i])
  {
    var c := Claims(digest, fs);
    i :| 0 <= i < |c| && c[i] == g;
  }

  /** A bucket whose findings are steady: what it retains is the same in every order. */
  ghost predicate SteadyBucket(digest: Digest, fs: seq<Finding>) {
    Steady(Claims(digest, fs), Top(Claims(digest, fs), MAX_GROUPS))
  }

  /** Up to MAX_GROUPS distinct signatures every bucket is. */
  lemma SmallBucketIsSteady(digest: Digest, fs: seq<Finding>)
    requires |Sigs(Claims(digest, fs))| <= MAX_GROUPS
    ensures SteadyBucket(digest, fs)
  {
    SmallIsSteady(Claims(digest, fs), MAX_GROUPS);
  }

  lemma SteadyBucketOfPermutation(digest: Digest, fs: seq<Finding>, gs: seq<Finding>)
    requires multiset(fs) == multiset(gs) && SteadyBucket(digest, fs)
    ensures SteadyBucket(digest, gs)
  {
    ClaimsPermute(digest, fs, gs);
    SteadyTopOfPermutation(Claims(digest, fs), Claims(digest, gs), MAX_GROUPS);
  }

  /** Past MAX_GROUPS signatures too, a steady bucket's contents do not depend on the order. */
  lemma SteadyOrderIrrelevant(digest: Digest, id: Identity, fs: seq<Finding>, gs: seq<Finding>)
    requires multiset(fs) == multiset(gs) && Faithful(digest, fs) && SteadyBucket(digest, fs)
    ensures FoldAll(digest, id, fs).groups.Keys == Top(Claims(digest, fs), MAX_GROUPS)
    ensures var a, b := FoldAll(digest, id, fs), FoldAll(digest, id, gs);
            && SameContents(a.groups, b.groups) && a.rawInputCount == b.rawInputCount
            && a.firstSeen == b.firstSeen && a.lastSeen == b.lastSeen
            && (DetectorsAgree(digest, fs) ==>
                  forall k :: k in a.groups && k in b.groups ==> a.groups[k].detectorId == b.groups[k].detectorId)
  {
    var p, q := Claims(digest, fs), Claims(digest, gs);
    ClaimsPermute(digest, fs, gs);
    SameMultisetSameElements(p, q);
    SameMultisetSameElements(fs, gs);
    FoldGroups(digest, id, fs);
    FoldGroups(digest, id, gs);
    FoldTimes(digest, id, fs);
    FoldTimes(digest, id, gs);
    ContentsAreOrderIndependentIff(p, Top(p, MAX_GROUPS), MAX_GROUPS);
    var m, n := Run(p, MAX_GROUPS), Run(q, MAX_GROUPS);
    assert SameGroups(m, n);
    forall u | u in m
      ensures m[u].evidence == n[u].evidence
      ensures DetectorsAgree(digest, fs) ==> m[u].detectorId == n[u].detectorId
    {
      Sourced(map[], p, MAX_GROUPS, u);
      Sourced(map[], q, MAX_GROUPS, u);
      SourcesAgree(digest, fs, m[u], n[u], u);
    }
  }

  // ----- the one field order can reach: which detector is named -----

  lemma {:induction false} FirstLeastTitleNames(stream: seq<Group>, s: string)
    requires stream != [] && stream[0].signature == s
    requires forall f :: f in stream && f.signature == s ==> !LexLess(f.title, stream[0].title)
    ensures s in Sigs(stream) && Merged(stream, s).title == stream[0].title
    ensures Merged(stream, s).detectorId == stream[0].detectorId
    decreases |stream|
  {
    var n := |stream| - 1;
    var pre, g := stream[..n], stream[n];
    assert stream == pre + [g];
    assert stream[0] in stream;
    assert g in stream;
    if n == 0 {
      assert Sigs(pre) == {};
    } else {
      FirstLeastTitleNames(pre, s);
    }
  }

  lemma ToFront(stream: seq<Group>, f: Group) returns (p: seq<Group>)
    requires f in stream
    ensures multiset(p) == multiset(stream) && p != [] && p[0] == f
  {
    var i :| 0 <= i < |stream| && stream[i] == f;
    RemoveAt(stream, i);
    var c := stream[..i] + stream[i+1..];
    p := [f] + c;
    assert multiset(p) == multiset{f} + multiset(c);
  }

  /** f claims s under the title its consolidation carries. */
  ghost predicate LeastTitled(stream: seq<Group>, s: string, f: Group)
    requires s in Sigs(stream)
  {
    f in stream && f.signature == s && f.title == Merged(stream, s).title
  }

  /** For a signature nothing ever evicts, the detector it names is the same in every order exactly
      when all its claims with the least title name the same one. */
  lemma DetectorOrderIndependentIff(stream: seq<Group>, s: string)
    requires s in Sigs(stream)
    ensures (forall p: seq<Group> :: multiset(p) == multiset(stream) ==>
               s in Sigs(p) && Merged(p, s).detectorId == Merged(stream, s).detectorId)
       <==> (forall f, g :: LeastTitled(stream, s, f) && LeastTitled(stream, s, g) ==> f.detectorId == g.detectorId)
  {
    if forall f, g :: LeastTitled(stream, s, f) && LeastTitled(stream, s, g) ==> f.detectorId == g.detectorId {
      forall p: seq<Group> | multiset(p) == multiset(stream)
        ensures s in Sigs(p) && Merged(p, s).detectorId == Merged(stream, s).detectorId
      {
        var f := NamedInPermutation(stream, p, s);
        var g := NamedInPermutation(stream, stream, s);
      }
    } else {
      var f, g :| LeastTitled(stream, s, f) && LeastTitled(stream, s, g) && f.detectorId != g.detectorId;
      var p := NameableFirst(stream, s, f);
      var q := NameableFirst(stream, s, g);
    }
  }

  lemma NamedInPermutation(stream: seq<Group>, p: seq<Group>, s: string) returns (f: Group)
    requires s in Sigs(stream) && multiset(p) == multiset(stream)
    ensures s in Sigs(p) && LeastTitled(stream, s, f) && f.detectorId == Merged(p, s).detectorId
  {
    SameMultisetSameElements(p, stream);
    MergedOfPermutation(stream, p, s);
    var j := DetectorSource(p, s);
    f := p[j];
  }

  lemma NameableFirst(stream: seq<Group>, s: string, f: Group) returns (p: seq<Group>)
    requires s in Sigs(stream) && LeastTitled(stream, s, f)
    ensures multiset(p) == multiset(stream) && s in Sigs(p) && Merged(p, s).detectorId == f.detectorId
  {
    MergedSummarises(stream, s);
    p := ToFront(stream, f);
    SameMultisetSameElements(p, stream);
    forall x | x in p && x.signature == s ensures !LexLess(x.title, p[0].title) {
      assert x in Elements(stream);
    }
    FirstLeastTitleNames(p, s);
  }
}
