/** Exactly when not only the signatures a bucket retains but everything its groups claim is
    independent of arrival order. The gap condition decides the signatures; severity text the
    program does not recognise is what can still make the contents differ. */
module GroupContents {
  import opened Basics
  import opened Ordering
  import opened Findings
  import opened GroupStream
  import opened GroupOrder
  import opened GroupOrderExact

  /** A claim whose severity text is not recognised. */
  predicate Vague(f: Group) {
    Rank(f.severity) < 0
  }

  /** The same signatures, and the same claim under each. */
  ghost predicate SameGroups(m: Groups, n: Groups) {
    m.Keys == n.Keys && forall k :: k in m ==> SameClaim(m[k], n[k])
  }

  /** Whatever the order of arrival, the same groups with the same claims end up retained. */
  ghost predicate ContentsIndependent(stream: seq<Group>, cap: nat)
    requires cap >= 1
  {
    forall p, q :: multiset(p) == multiset(stream) && multiset(q) == multiset(stream) ==>
      SameGroups(Run(p, cap), Run(q, cap))
  }

  /** Every unrecognised claim about u is by itself stronger than all claims outside K. */
  ghost predicate Firm(stream: seq<Group>, K: set<string>, u: string) {
    forall f, g :: f in stream && f.signature == u && Vague(f) && g in stream && g.signature !in K ==> Stronger(f, g)
  }

  /** Claims with a known severity say all that f says. */
  ghost predicate Covered(stream: seq<Group>, u: string, f: Group) {
    && (exists k :: k in stream && k.signature == u && !Vague(k) && k.confidence <= f.confidence)
    && (exists k :: k in stream && k.signature == u && !Vague(k) && !LexLess(f.title, k.title))
  }

  /** Unrecognised claims about u add nothing to the known ones. */
  ghost predicate Redundant(stream: seq<Group>, u: string) {
    forall f :: f in stream && f.signature == u && Vague(f) ==> Covered(stream, u, f)
  }

  /** The gap, and no unrecognised claim that can both get lost and be missed. */
  ghost predicate Steady(stream: seq<Group>, K: set<string>)
    requires K <= Sigs(stream)
  {
    Gap(stream, K) && forall u :: u in K ==> Firm(stream, K, u) || Redundant(stream, u)
  }

  // ----- where a retained group's claim comes from -----

  /** The texts and the detector of a claim go together. */
  predicate FromSame(f: Group, h: Group) {
    f.title == h.title && f.description == h.description && f.remediation == h.remediation && f.detectorId == h.detectorId
  }

  /** Every field of h is that of some claim about u. */
  ghost predicate EntryFrom(h: Group, claims: set<Group>, u: string) {
    && h.signature == u
    && (exists f :: f in claims && f.signature == u && f.confidence == h.confidence)
    && (exists f :: f in claims && f.signature == u && Rank(f.severity) == Rank(h.severity))
    && (exists f :: f in claims && f.signature == u && FromSame(f, h))
    && (exists f :: f in claims && f.signature == u && f.evidence == h.evidence)
  }

  lemma EntryGrows(h: Group, claims: set<Group>, more: set<Group>, u: string)
    requires EntryFrom(h, claims, u) && claims <= more
    ensures EntryFrom(h, more, u)
  {
    var f :| f in claims && f.signature == u && f.confidence == h.confidence;
    assert f in more;
    f :| f in claims && f.signature == u && Rank(f.severity) == Rank(h.severity);
    assert f in more;
    f :| f in claims && f.signature == u && FromSame(f, h);
    assert f in more;
    f :| f in claims && f.signature == u && f.evidence == h.evidence;
    assert f in more;
  }

  lemma EntryAbsorbs(h: Group, claims: set<Group>, g: Group, u: string)
    requires EntryFrom(h, claims, u) && g.signature == u && g in claims
    ensures EntryFrom(Absorb(h, g), claims, u)
  {
  }

  /** A group not there before is made of the claims that arrived since. */
  lemma {:induction false} Sourced(m: Groups, t: seq<Group>, cap: nat, u: string)
    requires Keyed(m) && cap >= 1 && u !in m && u in RunFrom(m, t, cap)
    ensures EntryFrom(RunFrom(m, t, cap)[u], Elements(t), u)
    decreases |t|
  {
    var n := |t| - 1;
    var pre, g := t[..n], t[n];
    assert t == pre + [g];
    assert Elements(t) == Elements(pre) + {g};
    var before := RunFrom(m, pre, cap);
    StepAt(before, g, cap, u);
    if u in before {
      Sourced(m, pre, cap, u);
      EntryGrows(before[u], Elements(pre), Elements(t), u);
      if g.signature == u {
        EntryAbsorbs(before[u], Elements(t), g, u);
      }
    } else {
      assert g in Elements(t);
    }
  }

  // ----- a firm signature is never displaced -----

  lemma PrefixElements(p: seq<Group>, n: nat)
    requires n <= |p|
    ensures Elements(p[..n]) <= Elements(p) && Sigs(p[..n]) <= Sigs(p)
  {
  }

  /** What has arrived so far about a firm signature beats everything outside K. */
  /** An unrecognised consolidation comes from unrecognised claims only, one of them as confident. */
  lemma VaguePart(part: Group, p: seq<Group>, n: nat, u: string) returns (f: Group)
    requires n <= |p| && u in Sigs(p[..n]) && part == Merged(p[..n], u) && Vague(part)
    ensures f in p && f.signature == u && Vague(f) && AtLeast(part, f)
  {
    PrefixElements(p, n);
    MergedSummarises(p[..n], u);
    f :| f in Elements(p[..n]) && f.signature == u && f.confidence == part.confidence;
    assert f in Elements(p);
  }

  lemma PartialBeats(p: seq<Group>, n: nat, K: set<string>, u: string, g: Group)
    requires K <= Sigs(p) && Gap(p, K) && Firm(p, K, u) && u in K
    requires n <= |p| && u in Sigs(p[..n]) && g in p && g.signature !in K
    ensures Stronger(Merged(p[..n], u), g)
  {
    var part, whole := Merged(p[..n], u), Merged(p, u);
    if Vague(part) {
      var f := VaguePart(part, p, n, u);
      StrongerMono(f, g, part, g);
    } else {
      PartAtLeast(part, whole, p, n, u);
      StrongerMono(whole, g, part, g);
    }
  }

  lemma PartAtLeast(part: Group, whole: Group, p: seq<Group>, n: nat, u: string)
    requires n <= |p| && u in Sigs(p[..n]) && u in Sigs(p) && part == Merged(p[..n], u) && whole == Merged(p, u)
    requires !Vague(part)
    ensures AtLeast(part, whole)
  {
    PrefixElements(p, n);
    MergedSummarises(p[..n], u);
    MergedSummarises(p, u);
    var f :| f in Elements(p[..n]) && f.signature == u && f.confidence == part.confidence;
    assert f in Elements(p);
    var h :| h in Elements(p[..n]) && h.signature == u && Rank(h.severity) == Rank(part.severity);
    assert h in Elements(p);
  }

  lemma Beats(h: Group, claims: set<Group>, K: set<string>, w: Groups, e: Group)
    requires w.Keys == K && e.signature !in K && EntryOk(e, claims, w)
    requires forall f :: f in claims && f.signature !in K ==> Stronger(h, f)
    ensures Stronger(h, e)
  {
    var f :| f in claims && AtLeast(f, e);
    StrongerMono(h, f, h, e);
  }

  /** A group stronger than every claim outside K is not displaced ... */
  lemma StaysPut(m: Groups, claims: set<Group>, K: set<string>, w: Groups, g: Group, cap: nat, u: string)
    requires Keyed(m) && cap >= 1 && |K| <= cap && w.Keys == K && u in m && u in K && g.signature != u
    requires forall k :: k in m ==> EntryOk(m[k], claims, w)
    requires forall f :: f in claims && f.signature !in K ==> Stronger(m[u], f)
    requires g in claims
    ensures u in Step(m, g, cap)
  {
    StrongerIsOrder();
    if g.signature !in m && |m| >= cap && Weakest(m).signature == u {
      if g.signature in K {
        SomeOutside(m, K, g.signature);
        var k :| k in m && k !in K;
        Beats(m[u], claims, K, w, m[k]);
      }
    }
  }

  /** ... and such a claim is never rejected. */
  lemma GetsIn(m: Groups, claims: set<Group>, K: set<string>, w: Groups, g: Group, cap: nat)
    requires Keyed(m) && cap >= 1 && |K| <= cap && w.Keys == K && g.signature !in m && g.signature in K
    requires forall k :: k in m ==> EntryOk(m[k], claims, w)
    requires forall f :: f in claims && f.signature !in K ==> Stronger(g, f)
    ensures g.signature in Step(m, g, cap)
  {
    StrongerIsOrder();
    if |m| >= cap {
      SomeOutside(m, K, g.signature);
      var k :| k in m && k !in K;
      Beats(g, claims, K, w, m[k]);
    }
  }

  lemma EntriesOk(p: seq<Group>, n: nat, K: set<string>, cap: nat)
    requires cap >= 1 && K <= Sigs(p) && Gap(p, K) && |K| <= cap && n <= |p|
    ensures forall k :: k in Run(p[..n], cap) ==> EntryOk(Run(p[..n], cap)[k], Elements(p), Finals(p, K))
  {
    PrefixElements(p, n);
    GapSeparates(p, K);
    RunTracks(p[..n], Elements(p), K, Finals(p, K), cap);
  }

  /** A firm signature holds, at every moment, the consolidation of all that has arrived about it. */
  lemma {:induction false} FirmIsCurrent(p: seq<Group>, n: nat, K: set<string>, cap: nat, u: string)
    requires cap >= 1 && K <= Sigs(p) && Gap(p, K) && |K| <= cap && n <= |p|
    requires u in K && Firm(p, K, u)
    ensures Current(Run(p[..n], cap), p[..n], u)
  {
    if n > 0 {
      var q, g := p[..n - 1], p[n - 1];
      assert p[..n] == q + [g];
      assert (q + [g])[..|q|] == q;
      FirmIsCurrent(p, n - 1, K, cap, u);
      if u in Sigs(p[..n]) {
        FirmSurvives(p, n, K, cap, u);
        CurrentStep(Run(q, cap), q, g, cap, u);
      } else {
        RunBounded(map[], p[..n], cap);
      }
    }
  }

  lemma FirmSurvives(p: seq<Group>, n: nat, K: set<string>, cap: nat, u: string)
    requires cap >= 1 && K <= Sigs(p) && Gap(p, K) && |K| <= cap && 0 < n <= |p|
    requires u in K && Firm(p, K, u) && u in Sigs(p[..n]) && Current(Run(p[..n - 1], cap), p[..n - 1], u)
    ensures u in Step(Run(p[..n - 1], cap), p[n - 1], cap)
  {
    var q, g := p[..n - 1], p[n - 1];
    var m := Run(q, cap);
    assert p[..n] == q + [g];
    EntriesOk(p, n - 1, K, cap);
    MergedSnoc(q, g, u);
    if g.signature != u {
      forall f | f in Elements(p) && f.signature !in K ensures Stronger(m[u], f) {
        PartialBeats(p, n - 1, K, u, f);
      }
      StaysPut(m, Elements(p), K, Finals(p, K), g, cap, u);
    } else if u !in m {
      forall f | f in Elements(p) && f.signature !in K ensures Stronger(g, f) {
        PartialBeats(p, n, K, u, f);
      }
      GetsIn(m, Elements(p), K, Finals(p, K), g, cap);
    }
  }

  // ----- a redundant signature may come and go, but ends up with everything -----

  /** h claims no more than any known claim about u. */
  ghost predicate Covers(h: Group, claims: set<Group>, u: string) {
    forall f :: f in claims && f.signature == u && !Vague(f) ==>
      && h.confidence <= f.confidence && 0 <= Rank(h.severity) <= Rank(f.severity) && !LexLess(f.title, h.title)
  }

  lemma CoversAbsorb(h: Group, claims: set<Group>, g: Group)
    requires Covers(h, claims, g.signature)
    ensures Covers(Absorb(h, g), claims + {g}, g.signature)
  {
    LexIsOrder();
  }

  lemma KnownIsRetained(p: seq<Group>, n: nat, K: set<string>, cap: nat, f: Group)
    requires cap >= 1 && K <= Sigs(p) && Gap(p, K) && |K| <= cap && n <= |p|
    requires f in p[..n] && f.signature in K && !Vague(f)
    ensures f.signature in Run(p[..n], cap)
  {
    var q, w := p[..n], Finals(p, K);
    PrefixElements(p, n);
    var i :| 0 <= i < |q| && q[i] == f;
    SettledByEach(q, w, i);
    GapSeparates(p, K);
    RunTracks(q, Elements(p), K, w, cap);
  }

  lemma {:induction false} KnownCovered(p: seq<Group>, n: nat, K: set<string>, cap: nat, u: string)
    requires cap >= 1 && K <= Sigs(p) && Gap(p, K) && |K| <= cap && n <= |p|
    requires u in K && u in Run(p[..n], cap)
    ensures Covers(Run(p[..n], cap)[u], Elements(p[..n]), u)
  {
    if n > 0 {
      var q, g := p[..n - 1], p[n - 1];
      var m := Run(q, cap);
      assert p[..n] == q + [g];
      assert (q + [g])[..|q|] == q;
      assert Elements(p[..n]) == Elements(q) + {g};
      StepAt(m, g, cap, u);
      if u in m {
        KnownCovered(p, n - 1, K, cap, u);
        if g.signature == u {
          CoversAbsorb(m[u], Elements(q), g);
        }
      } else {
        forall f | f in Elements(q) && f.signature == u ensures Vague(f) {
          if !Vague(f) {
            KnownIsRetained(p, n - 1, K, cap, f);
          }
        }
        LexIsOrder();
      }
    }
  }

  lemma RedundantSummary(h: Group, p: seq<Group>, u: string)
    requires EntryFrom(h, Elements(p), u) && Covers(h, Elements(p), u) && Redundant(p, u)
    ensures Summarises(h, Elements(p), u)
  {
    LexIsOrder();
    forall f | f in Elements(p) && f.signature == u
      ensures h.confidence <= f.confidence && !LexLess(f.title, h.title)
    {
      if Vague(f) {
        assert Covered(p, u, f);
        var k :| k in p && k.signature == u && !Vague(k) && k.confidence <= f.confidence;
        assert k in Elements(p);
        var t :| t in p && t.signature == u && !Vague(t) && !LexLess(f.title, t.title);
        assert t in Elements(p);
      }
    }
  }

  lemma SteadyHolds(p: seq<Group>, K: set<string>, cap: nat, u: string)
    requires cap >= 1 && K <= Sigs(p) && Steady(p, K) && |K| <= cap && u in K && u in Run(p, cap)
    ensures SameClaim(Run(p, cap)[u], Merged(p, u))
  {
    assert p[..|p|] == p;
    if Firm(p, K, u) {
      FirmIsCurrent(p, |p|, K, cap, u);
    } else {
      KnownCovered(p, |p|, K, cap, u);
      Sourced(map[], p, cap, u);
      RedundantSummary(Run(p, cap)[u], p, u);
      MergedSummarises(p, u);
      SummaryUnique(Run(p, cap)[u], Merged(p, u), Elements(p), u);
    }
  }

  lemma SteadyOfPermutation(p: seq<Group>, q: seq<Group>, K: set<string>)
    requires Elements(p) == Elements(q) && K <= Sigs(p) && Steady(p, K)
    ensures K <= Sigs(q) && Steady(q, K)
  {
    GapOfPermutation(p, q, K);
    assert forall f :: f in p <==> f in Elements(p);
    assert forall f :: f in q <==> f in Elements(q);
    forall u | u in K ensures Firm(q, K, u) || Redundant(q, u) {
      if !Firm(p, K, u) {
        forall f | f in q && f.signature == u && Vague(f) ensures Covered(q, u, f) {
          assert Covered(p, u, f);
        }
      }
    }
  }

  /** In every order a steady bucket ends up with K, each group saying what its full consolidation says. */
  lemma SteadyConsolidates(stream: seq<Group>, K: set<string>, cap: nat, p: seq<Group>)
    requires cap >= 1 && IsTop(stream, K, cap) && Steady(stream, K) && multiset(p) == multiset(stream)
    ensures Run(p, cap).Keys == K
    ensures forall u :: u in K ==> SameClaim(Run(p, cap)[u], Merged(stream, u))
  {
    SameMultisetSameElements(p, stream);
    RetentionIsOrderIndependentIff(stream, K, cap);
    SteadyOfPermutation(stream, p, K);
    SubsetSize(K, Sigs(stream));
    forall u | u in K ensures SameClaim(Run(p, cap)[u], Merged(stream, u)) {
      SteadyHolds(p, K, cap, u);
      MergedOfPermutation(stream, p, u);
    }
  }

  // ----- the other half: an order that misses an unrecognised claim -----

  /** The claims about u, the unrecognised ones or the known ones. */
  function Own(stream: seq<Group>, u: string, vague: bool): seq<Group>
    decreases |stream|
  {
    if stream == [] then []
    else
      var n := |stream| - 1;
      Own(stream[..n], u, vague)
      + if stream[n].signature == u && Vague(stream[n]) == vague then [stream[n]] else []
  }

  lemma {:induction false} OwnMembers(stream: seq<Group>, u: string, vague: bool)
    ensures forall f :: f in Own(stream, u, vague) <==> f in stream && f.signature == u && Vague(f) == vague
    decreases |stream|
  {
    if stream != [] {
      var n := |stream| - 1;
      assert stream == stream[..n] + [stream[n]];
      OwnMembers(stream[..n], u, vague);
    }
  }

  lemma {:induction false} OwnSplits(stream: seq<Group>, u: string)
    ensures multiset(Own(stream, u, true)) + multiset(Own(stream, u, false)) == multiset(Keep(stream, {u}))
    decreases |stream|
  {
    if stream != [] {
      OwnSplits(stream[..|stream| - 1], u);
    }
  }

  lemma {:induction false} MergedSkips(a: seq<Group>, b: seq<Group>, u: string)
    requires u in Sigs(a) && u !in Sigs(b)
    ensures u in Sigs(a + b) && Merged(a + b, u) == Merged(a, u)
    decreases |b|
  {
    if b == [] {
      assert a + b == a;
    } else {
      var n := |b| - 1;
      assert a + b == (a + b[..n]) + [b[n]];
      SigsSnoc(b);
      MergedSkips(a, b[..n], u);
      SigsSnoc(a + b);
      assert (a + b)[..|a + b| - 1] == a + b[..n];
      MergedSnoc(a + b[..n], b[n], u);
    }
  }

  lemma {:induction false} MergedFollows(a: seq<Group>, b: seq<Group>, u: string)
    requires u in Sigs(b) && u !in Sigs(a)
    ensures u in Sigs(a + b) && Merged(a + b, u) == Merged(b, u)
    decreases |b|
  {
    var n := |b| - 1;
    var pre, g := b[..n], b[n];
    assert b == pre + [g];
    assert a + b == (a + pre) + [g];
    SigsSnoc(b);
    SigsSnoc(a + b);
    assert (a + b)[..|a + b| - 1] == a + pre;
    MergedSnoc(pre, g, u);
    MergedSnoc(a + pre, g, u);
    if u in Sigs(pre) {
      MergedFollows(a, pre, u);
    } else {
      assert forall f :: f in a + pre ==> f in a || f in pre;
    }
  }

  /** Unrecognised claims only: their consolidation is weaker than g if one of them is. */
  lemma VagueIsWeak(v: seq<Group>, u: string, f: Group, g: Group)
    requires (forall h :: h in v ==> h.signature == u && Vague(h)) && f in v && Stronger(g, f)
    ensures u in Sigs(v) && Stronger(g, Merged(v, u))
  {
    MergedSummarises(v, u);
    assert f in Elements(v);
    StrongerMono(g, f, g, Merged(v, u));
  }

  lemma StrongerThanVague(stream: seq<Group>, K: set<string>, u: string, g: Group, v: seq<Group>, rest: seq<Group>, k: string)
    requires K <= Sigs(stream) && Gap(stream, K) && g in stream && g.signature !in K
    requires rest == Keep(stream, K - {u}) && k in K && k != u && k !in Sigs(v) && k in Sigs(rest) && k in Sigs(v + rest)
    requires u in Sigs(v + rest) && Stronger(g, Merged(v + rest, u))
    ensures Stronger(Merged(v + rest, k), Merged(v + rest, u))
  {
    KeepMerged(stream, K - {u}, k);
    MergedFollows(v, rest, k);
    assert Stronger(Merged(stream, k), g);
    StrongerIsOrder();
  }

  /** The unrecognised claims about u, the rest of K, then g: u is displaced. */
  lemma Displaced(stream: seq<Group>, K: set<string>, cap: nat, u: string, f: Group, g: Group)
    returns (pre: seq<Group>)
    requires cap >= 1 && K <= Sigs(stream) && |K| == cap && Gap(stream, K) && u in K
    requires f in stream && f.signature == u && Vague(f)
    requires g in stream && g.signature !in K && Stronger(g, f)
    ensures pre == Own(stream, u, true) + Keep(stream, K - {u})
    ensures u !in Run(pre + [g], cap)
  {
    var v, rest := Own(stream, u, true), Keep(stream, K - {u});
    pre := v + rest;
    OwnMembers(stream, u, true);
    KeepElements(stream, K - {u});
    VagueIsWeak(v, u, f, g);
    PreSigs(stream, K, u, v, rest);
    MergedSkips(v, rest, u);
    forall k | k in K && k != u ensures Stronger(Merged(pre, k), Merged(pre, u)) {
      StrongerThanVague(stream, K, u, g, v, rest, k);
    }
    WeakestLeaves(pre, K, cap, u, g);
  }

  /** A full map loses its weakest signature u to a stronger claim. */
  lemma WeakestLeaves(pre: seq<Group>, K: set<string>, cap: nat, u: string, g: Group)
    requires cap >= 1 && Sigs(pre) == K && |K| == cap && u in K && g.signature !in K && Stronger(g, Merged(pre, u))
    requires forall k :: k in K && k != u ==> Stronger(Merged(pre, k), Merged(pre, u))
    ensures u !in Run(pre + [g], cap)
  {
    SmallStreamConsolidates(pre, cap);
    var m := Consolidated(pre);
    assert m.Keys == K && |m| == |m.Keys|;
    WeakestUnique(m, Weakest(m), m[u]);
    assert (pre + [g])[..|pre|] == pre;
    DisplaceFacts(m, u, g);
  }

  lemma PreSigs(stream: seq<Group>, K: set<string>, u: string, v: seq<Group>, rest: seq<Group>)
    requires K <= Sigs(stream) && u in K && Sigs(rest) == Sigs(stream) * (K - {u})
    requires u in Sigs(v) && forall h :: h in v ==> h.signature == u
    ensures Sigs(v + rest) == K && u !in Sigs(rest) && (forall k :: k in K && k != u ==> k !in Sigs(v))
  {
    forall k ensures k in Sigs(v + rest) <==> k in Sigs(v) || k in Sigs(rest) {
      if k in Sigs(v) {
        var h :| h in v && h.signature == k;
        assert h in v + rest;
      }
      if k in Sigs(rest) {
        var h :| h in rest && h.signature == k;
        assert h in v + rest;
      }
    }
    assert Sigs(v) == {u};
  }

  /** ... and what is fed last, the known claims about u, is all that u can then hold. */
  lemma MissingOrder(stream: seq<Group>, K: set<string>, cap: nat, u: string, f: Group, g: Group)
    returns (p: seq<Group>)
    requires cap >= 1 && K <= Sigs(stream) && |K| == cap && Gap(stream, K) && u in K
    requires f in stream && f.signature == u && Vague(f)
    requires g in stream && g.signature !in K && Stronger(g, f)
    ensures multiset(p) == multiset(stream)
    ensures u in Run(p, cap) ==> EntryFrom(Run(p, cap)[u], Elements(Own(stream, u, false)), u)
  {
    var pre := Displaced(stream, K, cap, u, f, g);
    var c := RestWithout(stream, K, g);
    var known := Own(stream, u, false);
    p := (pre + [g]) + (c + known);
    MissingMultiset(stream, K, u, g, c);
    RunAppend(map[], pre + [g], c + known, cap);
    if u in Run(p, cap) {
      Sourced(Run(pre + [g], cap), c + known, cap, u);
      OnlyKnown(Run(p, cap)[u], c, known, u);
    }
  }

  lemma MissingMultiset(stream: seq<Group>, K: set<string>, u: string, g: Group, c: seq<Group>)
    requires u in K && multiset(Keep(stream, K)) + multiset([g] + c) == multiset(stream)
    ensures var pre := Own(stream, u, true) + Keep(stream, K - {u});
            multiset((pre + [g]) + (c + Own(stream, u, false))) == multiset(stream)
  {
    KeptMultiset(stream, K, u);
    Rearranged(Own(stream, u, true), Own(stream, u, false), Keep(stream, K - {u}), g, c);
  }

  lemma KeptMultiset(stream: seq<Group>, K: set<string>, u: string)
    requires u in K
    ensures multiset(Own(stream, u, true)) + multiset(Own(stream, u, false)) + multiset(Keep(stream, K - {u}))
         == multiset(Keep(stream, K))
  {
    OwnSplits(stream, u);
    KeepUnion(stream, {u}, K - {u});
    assert {u} + (K - {u}) == K;
  }

  lemma Rearranged(a: seq<Group>, b: seq<Group>, rest: seq<Group>, g: Group, c: seq<Group>)
    ensures multiset((a + rest + [g]) + (c + b)) == multiset(a) + multiset(b) + multiset(rest) + multiset([g] + c)
  {
    assert multiset([g] + c) == multiset([g]) + multiset(c);
  }

  lemma OnlyKnown(h: Group, c: seq<Group>, known: seq<Group>, u: string)
    requires EntryFrom(h, Elements(c + known), u) && u !in Sigs(c)
    ensures EntryFrom(h, Elements(known), u)
  {
    assert forall f :: f in c ==> f.signature in Sigs(c);
    assert forall f :: f in Elements(c + known) && f.signature == u ==> f in Elements(known);
  }

  /** The order that feeds K first keeps the full consolidation of every signature in K. */
  lemma PlainOrder(stream: seq<Group>, K: set<string>, cap: nat) returns (q: seq<Group>)
    requires cap >= 1 && K <= Sigs(stream) && |K| == cap && Gap(stream, K)
    ensures multiset(q) == multiset(stream) && Run(q, cap) == Finals(stream, K)
  {
    var T := Sigs(stream) - K;
    var a, d := Keep(stream, K), Keep(stream, T);
    q := a + d;
    KeepSplits(stream, K, T);
    FinalsFirst(stream, K, cap);
    var w := Finals(stream, K);
    assert |w| == |w.Keys|;
    KeepElements(stream, T);
    StrongerIsOrder();
    forall i | 0 <= i < |d| ensures d[i].signature !in w && !Stronger(d[i], Weakest(w)) {
      assert d[i] in Elements(d);
    }
    AllRejected(w, d, cap);
    RunAppend(map[], a, d, cap);
  }

  /** A claim the known ones do not cover makes the two orders disagree about u. */
  lemma Disagree(stream: seq<Group>, u: string, f: Group, h: Group)
    requires u in Sigs(stream) && f in stream && f.signature == u && !Covered(stream, u, f)
    requires EntryFrom(h, Elements(Own(stream, u, false)), u)
    ensures !SameClaim(Merged(stream, u), h)
  {
    MergedSummarises(stream, u);
    assert f in Elements(stream);
    if SameClaim(Merged(stream, u), h) {
      CoveredByKnown(stream, u, f, h);
    }
  }

  lemma CoveredByKnown(stream: seq<Group>, u: string, f: Group, h: Group)
    requires EntryFrom(h, Elements(Own(stream, u, false)), u)
    requires h.confidence <= f.confidence && !LexLess(f.title, h.title)
    ensures Covered(stream, u, f)
  {
    OwnMembers(stream, u, false);
    var known := Own(stream, u, false);
    var k :| k in Elements(known) && k.signature == u && k.confidence == h.confidence;
    assert k in known;
    var t :| t in Elements(known) && t.signature == u && FromSame(t, h);
    assert t in known;
  }

  lemma ContentsDiffer(stream: seq<Group>, K: set<string>, cap: nat, u: string)
    requires cap >= 1 && IsTop(stream, K, cap) && Gap(stream, K)
    requires u in K && !Firm(stream, K, u) && !Redundant(stream, u)
    ensures !ContentsIndependent(stream, cap)
  {
    var f, g :| f in stream && f.signature == u && Vague(f) && g in stream && g.signature !in K && !Stronger(f, g);
    var e :| e in stream && e.signature == u && Vague(e) && !Covered(stream, u, e);
    StrongerIsOrder();
    TopIsFull(stream, K, cap, g);
    var p := MissingOrder(stream, K, cap, u, f, g);
    var q := PlainOrder(stream, K, cap);
    if u in Run(p, cap) {
      Disagree(stream, u, e, Run(p, cap)[u]);
    }
    assert !SameGroups(Run(q, cap), Run(p, cap));
  }

  // ----- the theorem -----

  /** What a bucket retains, signatures and claims, is the same in every arrival order if and only
      if no claim outside the top reaches a consolidation inside it and no signature inside has an
      unrecognised claim that can be displaced and says what no known claim says; and then it holds
      the consolidated top. */
  lemma ContentsAreOrderIndependentIff(stream: seq<Group>, K: set<string>, cap: nat)
    requires cap >= 1 && IsTop(stream, K, cap)
    ensures ContentsIndependent(stream, cap) <==> Steady(stream, K)
    ensures Steady(stream, K) ==> forall p :: multiset(p) == multiset(stream) ==>
              Run(p, cap).Keys == K && forall u :: u in K ==> SameClaim(Run(p, cap)[u], Merged(stream, u))
  {
    RetentionIsOrderIndependentIff(stream, K, cap);
    if Steady(stream, K) {
      forall p | multiset(p) == multiset(stream)
        ensures Run(p, cap).Keys == K && forall u :: u in K ==> SameClaim(Run(p, cap)[u], Merged(stream, u))
      {
        SteadyConsolidates(stream, K, cap, p);
      }
    } else if Gap(stream, K) {
      var u :| u in K && !Firm(stream, K, u) && !Redundant(stream, u);
      ContentsDiffer(stream, K, cap, u);
    } else {
      assert !OrderIndependent(stream, cap);
      var p, q :| multiset(p) == multiset(stream) && multiset(q) == multiset(stream)
                  && Run(p, cap).Keys != Run(q, cap).Keys;
      assert !SameGroups(Run(p, cap), Run(q, cap));
    }
  }

  /** When every severity is one the program defines, the gap condition alone is exact. */
  lemma KnownSeveritiesIff(stream: seq<Group>, K: set<string>, cap: nat)
    requires cap >= 1 && IsTop(stream, K, cap)
    requires forall f :: f in stream ==> !Vague(f)
    ensures ContentsIndependent(stream, cap) <==> Gap(stream, K)
    ensures ContentsIndependent(stream, cap) <==> OrderIndependent(stream, cap)
  {
    ContentsAreOrderIndependentIff(stream, K, cap);
    RetentionIsOrderIndependentIff(stream, K, cap);
  }

  // ----- the signatures a stream's top consists of -----

  ghost function Top(stream: seq<Group>, cap: nat): (K: set<string>)
    ensures K <= Sigs(stream) && IsTop(stream, K, cap)
  {
    TopExists(stream, cap);
    TopOf(Consolidated(stream), cap).Keys
  }

  /** The exact condition with nothing left to choose. */
  lemma SteadyTopIff(stream: seq<Group>, cap: nat)
    requires cap >= 1
    ensures ContentsIndependent(stream, cap) <==> Steady(stream, Top(stream, cap))
  {
    ContentsAreOrderIndependentIff(stream, Top(stream, cap), cap);
  }

  /** Within the bound there is nothing outside the top, so every stream is steady. */
  lemma SmallIsSteady(stream: seq<Group>, cap: nat)
    requires |Sigs(stream)| <= cap
    ensures Steady(stream, Top(stream, cap))
  {
    SubsetSize(Top(stream, cap), Sigs(stream));
    assert forall f :: f in stream ==> f.signature in Sigs(stream);
  }

  lemma SteadyTopOfPermutation(p: seq<Group>, q: seq<Group>, cap: nat)
    requires cap >= 1 && multiset(p) == multiset(q) && Steady(p, Top(p, cap))
    ensures Steady(q, Top(q, cap))
  {
    SteadyTopIff(p, cap);
    SteadyTopIff(q, cap);
  }

  // ----- a stream whose retained signatures never vary but whose contents do -----

  const EARLY: Group := Group("b", 0.1, Unrecognized("?"), [], "", "", "", "")
  const LATE: Group := Group("b", 0.9, High, [], "", "", "", "")
  const RIVAL: Group := Group("a", 0.5, Severity.Low, [], "", "", "", "")

  lemma VaryingMerged()
    ensures var s := [EARLY, LATE, RIVAL]; Sigs(s) == {"a", "b"} && Merged(s, "b") == LATE.(confidence := 0.1)
    ensures var s := [EARLY, LATE, RIVAL]; Merged(s, "a") == RIVAL
  {
    var s := [EARLY, LATE, RIVAL];
    assert s == [EARLY, LATE] + [RIVAL] && [EARLY, LATE] == [EARLY] + [LATE];
    Single(EARLY);
    assert EARLY in s && RIVAL in s;
    assert forall f :: f in [EARLY, LATE] ==> f.signature == "b";
    MergedSnoc([EARLY], LATE, "b");
    MergedSnoc([EARLY, LATE], RIVAL, "b");
    MergedSnoc([EARLY, LATE], RIVAL, "a");
  }

  lemma VaryingTop(s: seq<Group>, K: set<string>)
    requires s == [EARLY, LATE, RIVAL] && K == {"b"}
    ensures K <= Sigs(s) && IsTop(s, K, 1) && Gap(s, K)
  {
    VaryingMerged();
    assert |Sigs(s)| == 2;
  }

  lemma VaryingUnsteady(s: seq<Group>, K: set<string>)
    requires s == [EARLY, LATE, RIVAL] && K == {"b"}
    ensures K <= Sigs(s) && !Steady(s, K)
  {
    VaryingTop(s, K);
    assert EARLY in s && RIVAL in s && !Stronger(EARLY, RIVAL);
    assert !Firm(s, K, "b");
    assert forall k :: k in s && k.signature == "b" && !Vague(k) ==> k == LATE;
    assert !Covered(s, "b", EARLY);
  }

  /** A bucket of one slot keeps the stronger of two groups. */
  lemma OneSlot(e: Group, g: Group)
    requires e.signature != g.signature
    ensures Step(map[e.signature := e], g, 1) == if Stronger(g, e) then map[g.signature := g] else map[e.signature := e]
  {
    var m := map[e.signature := e];
    assert |m| == 1 && IsWeakest(m, e);
    WeakestUnique(m, Weakest(m), e);
    assert Displace(m, e.signature, g) == map[g.signature := g];
  }

  lemma RunSnoc(p: seq<Group>, g: Group, q: seq<Group>, cap: nat)
    requires cap >= 1 && q == p + [g]
    ensures Run(q, cap) == Step(Run(p, cap), g, cap)
  {
    assert q[..|p|] == p;
  }

  lemma EarlyRun()
    ensures Run([EARLY], 1) == map["b" := EARLY]
  {
    RunSnoc([], EARLY, [EARLY], 1);
    assert Run([], 1) == map[];
  }

  lemma RivalLast()
    ensures Run([EARLY, LATE, RIVAL], 1) == map["b" := LATE.(confidence := 0.1)]
  {
    EarlyRun();
    RunSnoc([EARLY], LATE, [EARLY, LATE], 1);
    assert Absorb(EARLY, LATE) == LATE.(confidence := 0.1);
    assert Run([EARLY, LATE], 1) == map["b" := LATE.(confidence := 0.1)];
    RunSnoc([EARLY, LATE], RIVAL, [EARLY, LATE, RIVAL], 1);
    OneSlot(LATE.(confidence := 0.1), RIVAL);
  }

  lemma RivalBetween()
    ensures Run([EARLY, RIVAL, LATE], 1) == map["b" := LATE]
  {
    EarlyRun();
    RunSnoc([EARLY], RIVAL, [EARLY, RIVAL], 1);
    OneSlot(EARLY, RIVAL);
    RunSnoc([EARLY, RIVAL], LATE, [EARLY, RIVAL, LATE], 1);
    OneSlot(RIVAL, LATE);
  }

  /** One slot, an unrecognised and a known claim about b, and a rival in between: b is retained in
      every order, but with different claims (`RivalLast`, `RivalBetween`). */
  lemma VagueContentsVary(s: seq<Group>, K: set<string>)
    requires s == [EARLY, LATE, RIVAL] && K == {"b"}
    ensures K <= Sigs(s) && IsTop(s, K, 1) && Gap(s, K) && OrderIndependent(s, 1) && !ContentsIndependent(s, 1)
  {
    VaryingTop(s, K);
    VaryingUnsteady(s, K);
    RetentionIsOrderIndependentIff(s, K, 1);
    ContentsAreOrderIndependentIff(s, K, 1);
  }
}
