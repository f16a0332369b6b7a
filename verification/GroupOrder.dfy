/** Exactly when the signatures a bucket retains are independent of arrival order. */
module GroupOrder {
  import opened Ordering
  import opened Findings
  import opened GroupStream

  /** K holds the cap strongest signatures once every claim has been consolidated. */
  ghost predicate IsTop(stream: seq<Group>, K: set<string>, cap: nat) {
    && K <= Sigs(stream)
    && |K| == (if |Sigs(stream)| <= cap then |Sigs(stream)| else cap)
    && forall u, s :: u in K && s in Sigs(stream) && s !in K ==> Stronger(Merged(stream, u), Merged(stream, s))
  }

  /** No single claim about a signature outside K is as strong as any consolidation inside K. */
  ghost predicate Gap(stream: seq<Group>, K: set<string>)
    requires K <= Sigs(stream)
  {
    forall u, f :: u in K && f in stream && f.signature !in K ==> Stronger(Merged(stream, u), f)
  }

  // ----- sufficiency: an invariant of every run, whatever has arrived so far -----

  predicate Respects(f: Group, w: Group) {
    f.confidence >= w.confidence && (Rank(f.severity) >= 0 ==> 0 <= Rank(w.severity) <= Rank(f.severity))
  }

  /** w holds the final consolidations of K, and every claim respects them and the gap. */
  ghost predicate Separated(claims: set<Group>, K: set<string>, w: Groups) {
    && Keyed(w) && w.Keys == K
    && (forall f :: f in claims && f.signature in w ==> Respects(f, w[f.signature]))
    && (forall u, f :: u in w && f in claims && f.signature !in w ==> Stronger(w[u], f))
  }

  /** A claim settles its signature once no later claim can be ranked below it by accident of
      unrecognised severity text. */
  predicate Settles(g: Group, w: Groups) {
    g.signature in w && (Rank(g.severity) >= 0 || Rank(w[g.signature].severity) < 0)
  }

  ghost predicate Claimed(h: Group, claims: set<Group>) {
    exists f :: f in claims && AtLeast(f, h)
  }

  /** What is true of any retained group: inside K it never falls below the final confidence or
      known rank, outside K it is never above some single claim. */
  ghost predicate EntryOk(h: Group, claims: set<Group>, w: Groups) {
    if h.signature in w then
      h.confidence >= w[h.signature].confidence
      && (Rank(h.severity) >= 0 ==> Rank(h.severity) >= Rank(w[h.signature].severity))
    else Claimed(h, claims)
  }

  ghost predicate Tracks(m: Groups, settled: set<string>, claims: set<Group>, w: Groups) {
    && Keyed(m)
    && (forall k :: k in m ==> EntryOk(m[k], claims, w))
    && settled <= w.Keys
    && (forall u :: u in settled ==> u in m && AtLeast(m[u], w[u]))
  }

  ghost function Settled(settled: set<string>, g: Group, w: Groups): set<string> {
    if Settles(g, w) then settled + {g.signature} else settled
  }

  lemma ClaimEntryOk(claims: set<Group>, K: set<string>, w: Groups, g: Group)
    requires Separated(claims, K, w) && g in claims
    ensures EntryOk(g, claims, w)
    ensures Settles(g, w) ==> AtLeast(g, w[g.signature])
  {
    assert AtLeast(g, g);
  }

  lemma AbsorbEntryOk(claims: set<Group>, K: set<string>, w: Groups, e: Group, g: Group)
    requires Separated(claims, K, w) && g in claims && e.signature == g.signature
    requires EntryOk(e, claims, w)
    ensures EntryOk(Absorb(e, g), claims, w)
    ensures Settles(g, w) || (g.signature in w && AtLeast(e, w[g.signature])) ==>
              AtLeast(Absorb(e, g), w[g.signature])
  {
    var r := Absorb(e, g);
    assert r.signature == g.signature;
    assert g.signature in w ==> Respects(g, w[g.signature]);
    if g.signature !in w {
      var f :| f in claims && AtLeast(f, e);
      assert AtLeast(f, r) || AtLeast(g, r);
    }
  }

  lemma TracksAbsorb(m: Groups, settled: set<string>, claims: set<Group>, K: set<string>, w: Groups, g: Group)
    requires Separated(claims, K, w) && Tracks(m, settled, claims, w) && g in claims
    requires g.signature in m
    ensures Tracks(m[g.signature := Absorb(m[g.signature], g)], Settled(settled, g, w), claims, w)
  {
    AbsorbEntryOk(claims, K, w, m[g.signature], g);
    PutFacts(m, Absorb(m[g.signature], g));
  }

  lemma EntriesAdd(m: Groups, claims: set<Group>, w: Groups, g: Group)
    requires (forall k :: k in m ==> EntryOk(m[k], claims, w)) && EntryOk(g, claims, w)
    ensures var n := m[g.signature := g]; forall k :: k in n ==> EntryOk(n[k], claims, w)
  {
  }

  lemma SettledAdd(m: Groups, settled: set<string>, w: Groups, g: Group)
    requires settled <= w.Keys && (forall u :: u in settled ==> u in m && AtLeast(m[u], w[u])) && g.signature !in m
    requires Settles(g, w) ==> AtLeast(g, w[g.signature])
    ensures var n, all := m[g.signature := g], Settled(settled, g, w);
            all <= w.Keys && forall u :: u in all ==> u in n && AtLeast(n[u], w[u])
  {
  }

  lemma TracksAdd(m: Groups, settled: set<string>, claims: set<Group>, K: set<string>, w: Groups, g: Group)
    requires Separated(claims, K, w) && Tracks(m, settled, claims, w) && g in claims
    requires g.signature !in m
    ensures Tracks(m[g.signature := g], Settled(settled, g, w), claims, w)
  {
    ClaimEntryOk(claims, K, w, g);
    EntriesAdd(m, claims, w, g);
    SettledAdd(m, settled, w, g);
    PutFacts(m, g);
  }

  /** A full bucket whose weakest group is settled holds K and nothing else. */
  lemma SettledWeakest(m: Groups, settled: set<string>, claims: set<Group>, K: set<string>, w: Groups, v: Group)
    requires Separated(claims, K, w) && Tracks(m, settled, claims, w)
    requires |m| >= |K| && IsWeakest(m, v) && v.signature in settled
    ensures m.Keys == K
  {
    StrongerIsOrder();
    forall k | k in m ensures k in K {
      if k !in K {
        assert Claimed(m[k], claims);
        var f :| f in claims && AtLeast(f, m[k]);
        StrongerMono(w[v.signature], f, m[v.signature], m[k]);
      }
    }
    SubsetSize(m.Keys, K);
    assert |m| == |m.Keys|;
  }

  lemma TracksDisplace(m: Groups, settled: set<string>, claims: set<Group>, K: set<string>, w: Groups, g: Group)
    requires Separated(claims, K, w) && Tracks(m, settled, claims, w) && g in claims
    requires g.signature !in m && |m| >= |K| && m != map[] && Stronger(g, Weakest(m))
    ensures Tracks(Displace(m, Weakest(m).signature, g), Settled(settled, g, w), claims, w)
  {
    var v := Weakest(m);
    if v.signature in settled {
      SettledWeakest(m, settled, claims, K, w, v);
      StrongerIsOrder();
      assert Stronger(w[v.signature], g);
      StrongerMono(w[v.signature], g, v, g);
    }
    ClaimEntryOk(claims, K, w, g);
    DisplaceFacts(m, v.signature, g);
  }

  lemma SomeOutside(m: Groups, K: set<string>, u: string)
    requires u in K && u !in m && |m| >= |K|
    ensures exists k :: k in m && k !in K
  {
    assert |m| == |m.Keys|;
    if m.Keys <= K {
      SubsetSize(m.Keys, K);
    } else {
      var k :| k in m.Keys && k !in K;
    }
  }

  lemma RejectedIsNotSettling(m: Groups, settled: set<string>, claims: set<Group>, K: set<string>, w: Groups, g: Group)
    requires Separated(claims, K, w) && Tracks(m, settled, claims, w) && g in claims
    requires g.signature !in m && |m| >= |K| && m != map[] && !Stronger(g, Weakest(m))
    ensures !Settles(g, w)
  {
    if Settles(g, w) {
      StrongerIsOrder();
      var u := g.signature;
      assert AtLeast(g, w[u]);
      SomeOutside(m, K, u);
      var k :| k in m && k !in K;
      assert Claimed(m[k], claims);
      var f :| f in claims && AtLeast(f, m[k]);
      StrongerMono(w[u], f, g, m[k]);
    }
  }

  lemma StepTracks(m: Groups, settled: set<string>, claims: set<Group>, K: set<string>, w: Groups, g: Group, cap: nat)
    requires Separated(claims, K, w) && Tracks(m, settled, claims, w) && g in claims
    requires cap >= 1 && |K| <= cap
    ensures Tracks(Step(m, g, cap), Settled(settled, g, w), claims, w)
  {
    if g.signature in m {
      TracksAbsorb(m, settled, claims, K, w, g);
    } else if |m| < cap {
      TracksAdd(m, settled, claims, K, w, g);
    } else if Stronger(g, Weakest(m)) {
      TracksDisplace(m, settled, claims, K, w, g);
    } else {
      RejectedIsNotSettling(m, settled, claims, K, w, g);
    }
  }

  ghost function SettledBy(p: seq<Group>, w: Groups): set<string> {
    if p == [] then {} else Settled(SettledBy(p[..|p| - 1], w), p[|p| - 1], w)
  }

  lemma {:induction false} RunTracks(p: seq<Group>, claims: set<Group>, K: set<string>, w: Groups, cap: nat)
    requires Separated(claims, K, w) && Elements(p) <= claims
    requires cap >= 1 && |K| <= cap
    ensures Tracks(Run(p, cap), SettledBy(p, w), claims, w)
    decreases |p|
  {
    if p != [] {
      var n := |p| - 1;
      assert p[n] in Elements(p);
      assert Elements(p[..n]) <= Elements(p);
      RunTracks(p[..n], claims, K, w, cap);
      StepTracks(Run(p[..n], cap), SettledBy(p[..n], w), claims, K, w, p[n], cap);
    }
  }

  lemma {:induction false} SettledByEach(p: seq<Group>, w: Groups, i: nat)
    requires i < |p| && Settles(p[i], w)
    ensures p[i].signature in SettledBy(p, w)
    decreases |p|
  {
    if i < |p| - 1 {
      SettledByEach(p[..|p| - 1], w, i);
    }
  }

  lemma MergedRespected(stream: seq<Group>, s: string, f: Group)
    requires f in stream && f.signature == s
    ensures s in Sigs(stream) && Respects(f, Merged(stream, s))
  {
    MergedSummarises(stream, s);
    assert f in Elements(stream);
  }

  /** A consolidation never claims more than some single claim it was made from. */
  lemma MergedBelowSome(stream: seq<Group>, s: string)
    requires s in Sigs(stream)
    ensures exists f :: f in stream && AtLeast(f, Merged(stream, s))
  {
    MergedSummarises(stream, s);
    var g := Merged(stream, s);
    var f :| f in Elements(stream) && f.signature == s && Rank(f.severity) == Rank(g.severity);
    assert f in stream && AtLeast(f, g);
  }

  ghost function Finals(stream: seq<Group>, K: set<string>): (w: Groups)
    requires K <= Sigs(stream)
    ensures Keyed(w) && w.Keys == K
    ensures forall u :: u in K ==> w[u] == Merged(stream, u)
  {
    map u | u in K :: Merged(stream, u)
  }

  lemma GapSeparates(stream: seq<Group>, K: set<string>)
    requires K <= Sigs(stream) && Gap(stream, K)
    ensures Separated(Elements(stream), K, Finals(stream, K))
  {
    var w := Finals(stream, K);
    forall f | f in Elements(stream) && f.signature in w ensures Respects(f, w[f.signature]) {
      MergedRespected(stream, f.signature, f);
    }
  }

  /** Under the gap condition a run retains exactly K, in whatever order the claims come. */
  lemma GapRetains(p: seq<Group>, K: set<string>, cap: nat)
    requires cap >= 1 && K <= Sigs(p) && Gap(p, K)
    requires |K| == if |Sigs(p)| <= cap then |Sigs(p)| else cap
    ensures Run(p, cap).Keys == K
  {
    var m := Run(p, cap);
    RunBounded(map[], p, cap);
    GapKeeps(p, K, cap);
    assert |m| == |m.Keys|;
    SubsetSize(K, m.Keys);
    SubsetSize(K, Sigs(p));
  }

  lemma GapKeeps(p: seq<Group>, K: set<string>, cap: nat)
    requires cap >= 1 && K <= Sigs(p) && Gap(p, K) && |K| <= cap
    ensures K <= Run(p, cap).Keys
  {
    GapSeparates(p, K);
    RunTracks(p, Elements(p), K, Finals(p, K), cap);
    forall u | u in K ensures u in SettledBy(p, Finals(p, K)) {
      AllSettled(p, K, u);
    }
  }

  lemma AllSettled(p: seq<Group>, K: set<string>, u: string)
    requires K <= Sigs(p) && u in K
    ensures u in SettledBy(p, Finals(p, K))
  {
    var w := Finals(p, K);
    MergedSummarises(p, u);
    var f :| f in Elements(p) && f.signature == u && Rank(f.severity) == Rank(w[u].severity);
    var i :| 0 <= i < |p| && p[i] == f;
    SettledByEach(p, w, i);
  }

  lemma GapOfPermutation(p: seq<Group>, q: seq<Group>, K: set<string>)
    requires Elements(p) == Elements(q) && K <= Sigs(p) && Gap(p, K)
    ensures K <= Sigs(q) && Gap(q, K)
  {
    SigsOfPermutation(p, q);
    forall u, f | u in K && f in q && f.signature !in K ensures Stronger(Merged(q, u), f) {
      MergedOfPermutation(p, q, u);
      assert f in Elements(q) && f in p;
      StrongerMono(Merged(p, u), f, Merged(q, u), f);
    }
  }

  // ----- what is retained, not only which -----

  /** The claims about s all carry known severities, or none does. */
  ghost predicate Uniform(stream: seq<Group>, s: string) {
    forall f, g :: f in stream && g in stream && f.signature == s && g.signature == s ==>
      (Rank(f.severity) < 0 <==> Rank(g.severity) < 0)
  }

  lemma UniformSettles(p: seq<Group>, K: set<string>, i: nat)
    requires K <= Sigs(p) && i < |p| && p[i].signature in K && Uniform(p, p[i].signature)
    ensures Settles(p[i], Finals(p, K))
  {
    var s := p[i].signature;
    MergedSummarises(p, s);
    var g :| g in Elements(p) && g.signature == s && Rank(g.severity) == Rank(Merged(p, s).severity);
    assert g in p && p[i] in p;
  }

  lemma SettledInPrefix(p: seq<Group>, n: nat, K: set<string>, cap: nat, u: string)
    requires cap >= 1 && K <= Sigs(p) && Gap(p, K) && |K| <= cap && n <= |p|
    requires u in K && Uniform(p, u) && u in Sigs(p[..n])
    ensures u in Run(p[..n], cap)
  {
    var q, w := p[..n], Finals(p, K);
    var i := SigAt(q, u);
    UniformSettles(p, K, i);
    SettledByEach(q, w, i);
    GapSeparates(p, K);
    RunTracks(q, Elements(p), K, w, cap);
  }

  lemma StepAt(m: Groups, g: Group, cap: nat, u: string)
    requires Keyed(m) && cap >= 1 && u in Step(m, g, cap)
    ensures g.signature != u ==> u in m && Step(m, g, cap)[u] == m[u]
    ensures g.signature == u && u in m ==> Step(m, g, cap)[u] == Absorb(m[u], g)
    ensures g.signature == u && u !in m ==> Step(m, g, cap)[u] == g
  {
  }

  lemma MergedSnoc(q: seq<Group>, g: Group, u: string)
    requires u in Sigs(q + [g])
    ensures g.signature != u ==> u in Sigs(q) && Merged(q + [g], u) == Merged(q, u)
    ensures g.signature == u && u in Sigs(q) ==> Merged(q + [g], u) == Absorb(Merged(q, u), g)
    ensures g.signature == u && u !in Sigs(q) ==> Merged(q + [g], u) == g
  {
    var t := q + [g];
    assert t[..|t| - 1] == q && t[|t| - 1] == g;
  }

  /** m keeps, for u, the consolidation of everything q said about u. */
  ghost predicate Current(m: Groups, q: seq<Group>, u: string) {
    if u in Sigs(q) then u in m && m[u] == Merged(q, u) else u !in m
  }

  lemma CurrentStep(m: Groups, q: seq<Group>, g: Group, cap: nat, u: string)
    requires Keyed(m) && cap >= 1 && Current(m, q, u)
    requires u in Step(m, g, cap) && u in Sigs(q + [g])
    ensures Current(Step(m, g, cap), q + [g], u)
  {
    StepAt(m, g, cap, u);
    MergedSnoc(q, g, u);
  }

  /** A retained uniform signature holds the full consolidation of everything that arrived. */
  lemma {:induction false} GapConsolidatesPrefix(p: seq<Group>, n: nat, K: set<string>, cap: nat, u: string)
    requires cap >= 1 && K <= Sigs(p) && Gap(p, K) && |K| <= cap && n <= |p|
    requires u in K && Uniform(p, u)
    ensures Current(Run(p[..n], cap), p[..n], u)
  {
    if n > 0 {
      var q, g := p[..n - 1], p[n - 1];
      assert p[..n] == q + [g];
      assert (q + [g])[..|q|] == q;
      GapConsolidatesPrefix(p, n - 1, K, cap, u);
      if u in Sigs(q + [g]) {
        SettledInPrefix(p, n, K, cap, u);
        CurrentStep(Run(q, cap), q, g, cap, u);
      } else {
        RunBounded(map[], q + [g], cap);
      }
    }
  }

  /** ... so its group is the consolidation of the whole stream. */
  lemma GapConsolidates(p: seq<Group>, K: set<string>, cap: nat, u: string)
    requires cap >= 1 && K <= Sigs(p) && Gap(p, K) && |K| <= cap
    requires u in K && Uniform(p, u)
    ensures u in Run(p, cap) && Run(p, cap)[u] == Merged(p, u)
  {
    assert p[..|p|] == p;
    GapConsolidatesPrefix(p, |p|, K, cap, u);
  }
}
