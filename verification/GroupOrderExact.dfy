/** The other half: when the gap condition fails, two arrival orders of the same claims retain
    different signatures. */
module GroupOrderExact {
  import opened Ordering
  import opened Findings
  import opened GroupStream
  import opened GroupOrder

  /** The claims about signatures in S, in stream order. */
  function Keep(stream: seq<Group>, S: set<string>): seq<Group>
    decreases |stream|
  {
    if stream == [] then []
    else
      var n := |stream| - 1;
      Keep(stream[..n], S) + if stream[n].signature in S then [stream[n]] else []
  }

  lemma {:induction false} KeepSplits(stream: seq<Group>, S: set<string>, T: set<string>)
    requires Sigs(stream) <= S + T && S !! T
    ensures multiset(Keep(stream, S)) + multiset(Keep(stream, T)) == multiset(stream)
    decreases |stream|
  {
    if stream != [] {
      var n := |stream| - 1;
      assert stream == stream[..n] + [stream[n]];
      SigsSnoc(stream);
      KeepSplits(stream[..n], S, T);
    }
  }

  lemma {:induction false} KeepElements(stream: seq<Group>, S: set<string>)
    ensures Elements(Keep(stream, S)) == set f | f in stream && f.signature in S
    ensures Sigs(Keep(stream, S)) == Sigs(stream) * S
    decreases |stream|
  {
    if stream != [] {
      var n := |stream| - 1;
      var pre, g := stream[..n], stream[n];
      assert stream == pre + [g];
      SigsSnoc(stream);
      KeepElements(pre, S);
      if g.signature in S {
        var k := Keep(stream, S);
        assert k == Keep(pre, S) + [g];
        SigsSnoc(k);
        assert Elements(k) == Elements(Keep(pre, S)) + {g};
      } else {
        assert Keep(stream, S) == Keep(pre, S);
      }
    }
  }

  lemma {:induction false} KeepMerged(stream: seq<Group>, S: set<string>, s: string)
    requires s in S && s in Sigs(stream)
    ensures s in Sigs(Keep(stream, S)) && Merged(Keep(stream, S), s) == Merged(stream, s)
    decreases |stream|
  {
    KeepElements(stream, S);
    var n := |stream| - 1;
    var pre, g := stream[..n], stream[n];
    assert stream == pre + [g];
    MergedSnoc(pre, g, s);
    KeepElements(pre, S);
    if s in Sigs(pre) {
      KeepMerged(pre, S, s);
    }
    if g.signature in S {
      assert Keep(stream, S) == Keep(pre, S) + [g];
      MergedSnoc(Keep(pre, S), g, s);
    } else {
      assert Keep(stream, S) == Keep(pre, S);
    }
  }

  // ----- an order that loses a top signature -----

  lemma WeakestTop(stream: seq<Group>, K: set<string>) returns (u: string)
    requires K <= Sigs(stream) && K != {}
    ensures u in K && IsWeakest(Finals(stream, K), Merged(stream, u))
  {
    var w := Finals(stream, K);
    assert exists k :: k in K;
    assert w != map[];
    u := Weakest(w).signature;
  }

  /** Feed K first, then a claim stronger than K's weakest consolidation: it is evicted for good. */
  lemma LosingOrder(stream: seq<Group>, K: set<string>, cap: nat, u: string, f: Group) returns (p: seq<Group>)
    requires cap >= 1 && K <= Sigs(stream) && |K| == cap
    requires u in K && IsWeakest(Finals(stream, K), Merged(stream, u))
    requires f in stream && f.signature !in K && Stronger(f, Merged(stream, u))
    ensures multiset(p) == multiset(stream) && u !in Run(p, cap)
  {
    var c := RestWithout(stream, K, f);
    var a := Keep(stream, K);
    p := a + ([f] + c);
    assert multiset(p) == multiset(a) + multiset([f] + c);
    FinalsFirst(stream, K, cap);
    RunAppend(map[], a, [f] + c, cap);
    RunAppend(Finals(stream, K), [f], c, cap);
    assert [f][..0] == [];
    EvictOne(stream, K, cap, u, f);
    StepFacts(Finals(stream, K), f, cap);
    RunBounded(Step(Finals(stream, K), f, cap), c, cap);
  }

  lemma FinalsFirst(stream: seq<Group>, K: set<string>, cap: nat)
    requires cap >= 1 && K <= Sigs(stream) && |K| <= cap
    ensures Run(Keep(stream, K), cap) == Finals(stream, K)
  {
    FinalsOfKeep(stream, K);
    KeepElements(stream, K);
    assert Sigs(stream) * K == K;
    SmallStreamConsolidates(Keep(stream, K), cap);
  }

  /** Everything outside K but one occurrence of f. */
  lemma RestWithout(stream: seq<Group>, K: set<string>, f: Group) returns (c: seq<Group>)
    requires K <= Sigs(stream) && f in stream && f.signature !in K
    ensures multiset(Keep(stream, K)) + multiset([f] + c) == multiset(stream)
    ensures Sigs(c) !! K
  {
    var T := Sigs(stream) - K;
    var r := Keep(stream, T);
    KeepSplits(stream, K, T);
    KeepElements(stream, T);
    assert f.signature in Sigs(stream);
    assert f in Elements(r);
    var i :| 0 <= i < |r| && r[i] == f;
    c := r[..i] + r[i+1..];
    RemoveAt(r, i);
    assert multiset([f] + c) == multiset(r);
    PartSigs(r, i);
  }

  lemma PartSigs(r: seq<Group>, i: nat)
    requires i < |r|
    ensures Sigs(r[..i] + r[i+1..]) <= Sigs(r)
  {
  }

  lemma FinalsOfKeep(stream: seq<Group>, K: set<string>)
    requires K <= Sigs(stream)
    ensures Consolidated(Keep(stream, K)) == Finals(stream, K)
  {
    KeepElements(stream, K);
    forall s | s in K ensures s in Sigs(Keep(stream, K)) && Merged(Keep(stream, K), s) == Merged(stream, s) {
      KeepMerged(stream, K, s);
    }
  }

  lemma EvictOne(stream: seq<Group>, K: set<string>, cap: nat, u: string, f: Group)
    requires cap >= 1 && K <= Sigs(stream) && |K| == cap
    requires u in K && IsWeakest(Finals(stream, K), Merged(stream, u))
    requires f.signature !in K && Stronger(f, Merged(stream, u))
    ensures u !in Step(Finals(stream, K), f, cap)
    ensures |Step(Finals(stream, K), f, cap)| <= cap
  {
    var w := Finals(stream, K);
    assert |w| == |w.Keys|;
    WeakestUnique(w, Weakest(w), Merged(stream, u));
    DisplaceFacts(w, u, f);
  }

  // ----- an order that keeps it -----

  /** Nothing but base, or base and one group weaker than all of base and than v. */
  ghost predicate Slot(m: Groups, base: Groups, v: Group, done: set<string>) {
    || m == base
    || exists h: Group :: IsSpare(m, base, v, done, h)
  }

  ghost predicate IsSpare(m: Groups, base: Groups, v: Group, done: set<string>, h: Group) {
    && h.signature in done && h.signature !in base && m == base[h.signature := h] && Low(h, base, v)
  }

  ghost predicate Low(h: Group, base: Groups, v: Group) {
    Stronger(v, h) && forall k :: k in base ==> Stronger(base[k], h)
  }

  lemma LowMono(h: Group, h': Group, base: Groups, v: Group)
    requires Low(h, base, v) && AtLeast(h, h')
    ensures Low(h', base, v)
  {
    StrongerMono(v, h, v, h');
    forall k | k in base ensures Stronger(base[k], h') {
      StrongerMono(base[k], h, base[k], h');
    }
  }

  lemma {:induction false} AllAbsorbed(m: Groups, q: seq<Group>, d: seq<Group>, cap: nat, r: string)
    requires Keyed(m) && cap >= 1 && r in Sigs(q) && r in m && m[r] == Merged(q, r)
    requires forall i :: 0 <= i < |d| ==> d[i].signature == r
    ensures r in Sigs(q + d) && RunFrom(m, d, cap) == m[r := Merged(q + d, r)]
    decreases |d|
  {
    if d == [] {
      assert q + d == q;
    } else {
      var n := |d| - 1;
      AllAbsorbed(m, q, d[..n], cap, r);
      assert q + d == (q + d[..n]) + [d[n]];
      SigsSnoc(q + d);
      MergedSnoc(q + d[..n], d[n], r);
    }
  }

  lemma {:induction false} AllRejected(m: Groups, d: seq<Group>, cap: nat)
    requires Keyed(m) && cap >= 1 && m != map[] && |m| >= cap
    requires forall i :: 0 <= i < |d| ==> d[i].signature !in m && !Stronger(d[i], Weakest(m))
    ensures RunFrom(m, d, cap) == m
    decreases |d|
  {
    if d != [] {
      AllRejected(m, d[..|d| - 1], cap);
    }
  }

  lemma {:induction false} StrongestFirst(d: seq<Group>) returns (b: seq<Group>)
    requires d != []
    ensures multiset(b) == multiset(d) && b != []
    ensures forall i :: 0 <= i < |b| ==> !Stronger(b[i], b[0])
  {
    StrongerIsOrder();
    if |d| == 1 {
      b := d;
    } else {
      var c := StrongestFirst(d[1..]);
      assert d == [d[0]] + d[1..];
      if Stronger(d[0], c[0]) {
        b := [d[0]] + c;
      } else {
        b := c + [d[0]];
      }
    }
  }

  lemma FullSlot(m: Groups, base: Groups, v: Group, done: set<string>, h: Group)
    requires Keyed(base) && IsSpare(m, base, v, done, h)
    ensures Keyed(m) && |m| == |base| + 1 && IsWeakest(m, h)
    ensures Displace(m, h.signature, h) == m - {h.signature} + map[h.signature := h]
    ensures m - {h.signature} == base
  {
    PutFacts(base, h);
  }

  /** One signature's claims in a row, the strongest first, leave at most its own spare group. */
  lemma Block(m: Groups, base: Groups, v: Group, done: set<string>, d: seq<Group>, r: string, cap: nat)
    requires Keyed(base) && cap >= 1 && |base| == cap - 1
    requires Slot(m, base, v, done) && r !in done && r !in base
    requires d != [] && (forall i :: 0 <= i < |d| ==> d[i].signature == r && !Stronger(d[i], d[0]))
    requires r in Sigs(d) && Low(Merged(d, r), base, v)
    ensures Keyed(m) && Slot(RunFrom(m, d, cap), base, v, done + {r})
  {
    StrongerIsOrder();
    var t := d[1..];
    assert d == [d[0]] + t;
    if m == base {
      Enter(base, base, d, r, cap);
      assert IsSpare(RunFrom(m, d, cap), base, v, done + {r}, Merged(d, r));
    } else {
      var h: Group :| IsSpare(m, base, v, done, h);
      FullSlot(m, base, v, done, h);
      WeakestUnique(m, Weakest(m), h);
      if Stronger(d[0], h) {
        Enter(m, base, d, r, cap);
        assert IsSpare(RunFrom(m, d, cap), base, v, done + {r}, Merged(d, r));
      } else {
        assert Stronger(h, d[0]);
        forall i | 0 <= i < |d| ensures d[i].signature !in m && !Stronger(d[i], h) {
        }
        AllRejected(m, d, cap);
        assert IsSpare(m, base, v, done + {r}, h);
      }
    }
  }

  /** The first claim gets in, next to base alone, and the rest are absorbed. */
  lemma Enter(m: Groups, base: Groups, d: seq<Group>, r: string, cap: nat)
    requires Keyed(m) && Keyed(base) && cap >= 1 && |base| == cap - 1 && r !in m && r !in base
    requires d != [] && (forall i :: 0 <= i < |d| ==> d[i].signature == r) && r in Sigs(d)
    requires m == base || (|m| >= cap && Stronger(d[0], Weakest(m)) && m - {Weakest(m).signature} == base)
    ensures RunFrom(m, d, cap) == base[r := Merged(d, r)]
  {
    var one, t := [d[0]], d[1..];
    assert d == one + t;
    EnterFirst(m, base, d[0], cap);
    RunAppend(m, one, t, cap);
    EnterRest(base, d[0], t, r, cap);
  }

  lemma EnterRest(base: Groups, g: Group, t: seq<Group>, r: string, cap: nat)
    requires Keyed(base) && cap >= 1 && g.signature == r
    requires forall i :: 0 <= i < |t| ==> t[i].signature == r
    ensures Keyed(base[r := g]) && r in Sigs([g] + t)
    ensures RunFrom(base[r := g], t, cap) == base[r := Merged([g] + t, r)]
  {
    Single(g);
    PutFacts(base, g);
    AllAbsorbed(base[r := g], [g], t, cap, r);
  }

  lemma EnterFirst(m: Groups, base: Groups, g: Group, cap: nat)
    requires Keyed(m) && Keyed(base) && cap >= 1 && |base| == cap - 1 && g.signature !in m
    requires m == base || (|m| >= cap && Stronger(g, Weakest(m)) && m - {Weakest(m).signature} == base)
    ensures RunFrom(m, [g], cap) == base[g.signature := g]
  {
    assert [g][..0] == [];
    assert RunFrom(m, [g], cap) == Step(m, g, cap);
  }

  lemma Single(g: Group)
    ensures g.signature in Sigs([g]) && Merged([g], g.signature) == g
  {
    assert g in [g];
    assert [g][..0] == [];
    assert Sigs([]) == {};
  }

  lemma Alike(d: seq<Group>, e: seq<Group>, s: string)
    requires multiset(d) == multiset(e) && s in Sigs(d)
    ensures s in Sigs(e) && SameClaim(Merged(d, s), Merged(e, s))
  {
    SameMultisetSameElements(d, e);
    MergedOfPermutation(d, e, s);
  }

  lemma OneBlock(m: Groups, base: Groups, v: Group, done: set<string>, rest: seq<Group>, r: string, cap: nat)
    returns (d: seq<Group>)
    requires Keyed(base) && cap >= 1 && |base| == cap - 1
    requires Slot(m, base, v, done) && r !in done && r !in base
    requires r in Sigs(rest) && Low(Merged(rest, r), base, v)
    ensures d != [] && multiset(d) == multiset(Keep(rest, {r}))
    ensures Keyed(m) && Slot(RunFrom(m, d, cap), base, v, done + {r})
  {
    var mine := Keep(rest, {r});
    KeepMerged(rest, {r}, r);
    var i := SigAt(mine, r);
    d := StrongestFirst(mine);
    Alike(mine, d, r);
    LowMono(Merged(rest, r), Merged(d, r), base, v);
    AllOf(rest, r, d);
    Block(m, base, v, done, d, r, cap);
  }

  lemma AllOf(rest: seq<Group>, r: string, d: seq<Group>)
    requires multiset(d) == multiset(Keep(rest, {r}))
    ensures forall i :: 0 <= i < |d| ==> d[i].signature == r
  {
    KeepElements(rest, {r});
    SameMultisetSameElements(d, Keep(rest, {r}));
    forall i | 0 <= i < |d| ensures d[i].signature == r {
      assert d[i] in Elements(d);
    }
  }

  /** Every signature of rest, one after the other, leaves at most one spare group. */
  lemma {:induction false} Blocks(m: Groups, base: Groups, v: Group, done: set<string>, rest: seq<Group>, cap: nat)
    returns (q: seq<Group>)
    requires Keyed(base) && Keyed(m) && cap >= 1 && |base| == cap - 1 && Slot(m, base, v, done)
    requires Sigs(rest) !! done && Sigs(rest) !! base.Keys
    requires forall s :: s in Sigs(rest) ==> Low(Merged(rest, s), base, v)
    ensures multiset(q) == multiset(rest)
    ensures Slot(RunFrom(m, q, cap), base, v, done + Sigs(rest))
    decreases |rest|
  {
    if rest == [] {
      q := [];
      assert done + Sigs(rest) == done;
    } else {
      var r := rest[0].signature;
      assert rest[0] in rest;
      var others := Sigs(rest) - {r};
      var left := Keep(rest, others);
      var d := OneBlock(m, base, v, done, rest, r, cap);
      KeepSplits(rest, {r}, others);
      KeepElements(rest, others);
      forall s | s in Sigs(left) ensures Low(Merged(left, s), base, v) {
        KeepMerged(rest, others, s);
      }
      LeftShorter(rest, d, left);
      assert Sigs(left) == others;
      var q1 := Blocks(RunFrom(m, d, cap), base, v, done + {r}, left, cap);
      q := d + q1;
      RunAppend(m, d, q1, cap);
      assert done + {r} + others == done + Sigs(rest);
    }
  }

  lemma LeftShorter(rest: seq<Group>, mine: seq<Group>, left: seq<Group>)
    requires multiset(mine) + multiset(left) == multiset(rest) && mine != []
    ensures |left| < |rest|
  {
    assert |multiset(mine)| == |mine| && |multiset(left)| == |left| && |multiset(rest)| == |rest|;
  }

  lemma {:induction false} Stays(m: Groups, d: seq<Group>, u: string, cap: nat)
    requires Keyed(m) && cap >= 1 && u in m
    requires forall i :: 0 <= i < |d| ==> d[i].signature == u
    ensures u in RunFrom(m, d, cap)
    decreases |d|
  {
    if d != [] {
      Stays(m, d[..|d| - 1], u, cap);
    }
  }

  /** Base and one low spare group leave room for v's signature, strongest claim first. */
  lemma LastEnters(m: Groups, base: Groups, v: Group, done: set<string>, d: seq<Group>, cap: nat)
    requires Keyed(base) && cap >= 1 && |base| == cap - 1 && Slot(m, base, v, done)
    requires v.signature !in base && v.signature !in done
    requires d != [] && forall i :: 0 <= i < |d| ==> d[i].signature == v.signature && !Stronger(d[i], d[0])
    requires exists i :: 0 <= i < |d| && AtLeast(d[i], v)
    ensures Keyed(m) && v.signature in RunFrom(m, d, cap)
  {
    var one := [d[0]];
    assert d == one + d[1..];
    if m == base {
      EnterFirst(m, base, d[0], cap);
    } else {
      var h: Group :| IsSpare(m, base, v, done, h);
      FullSlot(m, base, v, done, h);
      WeakestUnique(m, Weakest(m), h);
      var i :| 0 <= i < |d| && AtLeast(d[i], v);
      StrongerMono(v, h, d[i], h);
      FirstBeats(d[0], d[i], h);
      EnterFirst(m, base, d[0], cap);
    }
    RunAppend(m, one, d[1..], cap);
    Stays(RunFrom(m, one, cap), d[1..], v.signature, cap);
  }

  lemma FirstBeats(b: Group, g: Group, h: Group)
    requires !Stronger(g, b) && Stronger(g, h) && g.signature == b.signature != h.signature
    ensures Stronger(b, h)
  {
    StrongerIsOrder();
  }

  /** Feed the rest of K, then everything else in blocks, then u: it always finds room. */
  lemma KeepingOrder(stream: seq<Group>, K: set<string>, cap: nat, u: string) returns (q: seq<Group>)
    requires cap >= 1 && IsTop(stream, K, cap) && |K| == cap && u in K
    ensures multiset(q) == multiset(stream) && u in Run(q, cap)
  {
    var v := Merged(stream, u);
    var T := Sigs(stream) - K;
    var others := K - {u};
    var base := Finals(stream, others);
    BaseFirst(stream, others, cap);
    var q1 := RestAfter(stream, K, cap, u);
    var d := OwnClaims(stream, u);
    LastEnters(RunFrom(base, q1, cap), base, v, T, d, cap);
    var a := Keep(stream, others);
    q := a + (q1 + d);
    RunAppend(map[], a, q1 + d, cap);
    RunAppend(base, q1, d, cap);
    ThreeParts(stream, others, {u}, T);
  }

  lemma BaseFirst(stream: seq<Group>, others: set<string>, cap: nat)
    requires cap >= 1 && others <= Sigs(stream) && |others| <= cap
    ensures Run(Keep(stream, others), cap) == Finals(stream, others)
    ensures |Finals(stream, others)| == |others|
  {
    FinalsFirst(stream, others, cap);
    assert |Finals(stream, others)| == |Finals(stream, others).Keys|;
  }

  lemma RestAfter(stream: seq<Group>, K: set<string>, cap: nat, u: string) returns (q: seq<Group>)
    requires cap >= 1 && IsTop(stream, K, cap) && |K| == cap && u in K
    ensures multiset(q) == multiset(Keep(stream, Sigs(stream) - K))
    ensures Slot(RunFrom(Finals(stream, K - {u}), q, cap), Finals(stream, K - {u}), Merged(stream, u), Sigs(stream) - K)
    ensures |Finals(stream, K - {u})| == cap - 1
  {
    var base, rest := Finals(stream, K - {u}), Keep(stream, Sigs(stream) - K);
    BaseFirst(stream, K - {u}, cap);
    RestIsLow(stream, K, cap, u, rest);
    q := Blocks(base, base, Merged(stream, u), {}, rest, cap);
    assert {} + Sigs(rest) == Sigs(stream) - K;
  }

  lemma OwnClaims(stream: seq<Group>, u: string) returns (d: seq<Group>)
    requires u in Sigs(stream)
    ensures multiset(d) == multiset(Keep(stream, {u})) && d != []
    ensures forall i :: 0 <= i < |d| ==> d[i].signature == u && !Stronger(d[i], d[0])
    ensures exists i :: 0 <= i < |d| && AtLeast(d[i], Merged(stream, u))
  {
    var mine := Keep(stream, {u});
    KeepMerged(stream, {u}, u);
    var i := SigAt(mine, u);
    d := StrongestFirst(mine);
    AllOf(stream, u, d);
    MergedBelowSome(mine, u);
    var f :| f in mine && AtLeast(f, Merged(mine, u));
    SameMultisetSameElements(d, mine);
    var j :| 0 <= j < |d| && d[j] == f;
  }

  lemma RestIsLow(stream: seq<Group>, K: set<string>, cap: nat, u: string, rest: seq<Group>)
    requires IsTop(stream, K, cap) && u in K && rest == Keep(stream, Sigs(stream) - K)
    ensures Sigs(rest) == Sigs(stream) - K
    ensures forall s :: s in Sigs(rest) ==> Low(Merged(rest, s), Finals(stream, K - {u}), Merged(stream, u))
  {
    var T := Sigs(stream) - K;
    KeepElements(stream, T);
    assert Sigs(stream) * T == T;
    forall s | s in Sigs(rest) ensures Low(Merged(rest, s), Finals(stream, K - {u}), Merged(stream, u)) {
      KeepMerged(stream, T, s);
    }
  }

  lemma ThreeParts(stream: seq<Group>, a: set<string>, b: set<string>, c: set<string>)
    requires Sigs(stream) <= a + b + c && a !! b !! c
    ensures multiset(Keep(stream, a)) + multiset(Keep(stream, b)) + multiset(Keep(stream, c)) == multiset(stream)
  {
    KeepUnion(stream, a, b);
    KeepSplits(stream, a + b, c);
  }

  lemma {:induction false} KeepUnion(stream: seq<Group>, a: set<string>, b: set<string>)
    requires a !! b
    ensures multiset(Keep(stream, a)) + multiset(Keep(stream, b)) == multiset(Keep(stream, a + b))
    decreases |stream|
  {
    if stream != [] {
      KeepUnion(stream[..|stream| - 1], a, b);
    }
  }

  // ----- the theorem -----

  /** Whatever the order of arrival, the same signatures end up retained. */
  ghost predicate OrderIndependent(stream: seq<Group>, cap: nat)
    requires cap >= 1
  {
    forall p, q :: multiset(p) == multiset(stream) && multiset(q) == multiset(stream) ==>
      Run(p, cap).Keys == Run(q, cap).Keys
  }

  /** A claim in the gap gives two orders that retain different signatures. */
  lemma OrdersDiffer(stream: seq<Group>, K: set<string>, cap: nat, t: string, f: Group)
    returns (p: seq<Group>, q: seq<Group>)
    requires cap >= 1 && IsTop(stream, K, cap)
    requires t in K && f in stream && f.signature !in K && !Stronger(Merged(stream, t), f)
    ensures multiset(p) == multiset(stream) && multiset(q) == multiset(stream)
    ensures Run(p, cap).Keys != Run(q, cap).Keys
  {
    TopIsFull(stream, K, cap, f);
    var u := WeakestTop(stream, K);
    WeakerStill(f, Merged(stream, t), Merged(stream, u), Finals(stream, K));
    p := LosingOrder(stream, K, cap, u, f);
    q := KeepingOrder(stream, K, cap, u);
  }

  lemma WeakerStill(f: Group, t: Group, u: Group, w: Groups)
    requires IsWeakest(w, u) && t.signature in w && w[t.signature] == t
    requires !Stronger(t, f) && f.signature != t.signature
    ensures Stronger(f, u)
  {
    StrongerIsOrder();
  }

  lemma TopIsFull(stream: seq<Group>, K: set<string>, cap: nat, f: Group)
    requires IsTop(stream, K, cap) && f in stream && f.signature !in K
    ensures |K| == cap
  {
    assert f.signature in Sigs(stream);
    SubsetSize(K, Sigs(stream));
  }

  /** A bucket retains the same signatures in every arrival order if and only if no claim about a
      signature outside the consolidated top cap is as strong as a consolidation inside it; and
      then it retains exactly that top. */
  lemma RetentionIsOrderIndependentIff(stream: seq<Group>, K: set<string>, cap: nat)
    requires cap >= 1 && IsTop(stream, K, cap)
    ensures OrderIndependent(stream, cap) <==> Gap(stream, K)
    ensures Gap(stream, K) ==> forall p :: multiset(p) == multiset(stream) ==> Run(p, cap).Keys == K
  {
    if Gap(stream, K) {
      forall p | multiset(p) == multiset(stream) ensures Run(p, cap).Keys == K {
        SameMultisetSameElements(p, stream);
        SigsOfPermutation(p, stream);
        GapOfPermutation(stream, p, K);
        GapRetains(p, K, cap);
      }
    } else {
      var t, f :| t in K && f in stream && f.signature !in K && !Stronger(Merged(stream, t), f);
      var p, q := OrdersDiffer(stream, K, cap, t, f);
    }
  }

  /** The consolidated top of a stream: drop the weakest until cap are left. */
  ghost function TopOf(m: Groups, cap: nat): (r: Groups)
    requires Keyed(m)
    decreases |m|
  {
    if |m| <= cap then m
    else
      var w := Weakest(m).signature;
      LessOne(m, w);
      TopOf(m - {w}, cap)
  }

  lemma LessOne(m: Groups, w: string)
    requires Keyed(m) && w in m
    ensures Keyed(m - {w}) && |m - {w}| == |m| - 1
  {
    assert (m - {w}).Keys == m.Keys - {w};
    assert |m - {w}| == |(m - {w}).Keys| && |m| == |m.Keys|;
  }

  lemma {:induction false} TopOfIsTop(m: Groups, cap: nat)
    requires Keyed(m)
    ensures TopOf(m, cap).Keys <= m.Keys && |TopOf(m, cap)| == if |m| <= cap then |m| else cap
    ensures forall k :: k in TopOf(m, cap) ==> TopOf(m, cap)[k] == m[k]
    ensures forall u, s :: u in TopOf(m, cap) && s in m && s !in TopOf(m, cap) ==> Stronger(m[u], m[s])
    decreases |m|
  {
    if |m| > cap {
      var w := Weakest(m);
      LessOne(m, w.signature);
      TopOfIsTop(m - {w.signature}, cap);
    }
  }

  lemma TopExists(stream: seq<Group>, cap: nat)
    ensures TopOf(Consolidated(stream), cap).Keys <= Sigs(stream)
    ensures IsTop(stream, TopOf(Consolidated(stream), cap).Keys, cap)
  {
    var m := Consolidated(stream);
    assert m.Keys == Sigs(stream) && |m| == |m.Keys|;
    TopOfIsTop(m, cap);
    var r := TopOf(m, cap);
    assert |r| == |r.Keys|;
  }

  ghost predicate Distinct(stream: seq<Group>) {
    forall i, j :: 0 <= i < j < |stream| ==> stream[i].signature != stream[j].signature
  }

  /** Streaming eviction is exact selection when no signature repeats: after any arrival order the
      bucket holds precisely the cap strongest claims, each as it arrived. */
  lemma DistinctStreamKeepsStrongest(stream: seq<Group>, p: seq<Group>, cap: nat)
    requires cap >= 1 && multiset(p) == multiset(stream) && Distinct(stream)
    ensures Run(p, cap) == TopOf(Consolidated(stream), cap)
    ensures forall i :: 0 <= i < |stream| ==>
              stream[i].signature in Sigs(stream) && Consolidated(stream)[stream[i].signature] == stream[i]
  {
    forall i | 0 <= i < |stream|
      ensures stream[i].signature in Sigs(stream) && Merged(stream, stream[i].signature) == stream[i]
    {
      MergedDistinct(stream, stream, i);
    }
    DistinctRun(stream, p, cap);
  }

  lemma DistinctRun(stream: seq<Group>, p: seq<Group>, cap: nat)
    requires cap >= 1 && multiset(p) == multiset(stream) && Distinct(stream)
    ensures Run(p, cap) == TopOf(Consolidated(stream), cap)
  {
    var top := TopOf(Consolidated(stream), cap);
    DistinctKeys(stream, p, cap);
    TopOfIsTop(Consolidated(stream), cap);
    forall u | u in top.Keys ensures Run(p, cap)[u] == top[u] {
      DistinctValue(stream, p, top.Keys, cap, u);
    }
  }

  lemma DistinctKeys(stream: seq<Group>, p: seq<Group>, cap: nat)
    requires cap >= 1 && multiset(p) == multiset(stream) && Distinct(stream)
    ensures var K := TopOf(Consolidated(stream), cap).Keys;
            IsTop(stream, K, cap) && K <= Sigs(p) && Gap(p, K) && Run(p, cap).Keys == K
  {
    var K := TopOf(Consolidated(stream), cap).Keys;
    TopExists(stream, cap);
    DistinctGap(stream, K, cap);
    RetentionIsOrderIndependentIff(stream, K, cap);
    SameMultisetSameElements(p, stream);
    GapOfPermutation(stream, p, K);
  }

  lemma DistinctGap(stream: seq<Group>, K: set<string>, cap: nat)
    requires Distinct(stream) && IsTop(stream, K, cap)
    ensures Gap(stream, K)
  {
    forall u, f | u in K && f in stream && f.signature !in K ensures Stronger(Merged(stream, u), f) {
      var i :| 0 <= i < |stream| && stream[i] == f;
      MergedDistinct(stream, stream, i);
      assert f.signature in Sigs(stream);
    }
  }

  lemma DistinctValue(stream: seq<Group>, p: seq<Group>, K: set<string>, cap: nat, u: string)
    requires cap >= 1 && multiset(p) == multiset(stream) && Distinct(stream)
    requires IsTop(stream, K, cap) && u in K && K <= Sigs(p) && Gap(p, K)
    ensures u in Run(p, cap) && Run(p, cap)[u] == Merged(stream, u)
  {
    SameMultisetSameElements(p, stream);
    var i := SigAt(stream, u);
    MergedDistinct(stream, stream, i);
    assert stream[i] in p;
    MergedDistinct(stream, p, i);
    assert Uniform(p, u);
    GapConsolidates(p, K, cap, u);
  }

  lemma {:induction false} MergedDistinct(stream: seq<Group>, p: seq<Group>, i: nat)
    requires i < |stream| && stream[i] in p && multiset(p) <= multiset(stream) && Distinct(stream)
    ensures stream[i].signature in Sigs(p) && Merged(p, stream[i].signature) == stream[i]
    decreases |p|
  {
    var n := |p| - 1;
    var pre, g := p[..n], p[n];
    assert p == pre + [g];
    assert stream[i].signature in Sigs(p);
    MergedSnoc(pre, g, stream[i].signature);
    OnlyOne(stream, pre, g);
    if g != stream[i] {
      assert g in multiset(p);
      assert g in stream;
      MergedDistinct(stream, pre, i);
    }
  }

  lemma OnlyOne(stream: seq<Group>, pre: seq<Group>, g: Group)
    requires multiset(pre + [g]) <= multiset(stream) && Distinct(stream)
    ensures g.signature !in Sigs(pre)
  {
    assert NoDup(stream);
    NoDupCount(stream);
    var all := multiset(pre) + multiset{g};
    assert multiset(pre + [g]) == all;
    forall f | f in pre ensures f.signature != g.signature {
      assert f in multiset(pre);
      assert f in all && g in all;
      assert f in stream && g in stream;
      assert all[f] >= if f == g then 2 else 1;
      assert multiset(stream)[f] <= 1;
    }
  }
}
