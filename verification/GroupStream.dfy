/** A bucket's bounded map of groups as a fold over the stream of claims it is fed, and the
    exact condition under which what it retains does not depend on their order. */
module GroupStream {
  import opened Ordering
  import opened Findings

  type Groups = map<string, Group>

  ghost predicate Keyed(m: Groups) {
    forall k :: k in m ==> m[k].signature == k
  }

  ghost predicate IsWeakest(m: Groups, w: Group) {
    && w.signature in m && m[w.signature] == w
    && forall k :: k in m && k != w.signature ==> Stronger(m[k], w)
  }

  lemma {:induction false} WeakestExists(m: Groups)
    requires Keyed(m) && m != map[]
    ensures exists k :: k in m && IsWeakest(m, m[k])
    decreases |m|
  {
    StrongerIsOrder();
    var k :| k in m;
    var rest := m - {k};
    if rest == map[] {
      assert forall j :: j in m && j != k ==> j in rest;
      assert IsWeakest(m, m[k]);
    } else {
      assert |rest| < |m| by { assert rest.Keys == m.Keys - {k}; }
      WeakestExists(rest);
      var j :| j in rest && IsWeakest(rest, rest[j]);
      assert forall i :: i in m && i != k ==> i in rest && rest[i] == m[i];
      if Stronger(m[k], m[j]) {
        assert IsWeakest(m, m[j]);
      } else {
        forall i | i in m && i != k ensures Stronger(m[i], m[k]) {
          if i != j {
            assert i in rest;
          }
        }
        assert IsWeakest(m, m[k]);
      }
    }
  }

  /** The weakest group; some group should the map not be keyed by signature. */
  ghost function Weakest(m: Groups): (w: Group)
    requires m != map[]
    ensures Keyed(m) ==> IsWeakest(m, w)
  {
    if Keyed(m) then
      WeakestExists(m);
      var k :| k in m && IsWeakest(m, m[k]);
      m[k]
    else
      var k :| k in m;
      m[k]
  }

  lemma WeakestUnique(m: Groups, v: Group, w: Group)
    requires IsWeakest(m, v) && IsWeakest(m, w)
    ensures v == w
  {
    StrongerIsOrder();
  }

  /** Replace the group kept under w by g. */
  function Displace(m: Groups, w: string, g: Group): Groups {
    (m - {w})[g.signature := g]
  }

  lemma DisplaceFacts(m: Groups, w: string, g: Group)
    requires Keyed(m) && w in m && g.signature !in m
    ensures Keyed(Displace(m, w, g))
    ensures Displace(m, w, g).Keys == m.Keys - {w} + {g.signature}
    ensures |Displace(m, w, g)| == |m|
  {
    var r := Displace(m, w, g);
    assert r.Keys == m.Keys - {w} + {g.signature};
    assert |r| == |r.Keys| && |m| == |m.Keys|;
  }

  lemma PutFacts(m: Groups, g: Group)
    requires Keyed(m)
    ensures Keyed(m[g.signature := g])
    ensures m[g.signature := g].Keys == m.Keys + {g.signature}
    ensures |m[g.signature := g]| == if g.signature in m then |m| else |m| + 1
  {
    var r := m[g.signature := g];
    assert r.Keys == m.Keys + {g.signature};
    assert |r| == |r.Keys| && |m| == |m.Keys|;
  }

  /** One `ingest`: absorb a repeat, fill a free slot, or displace the weakest group. */
  ghost function Step(m: Groups, g: Group, cap: nat): (r: Groups)
    requires cap >= 1
  {
    if g.signature in m then m[g.signature := Absorb(m[g.signature], g)]
    else if |m| < cap then m[g.signature := g]
    else
      var w := Weakest(m);
      if Stronger(g, w) then Displace(m, w.signature, g) else m
  }

  lemma StepFacts(m: Groups, g: Group, cap: nat)
    requires Keyed(m) && cap >= 1
    ensures Keyed(Step(m, g, cap))
    ensures |m| <= cap ==> |Step(m, g, cap)| <= cap
    ensures Step(m, g, cap).Keys <= m.Keys + {g.signature}
  {
    if g.signature in m {
      PutFacts(m, Absorb(m[g.signature], g));
    } else if |m| < cap {
      PutFacts(m, g);
    } else if Stronger(g, Weakest(m)) {
      DisplaceFacts(m, Weakest(m).signature, g);
    }
  }

  ghost function RunFrom(m: Groups, stream: seq<Group>, cap: nat): (r: Groups)
    requires cap >= 1
    ensures Keyed(m) ==> Keyed(r)
    decreases |stream|
  {
    if stream == [] then m
    else
      var n := |stream| - 1;
      var before := RunFrom(m, stream[..n], cap);
      assert Keyed(before) ==> Keyed(Step(before, stream[n], cap)) by {
        if Keyed(before) { StepFacts(before, stream[n], cap); }
      }
      Step(RunFrom(m, stream[..n], cap), stream[n], cap)
  }

  ghost function Run(stream: seq<Group>, cap: nat): (r: Groups)
    requires cap >= 1
    ensures Keyed(r)
  {
    RunFrom(map[], stream, cap)
  }

  /** For every stream: never more than cap groups, and only of signatures that arrived. */
  lemma {:induction false} RunBounded(m: Groups, stream: seq<Group>, cap: nat)
    requires Keyed(m) && cap >= 1 && |m| <= cap
    ensures |RunFrom(m, stream, cap)| <= cap
    ensures RunFrom(m, stream, cap).Keys <= m.Keys + Sigs(stream)
    decreases |stream|
  {
    if stream != [] {
      var n := |stream| - 1;
      RunBounded(m, stream[..n], cap);
      StepFacts(RunFrom(m, stream[..n], cap), stream[n], cap);
      SigsSnoc(stream);
    }
  }

  lemma SigAt(stream: seq<Group>, s: string) returns (i: nat)
    requires s in Sigs(stream)
    ensures i < |stream| && stream[i].signature == s
  {
    var f :| f in stream && f.signature == s;
    i :| i < |stream| && stream[i] == f;
  }

  lemma {:induction false} RunAppend(m: Groups, a: seq<Group>, b: seq<Group>, cap: nat)
    requires Keyed(m) && cap >= 1
    ensures RunFrom(m, a + b, cap) == RunFrom(RunFrom(m, a, cap), b, cap)
    decreases |b|
  {
    if b == [] {
      assert a + b == a;
    } else {
      var n := |b| - 1;
      assert (a + b)[..|a + b| - 1] == a + b[..n];
      RunAppend(m, a, b[..n], cap);
    }
  }

  function Sigs(stream: seq<Group>): set<string> {
    set g | g in stream :: g.signature
  }

  /** The consolidation of every claim about s in the stream, in stream order. */
  function Merged(stream: seq<Group>, s: string): (g: Group)
    requires s in Sigs(stream)
    ensures g.signature == s
    decreases |stream|
  {
    var n := |stream| - 1;
    var last, pre := stream[n], stream[..n];
    assert stream == pre + [last];
    if last.signature != s then Merged(pre, s)
    else if s in Sigs(pre) then Absorb(Merged(pre, s), last)
    else last
  }

  ghost function Consolidated(stream: seq<Group>): (m: Groups)
    ensures Keyed(m)
  {
    map s | s in Sigs(stream) :: Merged(stream, s)
  }

  lemma SigsSnoc(stream: seq<Group>)
    requires stream != []
    ensures Sigs(stream) == Sigs(stream[..|stream| - 1]) + {stream[|stream| - 1].signature}
  {
    var n := |stream| - 1;
    assert stream == stream[..n] + [stream[n]];
  }

  // ----- what a consolidation says, without mentioning order -----

  /** g is the summary of the claims about s: the least confidence, the least recognised
      severity and the lexically least title claimed for it. */
  ghost predicate Summarises(g: Group, claims: set<Group>, s: string) {
    && g.signature == s
    && (exists f :: f in claims && f.signature == s && f.confidence == g.confidence)
    && (forall f :: f in claims && f.signature == s ==> g.confidence <= f.confidence)
    && (exists f :: f in claims && f.signature == s && Rank(f.severity) == Rank(g.severity))
    && (forall f :: f in claims && f.signature == s && Rank(f.severity) >= 0 ==>
          0 <= Rank(g.severity) <= Rank(f.severity))
    && (exists f :: f in claims && f.signature == s && f.title == g.title)
    && (forall f :: f in claims && f.signature == s ==> !LexLess(f.title, g.title))
  }

  lemma {:induction false} MergedSummarises(stream: seq<Group>, s: string)
    requires s in Sigs(stream)
    ensures Summarises(Merged(stream, s), Elements(stream), s)
    decreases |stream|
  {
    LexIsOrder();
    var n := |stream| - 1;
    var last, pre := stream[n], stream[..n];
    SigsSnoc(stream);
    assert stream == pre + [last];
    assert Elements(stream) == Elements(pre) + {last};
    if last.signature != s {
      MergedSummarises(pre, s);
    } else if s in Sigs(pre) {
      MergedSummarises(pre, s);
      SummaryAbsorbs(Merged(pre, s), Elements(pre), last);
    } else {
      assert forall f :: f in pre ==> f.signature in Sigs(pre);
      assert forall f :: f in Elements(stream) && f.signature == s ==> f == last;
    }
  }

  lemma SummaryAbsorbs(g: Group, claims: set<Group>, last: Group)
    requires Summarises(g, claims, last.signature)
    ensures Summarises(Absorb(g, last), claims + {last}, last.signature)
  {
    LexIsOrder();
    var s := last.signature;
    var r := Absorb(g, last);
    var all := claims + {last};
    assert last in all;
    assert exists f :: f in all && f.signature == s && f.confidence == r.confidence by {
      var f :| f in claims && f.signature == s && f.confidence == g.confidence;
      assert f in all;
    }
    assert exists f :: f in all && f.signature == s && Rank(f.severity) == Rank(r.severity) by {
      var f :| f in claims && f.signature == s && Rank(f.severity) == Rank(g.severity);
      assert f in all;
    }
    assert exists f :: f in all && f.signature == s && f.title == r.title by {
      var f :| f in claims && f.signature == s && f.title == g.title;
      assert f in all;
    }
  }

  predicate SameClaim(a: Group, b: Group) {
    && a.signature == b.signature && a.confidence == b.confidence
    && Rank(a.severity) == Rank(b.severity) && a.title == b.title
  }

  lemma SummaryUnique(a: Group, b: Group, claims: set<Group>, s: string)
    requires Summarises(a, claims, s) && Summarises(b, claims, s)
    ensures SameClaim(a, b)
  {
    LexIsOrder();
  }

  /** Consolidation within a signature does not depend on arrival order. */
  lemma MergedOfPermutation(p: seq<Group>, q: seq<Group>, s: string)
    requires Elements(p) == Elements(q) && s in Sigs(p)
    ensures s in Sigs(q) && SameClaim(Merged(p, s), Merged(q, s))
  {
    var f :| f in p && f.signature == s;
    assert f in Elements(p);
    assert f in q;
    MergedSummarises(p, s);
    MergedSummarises(q, s);
    SummaryUnique(Merged(p, s), Merged(q, s), Elements(p), s);
  }

  lemma SigsOfPermutation(p: seq<Group>, q: seq<Group>)
    requires Elements(p) == Elements(q)
    ensures Sigs(p) == Sigs(q)
  {
    forall s ensures s in Sigs(p) <==> s in Sigs(q) {
      if s in Sigs(p) {
        var f :| f in p && f.signature == s;
        assert f in Elements(p) && f in q;
      }
      if s in Sigs(q) {
        var f :| f in q && f.signature == s;
        assert f in Elements(q) && f in p;
      }
    }
  }

  // ----- within the bound nothing is ever evicted -----

  lemma ConsolidatedSnoc(pre: seq<Group>, last: Group)
    ensures Consolidated(pre + [last])
         == Consolidated(pre)[last.signature :=
              if last.signature in Sigs(pre) then Absorb(Merged(pre, last.signature), last) else last]
  {
    var stream := pre + [last];
    assert stream[..|stream| - 1] == pre && stream[|stream| - 1] == last;
    SigsSnoc(stream);
  }

  lemma {:induction false} SmallStreamConsolidates(stream: seq<Group>, cap: nat)
    requires cap >= 1 && |Sigs(stream)| <= cap
    ensures Run(stream, cap) == Consolidated(stream)
    decreases |stream|
  {
    if stream != [] {
      var n := |stream| - 1;
      var last, pre := stream[n], stream[..n];
      assert stream == pre + [last];
      SigsSnoc(stream);
      SubsetSize(Sigs(pre), Sigs(stream));
      SmallStep(pre, last, cap);
      SmallStreamConsolidates(pre, cap);
    }
  }

  lemma SmallStep(pre: seq<Group>, last: Group, cap: nat)
    requires cap >= 1 && |Sigs(pre + [last])| <= cap
    ensures Step(Consolidated(pre), last, cap) == Consolidated(pre + [last])
  {
    var m := Consolidated(pre);
    assert m.Keys == Sigs(pre);
    ConsolidatedSnoc(pre, last);
    SigsSnoc(pre + [last]);
    assert (pre + [last])[..|pre|] == pre;
    if last.signature !in m {
      FreeSlot(m, Sigs(pre + [last]), last);
    }
  }

  lemma FreeSlot(m: Groups, sigs: set<string>, g: Group)
    requires m.Keys <= sigs && g.signature in sigs && g.signature !in m
    ensures |m| < |sigs|
  {
    SubsetSize(m.Keys, sigs);
    assert |m| == |m.Keys|;
  }
}
