/** The candidate builder: union-find, grouping, one candidate per class, sort and cut. */
module ChainCandidates {
  import opened Basics
  import opened FirstBy
  import opened Ordering
  import opened Graphs
  import opened DisjointSets
  import opened ChainModel
  import opened ChainComponents
  import opened ChainBuild

  ghost function CandidateAt(digest: Digest, relations: seq<Relation>, rep: map<string, string>, k: string,
                             views: map<string, View>, limits: Limits): Option<Candidate>
    requires limits.maxChainLength > 0
  {
    CandidateFor(digest, Class(rep, k), relations, views, limits)
  }

  /** The candidates of the classes with roots in ks. */
  ghost function CandidatesAt(digest: Digest, relations: seq<Relation>, rep: map<string, string>, ks: set<string>,
                              views: map<string, View>, limits: Limits): set<Candidate>
    requires limits.maxChainLength > 0
  {
    set k | k in ks && CandidateAt(digest, relations, rep, k, views, limits).Some?
      :: CandidateAt(digest, relations, rep, k, views, limits).value
  }

  lemma RootsAreComponents(digest: Digest, relations: seq<Relation>, rep: map<string, string>,
                           views: map<string, View>, limits: Limits)
    requires limits.maxChainLength > 0 && Classifies(rep, Graph(relations))
    ensures CandidatesAt(digest, relations, rep, rep.Values, views, limits)
         == AllCandidates(digest, relations, views, limits)
  {
    var e := Graph(relations);
    forall c | c in Components(relations) ensures exists k :: k in rep.Values && Class(rep, k) == c {
      var x :| x in Nodes(e) && c == Component(e, x);
      ClassIsComponent(rep, e, x);
      assert rep[x] in rep.Values;
    }
    forall k | k in rep.Values ensures Class(rep, k) in Components(relations) {
      var x :| x in rep && rep[x] == k;
      ClassIsComponent(rep, e, x);
    }
  }

  /** Candidates of different classes differ: they list different findings. */
  lemma DifferentRoots(digest: Digest, relations: seq<Relation>, rep: map<string, string>, j: string, k: string,
                       views: map<string, View>, limits: Limits)
    requires limits.maxChainLength > 0 && j != k
    requires CandidateAt(digest, relations, rep, j, views, limits).Some?
    ensures CandidateAt(digest, relations, rep, j, views, limits) != CandidateAt(digest, relations, rep, k, views, limits)
  {
    if CandidateAt(digest, relations, rep, k, views, limits).Some? {
      ListedFacts(digest, Class(rep, j), relations, views, limits);
      ListedFacts(digest, Class(rep, k), relations, views, limits);
      var a := CandidateAt(digest, relations, rep, j, views, limits).value.findingIds;
      var b := CandidateAt(digest, relations, rep, k, views, limits).value.findingIds;
      assert a[0] in Elements(a) && b[0] in Elements(b);
      assert a[0] !in Elements(b);
    }
  }

  lemma GroupFor(relations: seq<Relation>, rep: map<string, string>, groups: map<string, seq<string>>,
                 byRoot: map<string, seq<Relation>>, k: string)
    requires Classifies(rep, Graph(relations))
    requires Grouped(groups, Mentioned(relations), FindingRoot(rep)) && k in groups
    requires Grouped(byRoot, relations, RelationRoot(rep))
    ensures NoDup(groups[k]) && Elements(groups[k]) == Class(rep, k)
    ensures (if k in byRoot then byRoot[k] else []) == Pick(relations, RelationRoot(rep), k)
  {
    MentionedFacts(relations);
    PickFindings(Mentioned(relations), rep, k);
    assert forall x :: x in Mentioned(relations) <==> x in rep by {
      assert forall x :: x in Elements(Mentioned(relations)) <==> x in rep.Keys;
    }
    if k !in byRoot {
      PickEmpty(relations, RelationRoot(rep), k);
    }
  }

  lemma GroupKeys(relations: seq<Relation>, rep: map<string, string>, groups: map<string, seq<string>>)
    requires Classifies(rep, Graph(relations))
    requires Grouped(groups, Mentioned(relations), FindingRoot(rep))
    ensures groups.Keys == rep.Values
  {
    MentionedFacts(relations);
    var m := Mentioned(relations);
    forall k | k in groups ensures k in rep.Values {
      GroupHasMember(m, rep, k);
    }
    forall k | k in rep.Values ensures k in groups {
      GroupCovers(m, rep, groups, k);
    }
  }

  lemma GroupCovers(m: seq<string>, rep: map<string, string>, groups: map<string, seq<string>>, k: string)
    requires Elements(m) == rep.Keys && Grouped(groups, m, FindingRoot(rep)) && k in rep.Values
    ensures k in groups
  {
    var x :| x in rep && rep[x] == k;
    assert x in Elements(m);
    var i :| 0 <= i < |m| && m[i] == x;
    assert FindingRoot(rep)(m[i]) == k;
  }

  lemma GroupHasMember(m: seq<string>, rep: map<string, string>, k: string)
    requires NoDup(m) && Elements(m) == rep.Keys && Pick(m, FindingRoot(rep), k) != []
    ensures k in rep.Values
  {
    PickFindings(m, rep, k);
    var p := Pick(m, FindingRoot(rep), k);
    var x := p[0];
    assert x in Elements(p);
    assert rep[x] == k;
  }

  /** out holds the candidates of the classes done so far, each once. */
  ghost predicate Collected(digest: Digest, relations: seq<Relation>, rep: map<string, string>, done: set<string>,
                            views: map<string, View>, limits: Limits, out: seq<Candidate>)
    requires limits.maxChainLength > 0
  {
    NoDup(out) && Elements(out) == CandidatesAt(digest, relations, rep, done, views, limits)
  }

  lemma FreshCandidate(digest: Digest, relations: seq<Relation>, rep: map<string, string>, done: set<string>, k: string,
                       views: map<string, View>, limits: Limits, out: seq<Candidate>)
    requires limits.maxChainLength > 0 && k !in done && Collected(digest, relations, rep, done, views, limits, out)
    requires CandidateAt(digest, relations, rep, k, views, limits).Some?
    ensures CandidateAt(digest, relations, rep, k, views, limits).value !in out
  {
    var o := CandidateAt(digest, relations, rep, k, views, limits).value;
    if o in out {
      assert o in Elements(out);
      var j :| j in done && CandidateAt(digest, relations, rep, j, views, limits) == Some(o);
      DifferentRoots(digest, relations, rep, j, k, views, limits);
    }
  }

  lemma MoreDone(digest: Digest, relations: seq<Relation>, rep: map<string, string>, done: set<string>, k: string,
                 views: map<string, View>, limits: Limits)
    requires limits.maxChainLength > 0
    ensures CandidatesAt(digest, relations, rep, done + {k}, views, limits)
         == CandidatesAt(digest, relations, rep, done, views, limits)
            + match CandidateAt(digest, relations, rep, k, views, limits) case Some(c) => {c} case None => {}
  {
  }

  lemma AddCandidate(digest: Digest, relations: seq<Relation>, rep: map<string, string>, done: set<string>, k: string,
                     views: map<string, View>, limits: Limits, out: seq<Candidate>)
    requires limits.maxChainLength > 0 && k !in done && Collected(digest, relations, rep, done, views, limits, out)
    ensures var o := CandidateAt(digest, relations, rep, k, views, limits);
            Collected(digest, relations, rep, done + {k}, views, limits, if o.Some? then out + [o.value] else out)
  {
    MoreDone(digest, relations, rep, done, k, views, limits);
    var o := CandidateAt(digest, relations, rep, k, views, limits);
    if o.Some? {
      FreshCandidate(digest, relations, rep, done, k, views, limits, out);
      assert Elements(out + [o.value]) == Elements(out) + {o.value};
    }
  }

  lemma FinishList(digest: Digest, relations: seq<Relation>, views: map<string, View>, limits: Limits, out: seq<Candidate>)
    requires limits.maxChainLength > 0
    requires NoDup(out) && Elements(out) == AllCandidates(digest, relations, views, limits)
    ensures IsCandidateList(Take(Sort(out, CandidateLess), limits.maxCandidateChains), digest, relations, views, limits)
  {
    LexIsOrder();
    SortSortsIn(out, CandidateLess, Elements(out));
    SortPermutes(out, CandidateLess);
    NoDupFromMultiset(out, Sort(out, CandidateLess));
    assert IsFullList(Sort(out, CandidateLess), AllCandidates(digest, relations, views, limits));
  }

  /** The candidates of the classes with the given roots, in that order. */
  ghost function InOrder(digest: Digest, relations: seq<Relation>, rep: map<string, string>, roots: seq<string>,
                         views: map<string, View>, limits: Limits): seq<Candidate>
    requires limits.maxChainLength > 0
    decreases |roots|
  {
    if roots == [] then []
    else
      var n := |roots| - 1;
      With(InOrder(digest, relations, rep, roots[..n], views, limits),
           CandidateAt(digest, relations, rep, roots[n], views, limits))
  }

  lemma InOrderSnoc(digest: Digest, relations: seq<Relation>, rep: map<string, string>, roots: seq<string>, i: nat,
                    views: map<string, View>, limits: Limits)
    requires limits.maxChainLength > 0 && i < |roots|
    ensures InOrder(digest, relations, rep, roots[..i + 1], views, limits)
         == With(InOrder(digest, relations, rep, roots[..i], views, limits),
                 CandidateAt(digest, relations, rep, roots[i], views, limits))
  {
    assert roots[..i + 1][..i] == roots[..i];
  }

  function With(out: seq<Candidate>, o: Option<Candidate>): seq<Candidate> {
    match o case Some(c) => out + [c] case None => out
  }

  /** What the builder returns, tie by tie. */
  ghost function CandidateList(digest: Digest, relations: seq<Relation>, views: map<string, View>, limits: Limits): seq<Candidate>
    requires limits.maxChainLength > 0
  {
    var rep := UniteAll(Ends(relations));
    Take(Sort(InOrder(digest, relations, rep, SortedSet(rep.Values), views, limits), CandidateLess), limits.maxCandidateChains)
  }

  /** Adds the candidate of the class with root k, if it has one. */
  method AssembleOne(digest: Digest, relations: seq<Relation>, byRoot: map<string, seq<Relation>>,
                     groups: map<string, seq<string>>, views: map<string, View>, limits: Limits,
                     ghost rep: map<string, string>, ghost done: set<string>, k: string, before: seq<Candidate>)
    returns (out: seq<Candidate>, capped: bool)
    requires limits.maxChainLength > 0 && Classifies(rep, Graph(relations))
    requires Grouped(byRoot, relations, RelationRoot(rep))
    requires Grouped(groups, Mentioned(relations), FindingRoot(rep))
    requires k in groups && k !in done && Collected(digest, relations, rep, done, views, limits, before)
    ensures Collected(digest, relations, rep, done + {k}, views, limits, out)
    ensures out == With(before, CandidateAt(digest, relations, rep, k, views, limits))
    ensures capped <==> |Class(rep, k)| > limits.maxChainLength
  {
    GroupFor(relations, rep, groups, byRoot, k);
    PickedCandidate(digest, relations, rep, k, views, limits);
    AddCandidate(digest, relations, rep, done, k, views, limits, before);
    var c;
    c, capped := Assemble(digest, groups[k], if k in byRoot then byRoot[k] else [], views, limits);
    out := if c.Some? then before + [c.value] else before;
  }

  lemma CollectedNone(digest: Digest, relations: seq<Relation>, rep: map<string, string>, views: map<string, View>, limits: Limits)
    requires limits.maxChainLength > 0
    ensures Collected(digest, relations, rep, Elements([]), views, limits, [])
  {
  }

  lemma RootStep(roots: seq<string>, i: nat)
    requires i < |roots| && NoDup(roots)
    ensures roots[i] in Elements(roots) && roots[i] !in Elements(roots[..i])
    ensures Elements(roots[..i + 1]) == Elements(roots[..i]) + {roots[i]}
  {
    assert roots[..i + 1] == roots[..i] + [roots[i]];
  }

  /** Every class's candidate, classes in the order of their sorted roots. */
  method AssembleAll(digest: Digest, relations: seq<Relation>, byRoot: map<string, seq<Relation>>,
                     groups: map<string, seq<string>>, views: map<string, View>, limits: Limits,
                     ghost rep: map<string, string>) returns (out: seq<Candidate>, cut: bool)
    requires limits.maxChainLength > 0 && Classifies(rep, Graph(relations))
    requires Grouped(byRoot, relations, RelationRoot(rep))
    requires Grouped(groups, Mentioned(relations), FindingRoot(rep))
    ensures Collected(digest, relations, rep, groups.Keys, views, limits, out)
    ensures out == InOrder(digest, relations, rep, SortedSet(groups.Keys), views, limits)
    ensures cut <==> exists k :: k in groups.Keys && |Class(rep, k)| > limits.maxChainLength
  {
    out, cut := [], false;
    var roots := SortKeys(groups.Keys);
    CollectedNone(digest, relations, rep, views, limits);
    assert roots[..0] == [];
    for i := 0 to |roots|
      invariant Collected(digest, relations, rep, Elements(roots[..i]), views, limits, out)
      invariant out == InOrder(digest, relations, rep, roots[..i], views, limits)
      invariant cut <==> exists k :: k in Elements(roots[..i]) && |Class(rep, k)| > limits.maxChainLength
    {
      RootStep(roots, i);
      InOrderSnoc(digest, relations, rep, roots, i, views, limits);
      var capped;
      out, capped := AssembleOne(digest, relations, byRoot, groups, views, limits, rep, Elements(roots[..i]), roots[i], out);
      cut := cut || capped;
    }
    assert roots[..|roots|] == roots;
  }

  /** A component has too many findings, or there are too many candidates. */
  ghost predicate CandidatesCut(digest: Digest, relations: seq<Relation>, views: map<string, View>, limits: Limits)
    requires limits.maxChainLength > 0
  {
    || (exists c :: c in Components(relations) && |c| > limits.maxChainLength)
    || |AllCandidates(digest, relations, views, limits)| > limits.maxCandidateChains
  }

  lemma LongClasses(relations: seq<Relation>, rep: map<string, string>, limit: nat)
    requires Classifies(rep, Graph(relations))
    ensures (exists k :: k in rep.Values && |Class(rep, k)| > limit)
       <==> (exists c :: c in Components(relations) && |c| > limit)
  {
    var e := Graph(relations);
    if k :| k in rep.Values && |Class(rep, k)| > limit {
      var x :| x in rep && rep[x] == k;
      ClassIsComponent(rep, e, x);
      assert Class(rep, k) in Components(relations);
    }
    if c :| c in Components(relations) && |c| > limit {
      var x :| x in Nodes(e) && c == Component(e, x);
      ClassIsComponent(rep, e, x);
      assert rep[x] in rep.Values;
    }
  }

  lemma EndsKnown(relations: seq<Relation>, rep: map<string, string>)
    requires Classifies(rep, Graph(relations))
    ensures forall i :: 0 <= i < |relations| ==> relations[i].findingA in rep && relations[i].findingB in rep
  {
    forall i | 0 <= i < |relations| ensures relations[i].findingA in rep && relations[i].findingB in rep {
      RelationEnds(relations, relations[i]);
    }
  }

  /** The classes' candidates, sorted and cut, are the list. */
  lemma ListIs(digest: Digest, relations: seq<Relation>, rep: map<string, string>, views: map<string, View>, limits: Limits,
               all: seq<Candidate>)
    requires limits.maxChainLength > 0 && Classifies(rep, Graph(relations))
    requires Collected(digest, relations, rep, rep.Values, views, limits, all)
    ensures |all| == |AllCandidates(digest, relations, views, limits)| == |Sort(all, CandidateLess)|
    ensures IsCandidateList(Take(Sort(all, CandidateLess), limits.maxCandidateChains), digest, relations, views, limits)
  {
    RootsAreComponents(digest, relations, rep, views, limits);
    NoDupCount(all);
    SortPermutes(all, CandidateLess);
    assert |multiset(Sort(all, CandidateLess))| == |multiset(all)|;
    FinishList(digest, relations, views, limits, all);
  }

  /** One candidate per connected component of the relation graph, sorted and cut at the caps. */
  method BuildCandidates(digest: Digest, relations: seq<Relation>, views: map<string, View>, limits: Limits)
    returns (out: seq<Candidate>, truncated: bool)
    requires limits.maxChainLength > 0
    ensures IsCandidateList(out, digest, relations, views, limits)
    ensures out == CandidateList(digest, relations, views, limits)
    ensures truncated <==> CandidatesCut(digest, relations, views, limits)
  {
    var ds := UniteRelations(relations);
    ghost var rep := ds.rep;
    UniteAllClassifies(Ends(relations));
    EndsKnown(relations, rep);
    var byRoot := GroupRelations(ds, relations);
    var groups := GroupFindings(ds, relations);
    GroupKeys(relations, rep, groups);
    out, truncated := AssembleAll(digest, relations, byRoot, groups, views, limits, rep);
    LongClasses(relations, rep, limits.maxChainLength);
    ListIs(digest, relations, rep, views, limits, out);
    out := Sort(out, CandidateLess);
    if |out| > limits.maxCandidateChains {
      out := out[..limits.maxCandidateChains];
      truncated := true;
    }
  }
}
