/** Building chain candidates with union-find, grouping maps and accumulators. */
module ChainBuild {
  import opened Basics
  import opened Ordering
  import opened Graphs
  import opened DisjointSets
  import opened ChainModel
  import opened ChainComponents

  /** The findings the relations mention, first occurrence first. */
  function Mentioned(relations: seq<Relation>): seq<string>
    decreases |relations|
  {
    if relations == [] then []
    else
      var n := |relations| - 1;
      AddNew(AddNew(Mentioned(relations[..n]), relations[n].findingA), relations[n].findingB)
  }

  function AddNew(ids: seq<string>, id: string): seq<string> {
    if id in ids then ids else ids + [id]
  }

  /** Grouping by root: each root keeps, in order, the items whose root it is. */
  ghost predicate Grouped<T>(groups: map<string, seq<T>>, items: seq<T>, rootOf: T -> string) {
    && (forall k :: k in groups ==> groups[k] == Pick(items, rootOf, k) && groups[k] != [])
    && (forall i :: 0 <= i < |items| ==> rootOf(items[i]) in groups)
  }

  function Pick<T>(items: seq<T>, rootOf: T -> string, k: string): seq<T>
    decreases |items|
  {
    if items == [] then []
    else
      var n := |items| - 1;
      var rest := Pick(items[..n], rootOf, k);
      if rootOf(items[n]) == k then rest + [items[n]] else rest
  }

  function Append<T>(groups: map<string, seq<T>>, k: string, item: T): map<string, seq<T>> {
    groups[k := (if k in groups then groups[k] else []) + [item]]
  }

  lemma {:induction false} PickEmpty<T>(items: seq<T>, rootOf: T -> string, k: string)
    requires forall i :: 0 <= i < |items| ==> rootOf(items[i]) != k
    ensures Pick(items, rootOf, k) == []
    decreases |items|
  {
    if items != [] {
      PickEmpty(items[..|items| - 1], rootOf, k);
    }
  }

  lemma GroupedAppend<T>(groups: map<string, seq<T>>, items: seq<T>, rootOf: T -> string, item: T)
    requires Grouped(groups, items, rootOf)
    ensures Grouped(Append(groups, rootOf(item), item), items + [item], rootOf)
  {
    var k := rootOf(item);
    var more := items + [item];
    assert more[..|more| - 1] == items;
    if k !in groups {
      PickEmpty(items, rootOf, k);
    }
    var g := Append(groups, k, item);
    forall j | j in g ensures g[j] == Pick(more, rootOf, j) && g[j] != [] {
    }
  }

  // ----- one component's candidate -----

  lemma WithinSnoc(relations: seq<Relation>, i: nat, s: set<string>)
    requires i < |relations|
    ensures Within(relations[..i + 1], s)
         == if relations[i].findingA in s && relations[i].findingB in s then Within(relations[..i], s) + [relations[i]]
            else Within(relations[..i], s)
  {
    assert relations[..i + 1][..i] == relations[..i];
  }

  lemma KindsSnoc(w: seq<Relation>, r: Relation)
    ensures Kinds(w + [r]) == Kinds(w) + {r.kind}
    ensures RelationIds(w + [r]) == RelationIds(w) + [r.id]
    ensures MaxConfidence(w + [r]) == if r.confidence > MaxConfidence(w) then r.confidence else MaxConfidence(w)
  {
    assert (w + [r])[..|w|] == w;
  }

  /** The relations between listed findings, with their kinds and greatest confidence. */
  method CollectRelations(relations: seq<Relation>, inSet: set<string>)
    returns (ids: seq<string>, kinds: set<RelationType>, confidence: real)
    ensures ids == RelationIds(Within(relations, inSet)) && kinds == Kinds(Within(relations, inSet))
    ensures confidence == MaxConfidence(Within(relations, inSet))
  {
    ids, kinds, confidence := [], {}, 0.0;
    for i := 0 to |relations|
      invariant ids == RelationIds(Within(relations[..i], inSet)) && kinds == Kinds(Within(relations[..i], inSet))
      invariant confidence == MaxConfidence(Within(relations[..i], inSet))
    {
      var r := relations[i];
      WithinSnoc(relations, i, inSet);
      if r.findingA !in inSet || r.findingB !in inSet {
        continue;
      }
      KindsSnoc(Within(relations[..i], inSet), r);
      ids := ids + [r.id];
      kinds := kinds + {r.kind};
      if r.confidence > confidence {
        confidence := r.confidence;
      }
    }
    assert relations[..|relations|] == relations;
  }

  lemma ViewsSnoc(ids: seq<string>, i: nat, views: map<string, View>)
    requires i < |ids|
    ensures Endpoints(ids[..i + 1], views)
         == Endpoints(ids[..i], views)
            + (if ids[i] in views && views[ids[i]].endpoint != "" then {DisplayEndpoint(views[ids[i]].finding)} else {})
    ensures VulnTypes(ids[..i + 1], views)
         == VulnTypes(ids[..i], views)
            + (if ids[i] in views then {NormalizeType(views[ids[i]].finding.vulnerabilityType)} else {})
  {
    assert ids[..i + 1] == ids[..i] + [ids[i]];
  }

  /** The endpoints, vulnerability types and identity of the listed findings. */
  method CollectFindings(ids: seq<string>, views: map<string, View>)
    returns (endpoints: set<string>, vulnTypes: set<string>, identity: string)
    ensures endpoints == Endpoints(ids, views) && vulnTypes == VulnTypes(ids, views)
    ensures identity == FirstIdentity(ids, views)
  {
    endpoints, vulnTypes, identity := {}, {}, "";
    var identitySet := false;
    for i := 0 to |ids|
      invariant endpoints == Endpoints(ids[..i], views) && vulnTypes == VulnTypes(ids[..i], views)
      invariant FirstIdentity(ids, views) == if identitySet then identity else FirstIdentity(ids[i..], views)
      invariant !identitySet ==> identity == ""
    {
      ViewsSnoc(ids, i, views);
      assert ids[i..][1..] == ids[i + 1..];
      if ids[i] !in views {
        continue;
      }
      var v := views[ids[i]];
      if v.endpoint != "" {
        endpoints := endpoints + {DisplayEndpoint(v.finding)};
      }
      vulnTypes := vulnTypes + {NormalizeType(v.finding.vulnerabilityType)};
      if !identitySet {
        identity, identitySet := v.identity, true;
      }
    }
    assert ids[..|ids|] == ids && ids[|ids|..] == [];
  }

  method NamesOf(kinds: set<RelationType>) returns (names: set<string>)
    ensures names == KindNames(kinds)
  {
    names := {};
    var rest := kinds;
    while rest != {}
      invariant rest <= kinds && names == KindNames(kinds - rest)
      decreases |rest|
    {
      var k :| k in rest;
      assert kinds - (rest - {k}) == (kinds - rest) + {k};
      names := names + {TypeName(k)};
      rest := rest - {k};
    }
    assert kinds - {} == kinds;
  }

  method Assemble(digest: Digest, members: seq<string>, relations: seq<Relation>, views: map<string, View>, limits: Limits)
    returns (r: Option<Candidate>, capped: bool)
    requires limits.maxChainLength > 0 && NoDup(members)
    ensures r == CandidateFor(digest, Elements(members), relations, views, limits)
    ensures capped <==> |Elements(members)| > limits.maxChainLength
  {
    NoDupCount(members);
    SortedSetOf(members);
    SortPermutes(members, LexLess);
    var ids := SortStrings(members);
    capped := false;
    if |ids| > limits.maxChainLength {
      ids := ids[..limits.maxChainLength];
      capped := true;
    }
    var inSet := Elements(ids);
    var relIds, kinds, confidence := CollectRelations(relations, inSet);
    if |relIds| == 0 {
      return None, capped;
    }
    if ids == [] {
      NoneWithin(relations);
      return None, capped;
    }
    var endpoints, vulnTypes, identity := CollectFindings(ids, views);
    var names := NamesOf(kinds);
    var endpointList := SortKeys(endpoints);
    var reasons := SortKeys(names);
    r := Some(Candidate(
      CandidateId(digest, ids), if ids[0] in views then views[ids[0]].scanId else "", identity, ids,
      SortStrings(relIds), endpointList, ClassifyStatus(kinds), confidence,
      Impact(|ids|, |vulnTypes|, |endpoints|, capped), reasons));
  }

  lemma {:induction false} NoneWithin(relations: seq<Relation>)
    ensures Within(relations, {}) == []
    decreases |relations|
  {
    if relations != [] {
      NoneWithin(relations[..|relations| - 1]);
    }
  }

  // ----- classes and components -----

  function RootOf(rep: map<string, string>, x: string): string {
    if x in rep then rep[x] else ""
  }

  function RelationRoot(rep: map<string, string>): Relation -> string {
    (r: Relation) => RootOf(rep, r.findingA)
  }

  function FindingRoot(rep: map<string, string>): string -> string {
    (x: string) => RootOf(rep, x)
  }

  lemma {:induction false} MentionedFacts(relations: seq<Relation>)
    ensures NoDup(Mentioned(relations)) && Elements(Mentioned(relations)) == Nodes(Graph(relations))
    decreases |relations|
  {
    if relations == [] {
      assert Ends(relations) == [];
    } else {
      var n := |relations| - 1;
      var r := relations[n];
      MentionedFacts(relations[..n]);
      var m := Mentioned(relations[..n]);
      AddNewFacts(m, r.findingA);
      AddNewFacts(AddNew(m, r.findingA), r.findingB);
      GraphSnoc(relations, n);
    }
  }

  lemma GraphSnoc(relations: seq<Relation>, n: nat)
    requires n == |relations| - 1
    ensures Nodes(Graph(relations)) == Nodes(Graph(relations[..n])) + {relations[n].findingA, relations[n].findingB}
  {
    var r := relations[n];
    assert Ends(relations) == Ends(relations[..n]) + [(r.findingA, r.findingB)];
    assert Graph(relations) == Graph(relations[..n]) + {(r.findingA, r.findingB)};
    NodesAdd(Graph(relations[..n]), r.findingA, r.findingB);
  }

  lemma AddNewFacts(ids: seq<string>, id: string)
    requires NoDup(ids)
    ensures NoDup(AddNew(ids, id)) && Elements(AddNew(ids, id)) == Elements(ids) + {id}
  {
  }

  lemma AddNewIs(ids: seq<string>, id: string)
    ensures id in Elements(ids) <==> id in ids
    ensures AddNew(ids, id) == if id in ids then ids else ids + [id]
    ensures Elements(AddNew(ids, id)) == Elements(ids) + {id}
  {
  }

  /** The findings with root k. */
  ghost function Class(rep: map<string, string>, k: string): set<string> {
    set x | x in rep && rep[x] == k
  }

  lemma ClassIsComponent(rep: map<string, string>, e: Edges, x: string)
    requires Classifies(rep, e) && x in Nodes(e)
    ensures Class(rep, rep[x]) == Component(e, x)
  {
    forall y | y in rep ensures rep[y] == rep[x] <==> Linked(e, x, y) {
    }
  }

  lemma {:induction false} PickFindings(ids: seq<string>, rep: map<string, string>, k: string)
    requires NoDup(ids) && Elements(ids) <= rep.Keys
    ensures NoDup(Pick(ids, FindingRoot(rep), k))
    ensures Elements(Pick(ids, FindingRoot(rep), k)) == set x | x in ids && rep[x] == k
    decreases |ids|
  {
    if ids != [] {
      var n := |ids| - 1;
      assert ids == ids[..n] + [ids[n]];
      assert Elements(ids) == Elements(ids[..n]) + {ids[n]};
      PickFindings(ids[..n], rep, k);
      var p := Pick(ids[..n], FindingRoot(rep), k);
      assert forall y :: y in p ==> y in Elements(p);
      if rep[ids[n]] == k {
        assert Elements(p + [ids[n]]) == Elements(p) + {ids[n]};
      }
    }
  }

  /** Looking only at the relations of a class loses none of the relations inside it. */
  lemma {:induction false} WithinPicked(relations: seq<Relation>, rep: map<string, string>, k: string, s: set<string>)
    requires s <= Class(rep, k)
    ensures Within(Pick(relations, RelationRoot(rep), k), s) == Within(relations, s)
    decreases |relations|
  {
    if relations != [] {
      var n := |relations| - 1;
      WithinPicked(relations[..n], rep, k, s);
      var p := Pick(relations[..n], RelationRoot(rep), k);
      if RootOf(rep, relations[n].findingA) == k {
        assert (p + [relations[n]])[..|p|] == p;
      }
    }
  }

  lemma PickedCandidate(digest: Digest, relations: seq<Relation>, rep: map<string, string>, k: string,
                        views: map<string, View>, limits: Limits)
    requires limits.maxChainLength > 0
    ensures CandidateFor(digest, Class(rep, k), Pick(relations, RelationRoot(rep), k), views, limits)
         == CandidateFor(digest, Class(rep, k), relations, views, limits)
  {
    SortedSetFacts(Class(rep, k));
    var ids := Listed(Class(rep, k), limits);
    assert Elements(ids) <= Elements(SortedSet(Class(rep, k)));
    WithinPicked(relations, rep, k, Elements(ids));
  }

  // ----- grouping with find -----

  method UniteRelations(relations: seq<Relation>) returns (ds: DisjointSet)
    ensures fresh(ds) && ds.Valid() && ds.rep == UniteAll(Ends(relations))
  {
    ds := new DisjointSet();
    var ends := Ends(relations);
    for i := 0 to |relations|
      invariant ds.Valid() && ds.rep == UniteAll(ends[..i])
    {
      assert ends[..i + 1][..i] == ends[..i];
      ds.Union(relations[i].findingA, relations[i].findingB);
    }
    assert ends[..|relations|] == ends;
  }

  method GroupRelations(ds: DisjointSet, relations: seq<Relation>) returns (groups: map<string, seq<Relation>>)
    requires ds.Valid() && forall i :: 0 <= i < |relations| ==> relations[i].findingA in ds.rep
    modifies ds
    ensures ds.Valid() && ds.rep == old(ds.rep)
    ensures Grouped(groups, relations, RelationRoot(ds.rep))
  {
    groups := map[];
    for i := 0 to |relations|
      invariant ds.Valid() && ds.rep == old(ds.rep)
      invariant Grouped(groups, relations[..i], RelationRoot(ds.rep))
    {
      var root := ds.Find(relations[i].findingA);
      GroupedAppend(groups, relations[..i], RelationRoot(ds.rep), relations[i]);
      assert relations[..i + 1] == relations[..i] + [relations[i]];
      groups := Append(groups, root, relations[i]);
    }
    assert relations[..|relations|] == relations;
  }

  /** One related finding, grouped under its root unless it was seen before. */
  method GroupFinding(ds: DisjointSet, id: string, seen: set<string>, groups: map<string, seq<string>>, ghost listed: seq<string>)
    returns (seen': set<string>, groups': map<string, seq<string>>)
    requires ds.Valid() && id in ds.rep && seen == Elements(listed) && Grouped(groups, listed, FindingRoot(ds.rep))
    modifies ds
    ensures ds.Valid() && ds.rep == old(ds.rep)
    ensures seen' == Elements(AddNew(listed, id)) && Grouped(groups', AddNew(listed, id), FindingRoot(ds.rep))
  {
    AddNewIs(listed, id);
    if id in seen {
      return seen, groups;
    }
    var root := ds.Find(id);
    GroupedAppend(groups, listed, FindingRoot(ds.rep), id);
    return seen + {id}, Append(groups, root, id);
  }

  method GroupFindings(ds: DisjointSet, relations: seq<Relation>) returns (groups: map<string, seq<string>>)
    requires ds.Valid()
    requires forall i :: 0 <= i < |relations| ==> relations[i].findingA in ds.rep && relations[i].findingB in ds.rep
    modifies ds
    ensures ds.Valid() && ds.rep == old(ds.rep)
    ensures Grouped(groups, Mentioned(relations), FindingRoot(ds.rep))
  {
    groups := map[];
    var seen := {};
    for i := 0 to |relations|
      invariant ds.Valid() && ds.rep == old(ds.rep)
      invariant seen == Elements(Mentioned(relations[..i])) && Grouped(groups, Mentioned(relations[..i]), FindingRoot(ds.rep))
    {
      assert relations[..i + 1][..i] == relations[..i];
      seen, groups := GroupFinding(ds, relations[i].findingA, seen, groups, Mentioned(relations[..i]));
      seen, groups := GroupFinding(ds, relations[i].findingB, seen, groups,
                                   AddNew(Mentioned(relations[..i]), relations[i].findingA));
    }
    assert relations[..|relations|] == relations;
  }
}
