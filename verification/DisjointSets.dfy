/** Union-find with path compression and no ranks, against connectivity by walks. */
module DisjointSets {
  import opened Graphs

  /** x's parent is in the same class and one level lower, or x is its class's root. */
  ghost predicate NodeOk(parent: map<string, string>, rep: map<string, string>, level: map<string, nat>, x: string)
    requires parent.Keys == rep.Keys == level.Keys && x in parent
  {
    && parent[x] in parent && rep[x] in parent && rep[parent[x]] == rep[x]
    && parent[rep[x]] == rep[x] && rep[rep[x]] == rep[x]
    && (if parent[x] == x then rep[x] == x else level[parent[x]] < level[x])
  }

  /** parent is a forest: rep names each node's root, and level falls along every parent link. */
  ghost predicate Forest(parent: map<string, string>, rep: map<string, string>, level: map<string, nat>) {
    && parent.Keys == rep.Keys == level.Keys
    && forall x {:trigger NodeOk(parent, rep, level, x)} :: x in parent ==> NodeOk(parent, rep, level, x)
  }

  lemma {:induction false} RootBelow(parent: map<string, string>, rep: map<string, string>, level: map<string, nat>, x: string)
    requires Forest(parent, rep, level) && x in parent
    ensures rep[x] in level && (rep[x] == x || level[rep[x]] < level[x])
    ensures parent[x] == x <==> rep[x] == x
    decreases level[x]
  {
    assert NodeOk(parent, rep, level, x);
    if parent[x] != x {
      RootBelow(parent, rep, level, parent[x]);
    }
  }

  /** x is known, as its own root if it was not known before. */
  function Touch(rep: map<string, string>, x: string): map<string, string> {
    if x in rep then rep else rep[x := x]
  }

  /** a's class now has b's root. */
  function Merge(rep: map<string, string>, a: string, b: string): map<string, string>
    requires a in rep && b in rep
  {
    map x | x in rep :: if rep[x] == rep[a] then rep[b] else rep[x]
  }

  function Unite(rep: map<string, string>, a: string, b: string): map<string, string> {
    Merge(Touch(Touch(rep, a), b), a, b)
  }

  class DisjointSet {
    var parent: map<string, string>
    ghost var rep: map<string, string>
    ghost var level: map<string, nat>

    ghost predicate Valid()
      reads this
    {
      Forest(parent, rep, level)
    }

    constructor ()
      ensures Valid() && rep == map[]
    {
      parent, rep, level := map[], map[], map[];
    }

    /** The root of x's class. Compression moves parent links but no representative. */
    method Find(x: string) returns (root: string)
      requires Valid()
      modifies this
      ensures Valid() && rep == Touch(old(rep), x)
      ensures x in rep && root == rep[x]
    {
      if x !in parent {
        InsertKeeps(parent, rep, level, x);
        parent, rep, level := parent[x := x], rep[x := x], level[x := 0];
        return x;
      }
      root := x;
      assert NodeOk(parent, rep, level, x);
      while parent[root] != root
        invariant root in parent && rep[root] == rep[x]
        decreases level[root]
      {
        assert NodeOk(parent, rep, level, root);
        root := parent[root];
      }
      assert NodeOk(parent, rep, level, root);
      Compress(x, root);
    }

    /** Points every node on the way from x to its root straight at the root. */
    method Compress(x: string, root: string)
      requires Valid() && x in parent && rep[x] == root
      modifies this`parent
      ensures Valid()
    {
      var y := x;
      assert NodeOk(parent, rep, level, y);
      while parent[y] != root
        invariant Valid() && y in parent && rep[y] == root
        decreases level[y]
      {
        var next := parent[y];
        assert NodeOk(parent, rep, level, y);
        CompressKeeps(parent, rep, level, y);
        parent := parent[y := root];
        y := next;
      }
    }

    method Union(a: string, b: string)
      requires Valid()
      modifies this
      ensures Valid() && rep == Unite(old(rep), a, b)
    {
      var ra := Find(a);
      var rb := Find(b);
      if ra != rb {
        assert NodeOk(parent, rep, level, b);
        UniteKeeps(parent, rep, level, a, b);
        level := Lift(level, rep, a, b);
        rep := Merge(rep, a, b);
        parent := parent[ra := rb];
      } else {
        MergeSame(rep, a, b);
      }
    }
  }

  lemma InsertKeeps(parent: map<string, string>, rep: map<string, string>, level: map<string, nat>, x: string)
    requires Forest(parent, rep, level) && x !in parent
    ensures Forest(parent[x := x], rep[x := x], level[x := 0])
  {
    forall y | y in parent ensures NodeOk(parent[x := x], rep[x := x], level[x := 0], y) {
      assert NodeOk(parent, rep, level, y);
    }
  }

  lemma CompressKeeps(parent: map<string, string>, rep: map<string, string>, level: map<string, nat>, y: string)
    requires Forest(parent, rep, level) && y in parent && parent[y] != rep[y]
    ensures Forest(parent[y := rep[y]], rep, level)
  {
    RootBelow(parent, rep, level, y);
    forall x | x in parent ensures NodeOk(parent[y := rep[y]], rep, level, x) {
      assert NodeOk(parent, rep, level, x);
      assert NodeOk(parent, rep, level, rep[x]);
      assert NodeOk(parent, rep, level, y);
    }
  }

  /** Levels after a's root is hung below b's root: a's tree moves above it. */
  ghost function Lift(level: map<string, nat>, rep: map<string, string>, a: string, b: string): map<string, nat>
    requires level.Keys == rep.Keys && a in rep && b in rep && rep[b] in rep
  {
    map x | x in level :: if rep[x] == rep[a] then level[x] + level[rep[b]] + 1 else level[x]
  }

  lemma UniteKeeps(parent: map<string, string>, rep: map<string, string>, level: map<string, nat>, a: string, b: string)
    requires Forest(parent, rep, level) && a in rep && b in rep && rep[a] != rep[b] && rep[b] in rep
    ensures Forest(parent[rep[a] := rep[b]], Merge(rep, a, b), Lift(level, rep, a, b))
  {
    var p, r, l := parent[rep[a] := rep[b]], Merge(rep, a, b), Lift(level, rep, a, b);
    assert NodeOk(parent, rep, level, a) && NodeOk(parent, rep, level, b);
    forall x | x in p ensures NodeOk(p, r, l, x) {
      assert NodeOk(parent, rep, level, x);
    }
  }

  lemma MergeSame(rep: map<string, string>, a: string, b: string)
    requires a in rep && b in rep && rep[a] == rep[b]
    ensures Merge(rep, a, b) == rep
  {
  }

  /** Same representative exactly when linked, for every known node; every node of e is known. */
  ghost predicate Separates(rep: map<string, string>, e: Edges) {
    && Nodes(e) <= rep.Keys
    && forall x, y :: x in rep && y in rep ==> (rep[x] == rep[y] <==> Linked(e, x, y))
  }

  /** rep separates the nodes of e, and knows nothing else. */
  ghost predicate Classifies(rep: map<string, string>, e: Edges) {
    rep.Keys == Nodes(e) && rep.Values <= rep.Keys && Separates(rep, e)
  }

  ghost function UniteAll(edges: seq<(string, string)>): map<string, string>
    decreases |edges|
  {
    if edges == [] then map[]
    else
      var n := |edges| - 1;
      Unite(UniteAll(edges[..n]), edges[n].0, edges[n].1)
  }

  /** After all unions, two nodes have the same representative exactly when a chain of edges connects
      them. */
  lemma {:induction false} UniteAllClassifies(edges: seq<(string, string)>)
    ensures Classifies(UniteAll(edges), EdgeSet(edges))
    decreases |edges|
  {
    if edges != [] {
      var n := |edges| - 1;
      UniteAllClassifies(edges[..n]);
      UniteClassifies(UniteAll(edges[..n]), EdgeSet(edges[..n]), edges[n].0, edges[n].1);
      assert edges == edges[..n] + [edges[n]];
      assert EdgeSet(edges) == EdgeSet(edges[..n]) + {edges[n]};
    }
  }

  lemma LinkedIsNode(e: Edges, x: string, y: string)
    requires Linked(e, x, y) && x != y
    ensures x in Nodes(e) && y in Nodes(e)
  {
    var w :| Joins(e, w, x, y);
    assert Adjacent(e, w[0], w[0 + 1]);
    assert Adjacent(e, w[|w| - 2], w[|w| - 2 + 1]);
  }

  lemma TouchSeparates(rep: map<string, string>, e: Edges, x: string)
    requires Separates(rep, e) && rep.Values <= rep.Keys
    ensures Separates(Touch(rep, x), e) && Touch(rep, x).Values <= Touch(rep, x).Keys
  {
    if x !in rep {
      forall y | y in rep ensures !Linked(e, x, y) && !Linked(e, y, x) && rep[y] != x {
        if Linked(e, x, y) {
          LinkedIsNode(e, x, y);
        }
        if Linked(e, y, x) {
          LinkedIsNode(e, y, x);
        }
        assert rep[y] in rep.Values;
      }
      LinkedRefl(e, x);
    }
  }

  lemma MergeSeparates(rep: map<string, string>, e: Edges, a: string, b: string)
    requires Separates(rep, e) && a in rep && b in rep
    ensures Separates(Merge(rep, a, b), e + {(a, b)})
  {
    var f := e + {(a, b)};
    var r := Merge(rep, a, b);
    forall x, y | x in r && y in r ensures r[x] == r[y] <==> Linked(f, x, y) {
      if Linked(f, x, y) {
        var w :| Joins(f, w, x, y);
        EdgesAgree(rep, e, a, b);
        WalkKeepsColour(f, w, r);
      }
      if r[x] == r[y] {
        MergedLinked(rep, e, a, b, x, y);
      }
    }
  }

  lemma EdgesAgree(rep: map<string, string>, e: Edges, a: string, b: string)
    requires Separates(rep, e) && a in rep && b in rep
    ensures forall x, y :: (x, y) in e + {(a, b)} ==>
              x in rep && y in rep && Merge(rep, a, b)[x] == Merge(rep, a, b)[y]
  {
    forall x, y | (x, y) in e ensures x in rep && y in rep && rep[x] == rep[y] {
      assert (x, y).0 in Nodes(e) && (x, y).1 in Nodes(e);
      assert Adjacent(e, x, y);
      LinkedEdge(e, x, y);
    }
  }

  lemma MergedLinked(rep: map<string, string>, e: Edges, a: string, b: string, x: string, y: string)
    requires Separates(rep, e) && a in rep && b in rep && x in rep && y in rep
    requires Merge(rep, a, b)[x] == Merge(rep, a, b)[y]
    ensures Linked(e + {(a, b)}, x, y)
  {
    var f := e + {(a, b)};
    assert Adjacent(f, a, b);
    LinkedEdge(f, a, b);
    LinkedSym(f, a, b);
    if rep[x] == rep[y] {
      LinkedMono(e, f, x, y);
    } else if rep[x] == rep[a] {
      LinkedMono(e, f, x, a);
      LinkedMono(e, f, b, y);
      LinkedTrans(f, x, a, b);
      LinkedTrans(f, x, b, y);
    } else {
      LinkedMono(e, f, x, b);
      LinkedMono(e, f, a, y);
      LinkedTrans(f, x, b, a);
      LinkedTrans(f, x, a, y);
    }
  }

  lemma UniteClassifies(rep: map<string, string>, e: Edges, a: string, b: string)
    requires Classifies(rep, e)
    ensures Classifies(Unite(rep, a, b), e + {(a, b)})
  {
    var t := Touch(Touch(rep, a), b);
    TouchSeparates(rep, e, a);
    TouchSeparates(Touch(rep, a), e, b);
    MergeSeparates(t, e, a, b);
    NodesAdd(e, a, b);
    var r := Unite(rep, a, b);
    forall v | v in r.Values ensures v in r.Keys {
      var x :| x in r && r[x] == v;
      assert t[x] in t.Values && t[b] in t.Values;
    }
  }

  lemma NodesAdd(e: Edges, a: string, b: string)
    ensures Nodes(e + {(a, b)}) == Nodes(e) + {a, b}
  {
    var f := e + {(a, b)};
    forall x ensures x in Nodes(f) <==> x in Nodes(e) + {a, b} {
      if x in Nodes(e) {
        var p :| p in e && (p.0 == x || p.1 == x);
        assert p in f;
      }
      assert (a, b) in f && (a, b).0 == a && (a, b).1 == b;
    }
  }
}
