/** Undirected graphs given by edge sets, and what it means for two nodes to be linked. */
module Graphs {

  type Edges = set<(string, string)>

  function EdgeSet(edges: seq<(string, string)>): Edges {
    set p | p in edges
  }

  predicate Adjacent(e: Edges, a: string, b: string) {
    (a, b) in e || (b, a) in e
  }

  ghost predicate IsWalk(e: Edges, w: seq<string>) {
    |w| >= 1 && forall i :: 0 <= i < |w| - 1 ==> Adjacent(e, w[i], w[i + 1])
  }

  ghost predicate Joins(e: Edges, w: seq<string>, x: string, y: string) {
    IsWalk(e, w) && w[0] == x && w[|w| - 1] == y
  }

  /** A chain of edges, possibly empty, connects x and y. */
  ghost predicate Linked(e: Edges, x: string, y: string) {
    exists w :: Joins(e, w, x, y)
  }

  function Nodes(e: Edges): set<string> {
    (set p | p in e :: p.0) + (set p | p in e :: p.1)
  }

  lemma LinkedRefl(e: Edges, x: string)
    ensures Linked(e, x, x)
  {
    assert Joins(e, [x], x, x);
  }

  lemma LinkedEdge(e: Edges, x: string, y: string)
    requires Adjacent(e, x, y)
    ensures Linked(e, x, y)
  {
    assert Joins(e, [x, y], x, y);
  }

  lemma LinkedTrans(e: Edges, x: string, y: string, z: string)
    requires Linked(e, x, y) && Linked(e, y, z)
    ensures Linked(e, x, z)
  {
    var v :| Joins(e, v, x, y);
    var w :| Joins(e, w, y, z);
    var r := v + w[1..];
    forall i | 0 <= i < |r| - 1 ensures Adjacent(e, r[i], r[i + 1]) {
      if i >= |v| - 1 {
        assert r[i] == w[i - (|v| - 1)] && r[i + 1] == w[i + 1 - (|v| - 1)];
      }
    }
    assert Joins(e, r, x, z);
  }

  function Reversed(w: seq<string>): seq<string> {
    seq(|w|, i requires 0 <= i < |w| => w[|w| - 1 - i])
  }

  lemma LinkedSym(e: Edges, x: string, y: string)
    requires Linked(e, x, y)
    ensures Linked(e, y, x)
  {
    var w :| Joins(e, w, x, y);
    var r := Reversed(w);
    forall i | 0 <= i < |r| - 1 ensures Adjacent(e, r[i], r[i + 1]) {
      assert Adjacent(e, w[|w| - 2 - i], w[|w| - 2 - i + 1]);
    }
    assert Joins(e, r, y, x);
  }

  lemma LinkedMono(e: Edges, f: Edges, x: string, y: string)
    requires e <= f && Linked(e, x, y)
    ensures Linked(f, x, y)
  {
    var w :| Joins(e, w, x, y);
    assert Joins(f, w, x, y);
  }

  /** A colouring that agrees along edges agrees along walks. */
  lemma {:induction false} WalkKeepsColour(e: Edges, w: seq<string>, colour: map<string, string>)
    requires IsWalk(e, w) && w[0] in colour
    requires forall a, b :: (a, b) in e ==> a in colour && b in colour && colour[a] == colour[b]
    ensures w[|w| - 1] in colour && colour[w[|w| - 1]] == colour[w[0]]
    decreases |w|
  {
    if |w| > 1 {
      var v := w[..|w| - 1];
      assert IsWalk(e, v);
      WalkKeepsColour(e, v, colour);
      assert Adjacent(e, w[|w| - 2], w[|w| - 2 + 1]);
    }
  }

  ghost function Component(e: Edges, x: string): set<string> {
    set y | y in Nodes(e) && Linked(e, x, y)
  }

  lemma LinkedSameComponent(e: Edges, x: string, y: string)
    requires Linked(e, x, y)
    ensures Component(e, x) == Component(e, y)
  {
    LinkedSym(e, x, y);
    forall z | z in Nodes(e) ensures Linked(e, x, z) <==> Linked(e, y, z) {
      if Linked(e, x, z) {
        LinkedTrans(e, y, x, z);
      }
      if Linked(e, y, z) {
        LinkedTrans(e, x, y, z);
      }
    }
  }
}
