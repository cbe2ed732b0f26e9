/** The fixed example data of Traditional_ZKP_G3C/zkp_3-coloring-en.py: the
    15-vertex grid graph A, its 3-colouring, and graph B, which is A with the
    extra edge 0-3 whose endpoints share colour 1. */
module ColoringData {
  import opened Graphs
  import Coloring

  /** The vertices 0..14, in the dictionaries' key order. */
  const GraphAKeys: seq<Vertex> := [0, 1, 2, 3, 4, 5, 6, 7, 8, 9, 10, 11, 12, 13, 14]

  predicate IsVertex(u: Vertex) {
    0 <= u < 15
  }

  /** u and v are next to each other in the grid of four columns that holds
      the vertices 0..14 row by row. */
  predicate GridNeighbours(u: Vertex, v: Vertex) {
    && IsVertex(u) && IsVertex(v)
    && (v == u + 4 || u == v + 4 || (v == u + 1 && u % 4 != 3) || (u == v + 1 && v % 4 != 3))
  }

  /** The neighbour list of each vertex of graph A: graph A is the grid of
      four columns on 0..14, each neighbour listed once. */
  function NeighboursA(u: Vertex): (ns: seq<Vertex>)
    ensures forall v :: v in ns <==> GridNeighbours(u, v)
    ensures Distinct(ns)
  {
    match u
    case 0 => [1, 4]
    case 1 => [0, 2, 5]
    case 2 => [1, 3, 6]
    case 3 => [2, 7]
    case 4 => [0, 5, 8]
    case 5 => [1, 4, 6, 9]
    case 6 => [2, 5, 7, 10]
    case 7 => [3, 6, 11]
    case 8 => [4, 9, 12]
    case 9 => [5, 8, 10, 13]
    case 10 => [6, 9, 11, 14]
    case 11 => [7, 10]
    case 12 => [8, 13]
    case 13 => [9, 12, 14]
    case 14 => [10, 13]
    case _ => []
  }

  /** The colour of each vertex under colouring A: the colours 1, 2, 3 in
      turn along the key order. */
  function ColorA(u: Vertex): (c: Color)
    ensures IsVertex(u) ==> c == 1 + u % 3
  {
    match u
    case 0 => 1
    case 1 => 2
    case 2 => 3
    case 3 => 1
    case 4 => 2
    case 5 => 3
    case 6 => 1
    case 7 => 2
    case 8 => 3
    case 9 => 1
    case 10 => 2
    case 11 => 3
    case 12 => 1
    case 13 => 2
    case 14 => 3
    case _ => 0
  }

  const GraphAAdj: map<Vertex, seq<Vertex>> := map u | 0 <= u < 15 :: NeighboursA(u)

  const GraphA: Graph := Graph(GraphAKeys, GraphAAdj)

  const ColorsA: map<Vertex, Color> := map u | 0 <= u < 15 :: ColorA(u)

  /** Appending v to the neighbours of u and then u to the neighbours of
      v, in place on a copy of the dictionary. */
  function AddEdge(adj: map<Vertex, seq<Vertex>>, u: Vertex, v: Vertex): (r: map<Vertex, seq<Vertex>>)
    requires u in adj && v in adj
    ensures r.Keys == adj.Keys
    ensures r[v] == (if u == v then adj[v] + [v, u] else adj[v] + [u])
    ensures u != v ==> r[u] == adj[u] + [v]
    ensures forall w :: w in adj && w != u && w != v ==> r[w] == adj[w]
  {
    var a := adj[u := adj[u] + [v]];
    a[v := a[v] + [u]]
  }

  /** Graph B: a copy of graph A with the edge 0-3 added. */
  const GraphBAdj: map<Vertex, seq<Vertex>> := AddEdge(GraphAAdj, 0, 3)

  const GraphB: Graph := Graph(GraphAKeys, GraphBAdj)

  lemma GraphsWellFormed()
    ensures WellFormed(GraphA) && WellFormed(GraphB)
  {
  }

  /** Graph B has exactly the adjacencies of graph A plus 0 -> 3 and 3 -> 0,
      which graph A does not have. */
  lemma GraphBAddsOnlyEdge03(u: Vertex, v: Vertex)
    ensures Adjacent(GraphB, u, v) <==> Adjacent(GraphA, u, v) || (u, v) == (0, 3) || (u, v) == (3, 0)
    ensures !Adjacent(GraphA, 0, 3) && !Adjacent(GraphA, 3, 0)
  {
  }

  /** Every neighbour of u in graph A is coloured differently from u. */
  lemma ColorsAProperAt(u: Vertex)
    requires IsVertex(u)
    ensures forall v :: v in NeighboursA(u) ==> IsVertex(v) && ColorA(v) != ColorA(u)
  {
  }

  /** The colouring of graph A is proper and colours every vertex. */
  lemma ColorsAProperOnGraphA()
    ensures Colored(GraphA, ColorsA)
    ensures IsProper(GraphA, ColorsA)
  {
    forall u, v | Adjacent(GraphA, u, v)
      ensures u in ColorsA && v in ColorsA && !SameColor(ColorsA, u, v)
    {
      ColorsAProperAt(u);
    }
  }

  /** The same colouring fails on graph B, at the added edge 0-3. */
  lemma ColorsAImproperOnGraphB()
    ensures Colored(GraphB, ColorsA)
    ensures !IsProper(GraphB, ColorsA)
    ensures Adjacent(GraphB, 0, 3) && SameColor(ColorsA, 0, 3)
  {
    ColorsAProperOnGraphA();
    forall u, v | Adjacent(GraphB, u, v) ensures u in ColorsA && v in ColorsA {
      GraphBAddsOnlyEdge03(u, v);
    }
    assert Adjacent(GraphB, 0, 3);
  }

  /** Each neighbour list of graph A lists u among its own neighbours, has
      no repeats and does not contain u. */
  lemma GraphAAt(u: Vertex)
    requires IsVertex(u)
    ensures forall v :: v in NeighboursA(u) ==> IsVertex(v) && u in NeighboursA(v)
    ensures Distinct(NeighboursA(u)) && u !in NeighboursA(u)
  {
  }

  lemma GraphASimple()
    ensures SimpleGraph(GraphA)
  {
    forall u, v | Adjacent(GraphA, u, v) ensures Adjacent(GraphA, v, u) {
      GraphAAt(u);
    }
    forall u | u in GraphA.adj ensures Distinct(GraphA.adj[u]) && !Adjacent(GraphA, u, u) {
      GraphAAt(u);
    }
  }

  lemma GraphBSimple()
    ensures SimpleGraph(GraphB)
  {
    GraphASimple();
    forall u, v | Adjacent(GraphB, u, v) ensures Adjacent(GraphB, v, u) {
      GraphBAddsOnlyEdge03(u, v);
      GraphBAddsOnlyEdge03(v, u);
    }
    forall u | u in GraphB.adj ensures Distinct(GraphB.adj[u]) && !Adjacent(GraphB, u, u) {
      GraphBAddsOnlyEdge03(u, u);
      if u == 0 {
        assert GraphB.adj[u] == [1, 4, 3];
      } else if u == 3 {
        assert GraphB.adj[u] == [2, 7, 0];
      }
    }
  }

  lemma DegreeSumStep(keys: seq<Vertex>, k: nat, adj: map<Vertex, seq<Vertex>>)
    requires k < |keys|
    ensures DegreeSumOf(keys[k..], adj)
         == (if keys[k] in adj then |adj[keys[k]]| else 0) + DegreeSumOf(keys[k + 1..], adj)
  {
    assert keys[k..][1..] == keys[k + 1..];
  }

  // The degree sums of the key suffixes, evaluated a few keys at a time.

  lemma GraphADegreesFrom12()
    ensures DegreeSumOf(GraphAKeys[12..], GraphAAdj) == 7
  {
    assert DegreeSumOf(GraphAKeys[14..], GraphAAdj) == 2 by { DegreeSumStep(GraphAKeys, 14, GraphAAdj); }
    assert DegreeSumOf(GraphAKeys[13..], GraphAAdj) == 5 by { DegreeSumStep(GraphAKeys, 13, GraphAAdj); }
    assert DegreeSumOf(GraphAKeys[12..], GraphAAdj) == 7 by { DegreeSumStep(GraphAKeys, 12, GraphAAdj); }
  }

  lemma GraphADegreesFrom9()
    ensures DegreeSumOf(GraphAKeys[9..], GraphAAdj) == 17
  {
    GraphADegreesFrom12();
    assert DegreeSumOf(GraphAKeys[11..], GraphAAdj) == 9 by { DegreeSumStep(GraphAKeys, 11, GraphAAdj); }
    assert DegreeSumOf(GraphAKeys[10..], GraphAAdj) == 13 by { DegreeSumStep(GraphAKeys, 10, GraphAAdj); }
    assert DegreeSumOf(GraphAKeys[9..], GraphAAdj) == 17 by { DegreeSumStep(GraphAKeys, 9, GraphAAdj); }
  }

  lemma GraphADegreesFrom6()
    ensures DegreeSumOf(GraphAKeys[6..], GraphAAdj) == 27
  {
    GraphADegreesFrom9();
    assert DegreeSumOf(GraphAKeys[8..], GraphAAdj) == 20 by { DegreeSumStep(GraphAKeys, 8, GraphAAdj); }
    assert DegreeSumOf(GraphAKeys[7..], GraphAAdj) == 23 by { DegreeSumStep(GraphAKeys, 7, GraphAAdj); }
    assert DegreeSumOf(GraphAKeys[6..], GraphAAdj) == 27 by { DegreeSumStep(GraphAKeys, 6, GraphAAdj); }
  }

  lemma GraphADegreesFrom3()
    ensures DegreeSumOf(GraphAKeys[3..], GraphAAdj) == 36
  {
    GraphADegreesFrom6();
    assert DegreeSumOf(GraphAKeys[5..], GraphAAdj) == 31 by { DegreeSumStep(GraphAKeys, 5, GraphAAdj); }
    assert DegreeSumOf(GraphAKeys[4..], GraphAAdj) == 34 by { DegreeSumStep(GraphAKeys, 4, GraphAAdj); }
    assert DegreeSumOf(GraphAKeys[3..], GraphAAdj) == 36 by { DegreeSumStep(GraphAKeys, 3, GraphAAdj); }
  }

  lemma GraphADegreesFrom1()
    ensures DegreeSumOf(GraphAKeys[1..], GraphAAdj) == 42
  {
    GraphADegreesFrom3();
    assert DegreeSumOf(GraphAKeys[2..], GraphAAdj) == 39 by { DegreeSumStep(GraphAKeys, 2, GraphAAdj); }
    assert DegreeSumOf(GraphAKeys[1..], GraphAAdj) == 42 by { DegreeSumStep(GraphAKeys, 1, GraphAAdj); }
  }

  lemma GraphADegreesFrom0()
    ensures DegreeSumOf(GraphAKeys, GraphAAdj) == 44
  {
    GraphADegreesFrom1();
    var rest := GraphAKeys[1..];
    assert DegreeSumOf(GraphAKeys, GraphAAdj) == |GraphAAdj[0]| + DegreeSumOf(rest, GraphAAdj);
  }

  /** Graph A has 44 neighbour-list entries, so 22 edges. */
  lemma GraphAEdgeTotal()
    ensures DegreeSum(GraphA) == 44 && TotalEdges(GraphA) == 22
  {
    GraphADegreesFrom0();
  }

  /** Appending s to the neighbour list of a key that the key order lists
      once raises the degree sum by |s|. */
  lemma {:induction false} DegreeSumAppend(keys: seq<Vertex>, adj: map<Vertex, seq<Vertex>>, k: Vertex, s: seq<Vertex>)
    requires Distinct(keys) && k in keys && k in adj
    ensures DegreeSumOf(keys, adj[k := adj[k] + s]) == DegreeSumOf(keys, adj) + |s|
  {
    var rest := keys[1..];
    assert Distinct(rest) by {
      forall i, j | 0 <= i < j < |rest| ensures rest[i] != rest[j] {
        assert rest[i] == keys[i + 1] && rest[j] == keys[j + 1];
      }
    }
    if keys[0] == k {
      assert k !in rest;
      DegreeSumOther(rest, adj, k, adj[k] + s);
    } else {
      DegreeSumAppend(rest, adj, k, s);
    }
  }

  /** Adding an edge between two listed keys raises the degree sum by 2. */
  lemma AddEdgeDegreeSum(keys: seq<Vertex>, adj: map<Vertex, seq<Vertex>>, u: Vertex, v: Vertex)
    requires Distinct(keys) && u in keys && v in keys && u in adj && v in adj
    ensures DegreeSumOf(keys, AddEdge(adj, u, v)) == DegreeSumOf(keys, adj) + 2
  {
    var a := adj[u := adj[u] + [v]];
    DegreeSumAppend(keys, adj, u, [v]);
    DegreeSumAppend(keys, a, v, [u]);
  }

  /** Changing the neighbour list of a key outside the key order leaves the
      degree sum alone. */
  lemma {:induction false} DegreeSumOther(keys: seq<Vertex>, adj: map<Vertex, seq<Vertex>>, k: Vertex, ns: seq<Vertex>)
    requires k !in keys
    ensures DegreeSumOf(keys, adj[k := ns]) == DegreeSumOf(keys, adj)
  {
    if keys != [] {
      DegreeSumOther(keys[1..], adj, k, ns);
    }
  }

  /** Graph B has 46 neighbour-list entries, so the plotting code's edge
      total is 23. */
  lemma GraphBEdgeTotal()
    ensures DegreeSum(GraphB) == DegreeSum(GraphA) + 2
    ensures DegreeSum(GraphB) == 46 && TotalEdges(GraphB) == 23
  {
    GraphsWellFormed();
    AddEdgeDegreeSum(GraphAKeys, GraphAAdj, 0, 3);
    GraphAEdgeTotal();
  }

  /** The two validity checks of the example: graph A with colouring A is
      accepted, graph B with the same colouring is rejected. */
  method CheckExamples() returns (okA: bool, okB: bool)
    ensures okA && !okB
  {
    GraphsWellFormed();
    ColorsAProperOnGraphA();
    ColorsAImproperOnGraphB();
    okA := Coloring.CheckGraphValidity(GraphA, ColorsA);
    okB := Coloring.CheckGraphValidity(GraphB, ColorsA);
  }
}
