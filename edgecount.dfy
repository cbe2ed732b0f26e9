/** Counting the undirected edge set: for a symmetric adjacency dictionary
    without self-loops or repeated neighbours, the edge set has exactly half
    as many pairs as the neighbour lists have entries in all. */
module EdgeCounting {
  import opened Graphs

  function Flip(e: Edge): Edge {
    (e.1, e.0)
  }

  ghost function Flipped(es: set<Edge>): set<Edge> {
    set e | e in es :: Flip(e)
  }

  /** Reversing every pair keeps the number of pairs. */
  lemma {:induction false} FlippedSize(es: set<Edge>)
    ensures |Flipped(es)| == |es|
    decreases |es|
  {
    if es != {} {
      var e :| e in es;
      var rest := es - {e};
      FlippedSize(rest);
      assert Flipped(es) == Flipped(rest) + {Flip(e)};
      assert Flip(e) !in Flipped(rest);
    }
  }

  /** The pairs u -> v for the neighbours v in s. */
  ghost function Row(u: Vertex, s: seq<Vertex>): set<Edge> {
    set v | v in s :: (u, v)
  }

  lemma {:induction false} RowSize(u: Vertex, s: seq<Vertex>)
    requires Distinct(s)
    ensures |Row(u, s)| == |s|
  {
    if s != [] {
      var t := s[1..];
      assert Distinct(t) by {
        forall i, j | 0 <= i < j < |t| ensures t[i] != t[j] {
          assert t[i] == s[i + 1] && t[j] == s[j + 1];
        }
      }
      RowSize(u, t);
      assert Row(u, s) == {(u, s[0])} + Row(u, t) by {
        forall e | e in Row(u, s) ensures e in {(u, s[0])} + Row(u, t) {
          var v :| v in s && e == (u, v);
          if v != s[0] {
            var k :| 0 <= k < |s| && s[k] == v;
            assert t[k - 1] == v;
          }
        }
      }
      assert (u, s[0]) !in Row(u, t);
    }
  }

  /** The pairs u -> v for the keys u in `keys`. */
  ghost function ArcsOf(keys: seq<Vertex>, adj: map<Vertex, seq<Vertex>>): set<Edge> {
    set u, v | u in keys && u in adj && v in adj[u] :: (u, v)
  }

  lemma {:induction false} ArcsOfSize(keys: seq<Vertex>, adj: map<Vertex, seq<Vertex>>)
    requires Distinct(keys)
    requires forall u :: u in adj ==> Distinct(adj[u])
    ensures |ArcsOf(keys, adj)| == DegreeSumOf(keys, adj)
  {
    if keys != [] {
      var u, rest := keys[0], keys[1..];
      assert Distinct(rest) by {
        forall i, j | 0 <= i < j < |rest| ensures rest[i] != rest[j] {
          assert rest[i] == keys[i + 1] && rest[j] == keys[j + 1];
        }
      }
      assert u !in rest;
      ArcsOfSize(rest, adj);
      if u in adj {
        RowSize(u, adj[u]);
        assert ArcsOf(keys, adj) == Row(u, adj[u]) + ArcsOf(rest, adj);
        assert Row(u, adj[u]) !! ArcsOf(rest, adj);
      } else {
        assert ArcsOf(keys, adj) == ArcsOf(rest, adj);
      }
    }
  }

  /** Without repeated neighbours, there is one directed pair per
      neighbour-list entry. */
  lemma ArcsSize(g: Graph)
    requires WellFormed(g) && NoDuplicateNeighbours(g)
    ensures |Arcs(g)| == DegreeSum(g)
  {
    assert Arcs(g) == ArcsOf(g.keys, g.adj);
    ArcsOfSize(g.keys, g.adj);
  }

  /** The directed pairs are the edge set and its reversal, which are
      disjoint. */
  lemma ArcsSplit(g: Graph, es: set<Edge>)
    requires IsEdgeSet(g, es) && Symmetric(g) && NoSelfLoops(g)
    ensures Arcs(g) == es + Flipped(es)
    ensures es !! Flipped(es)
  {
    forall e | e in Arcs(g) ensures e in es + Flipped(es) {
      assert Adjacent(g, e.0, e.1);
      if e !in es {
        assert Flip(e) in es && Flip(Flip(e)) == e;
      }
    }
    forall e | e in Flipped(es) ensures e in Arcs(g) {
      var d :| d in es && e == Flip(d);
      assert Adjacent(g, d.0, d.1);
    }
    forall e | e in es ensures e !in Flipped(es) {
      assert Flip(e) != e;
    }
  }

  /** The length of the deduplicated edge list is half the degree sum, the
      total the plotting code uses. */
  lemma EdgeCount(g: Graph, es: set<Edge>)
    requires WellFormed(g) && SimpleGraph(g) && IsEdgeSet(g, es)
    ensures 2 * |es| == DegreeSum(g)
    ensures |es| == TotalEdges(g)
  {
    ArcsSplit(g, es);
    FlippedSize(es);
    ArcsSize(g);
  }
}
