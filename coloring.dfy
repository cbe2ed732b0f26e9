/** The validity check and the edge-challenge simulation of
    Traditional_ZKP_G3C/zkp_3-coloring-en.py. The verifier's random edge
    choices are inputs. */
module Coloring {
  import opened Graphs
  import EdgeCounting
  import opened Wrappers

  /** Scans every adjacency u -> v in dictionary order and reports false at
      the first one with u < v whose endpoints share a colour. */
  method CheckGraphValidity(g: Graph, colors: map<Vertex, Color>) returns (ok: bool)
    requires WellFormed(g) && ColoredAscending(g, colors)
    ensures ok <==> IsProper(g, colors)
  {
    for i := 0 to |g.keys|
      invariant forall u, v :: u in g.keys[..i] && Adjacent(g, u, v) && u < v ==> !SameColor(colors, u, v)
    {
      var u := g.keys[i];
      var neighbours := g.adj[u];
      for j := 0 to |neighbours|
        invariant forall u', v :: u' in g.keys[..i] && Adjacent(g, u', v) && u' < v ==> !SameColor(colors, u', v)
        invariant forall k :: 0 <= k < j && u < neighbours[k] ==> !SameColor(colors, u, neighbours[k])
      {
        var v := neighbours[j];
        assert Adjacent(g, u, v);
        if u < v && colors[u] == colors[v] {
          assert Adjacent(g, u, v) && SameColor(colors, u, v);
          return false;
        }
      }
      assert g.keys[..i + 1] == g.keys[..i] + [u];
    }
    assert g.keys[..|g.keys|] == g.keys;
    return true;
  }

  /** The edge-set construction: each adjacency u -> v is added as (u, v)
      unless (v, u) is already present. */
  method BuildEdgeSet(g: Graph) returns (es: set<Edge>)
    requires WellFormed(g)
    ensures IsEdgeSet(g, es)
  {
    es := {};
    for i := 0 to |g.keys|
      invariant EdgesSound(g, es) && OneOrientation(es)
      invariant forall u, v :: u in g.keys[..i] && Adjacent(g, u, v) ==> (u, v) in es || (v, u) in es
    {
      var u := g.keys[i];
      var neighbours := g.adj[u];
      for j := 0 to |neighbours|
        invariant EdgesSound(g, es) && OneOrientation(es)
        invariant forall u', v :: u' in g.keys[..i] && Adjacent(g, u', v) ==> (u', v) in es || (v, u') in es
        invariant forall k :: 0 <= k < j ==> (u, neighbours[k]) in es || (neighbours[k], u) in es
      {
        var v := neighbours[j];
        if (v, u) !in es {
          es := es + {(u, v)};
        }
      }
      assert g.keys[..i + 1] == g.keys[..i] + [u];
    }
    assert g.keys[..|g.keys|] == g.keys;
  }

  /** `list(edge_set)`: the elements of the set in an order the model leaves
      open, each exactly once. */
  method ToList(es: set<Edge>) returns (l: seq<Edge>)
    ensures Elements(l) == es && Distinct(l) && |l| == |es|
  {
    l := [];
    var rest := es;
    while rest != {}
      invariant rest <= es
      invariant forall e :: e in l <==> e in es && e !in rest
      invariant Distinct(l)
      invariant |l| + |rest| == |es|
      decreases |rest|
    {
      var e :| e in rest;
      l := l + [e];
      rest := rest - {e};
    }
    assert Elements(l) == es;
  }

  /** One challenge round: the edge opened, the messages exchanged and
      whether the two opened colours clash. */
  datatype Challenge = Challenge(edge: Edge, messages: nat, conflict: bool)

  /** What a run of the simulation records. */
  datatype Simulation = Simulation(
    edges: seq<Edge>,
    challenges: seq<Challenge>,
    totalMessages: nat,
    conflictHits: nat,
    conflictHistory: seq<nat>)

  /** Choosing an edge from an empty edge list, or, when the colouring is
      reported as invalid, dividing the conflict total by zero rounds. */
  datatype SimError = EmptyEdgeList | NoRounds

  /** Messages in one round: the commitment, the challenged edge and the
      two opened colours. */
  const MessagesPerRound: nat := 4

  function Sum(s: seq<nat>): nat {
    if s == [] then 0 else Sum(s[..|s| - 1]) + s[|s| - 1]
  }

  /** `rounds` challenge rounds over the deduplicated edge list. In round
      i + 1 the verifier picks edges[picks[i] mod |edges|]; an empty edge
      list with at least one round is the source's failed random choice.
      With `isValid` false the final empirical rate divides by `rounds`,
      which fails for zero rounds. */
  method SimulateZkpRounds(g: Graph, colors: map<Vertex, Color>, isValid: bool, rounds: nat, picks: seq<nat>)
    returns (res: Result<Simulation, SimError>)
    requires WellFormed(g) && Colored(g, colors) && |picks| == rounds
    ensures res == Err(EmptyEdgeList) <==> rounds > 0 && NoEdges(g)
    ensures res == Err(NoRounds) <==> rounds == 0 && !isValid
    ensures res.Ok? ==> IsEdgeList(g, res.value.edges)
    ensures res.Ok? ==> |res.value.challenges| == rounds && |res.value.conflictHistory| == rounds
    ensures res.Ok? ==> forall i :: 0 <= i < rounds ==>
      var ch := res.value.challenges[i];
      && |res.value.edges| > 0
      && ch.edge == res.value.edges[picks[i] % |res.value.edges|]
      && ch.messages == MessagesPerRound
      && (ch.conflict <==> SameColor(colors, ch.edge.0, ch.edge.1))
      && res.value.conflictHistory[i] == (if ch.conflict then 1 else 0)
    ensures res.Ok? ==> res.value.totalMessages == MessagesPerRound * rounds
    ensures res.Ok? ==> res.value.conflictHits == Sum(res.value.conflictHistory) <= rounds
    ensures res.Ok? && ProperOn(res.value.edges, colors) ==> res.value.conflictHits == 0
    ensures res.Ok? && Symmetric(g) && NoSelfLoops(g) && IsProper(g, colors) ==> res.value.conflictHits == 0
    ensures res.Ok? && SimpleGraph(g) ==> |res.value.edges| == TotalEdges(g)
  {
    var edgeSet := BuildEdgeSet(g);
    var edges := ToList(edgeSet);
    if SimpleGraph(g) {
      EdgeCounting.EdgeCount(g, edgeSet);
    }
    var totalMessages := 0;
    var conflictHits := 0;
    var history: seq<nat> := [];
    var challenges: seq<Challenge> := [];
    for r := 1 to rounds + 1
      invariant |challenges| == r - 1 && |history| == r - 1
      invariant r > 1 ==> |edges| > 0
      invariant forall i :: 0 <= i < r - 1 ==>
        && challenges[i].edge == edges[picks[i] % |edges|]
        && challenges[i].messages == MessagesPerRound
        && (challenges[i].conflict <==> SameColor(colors, challenges[i].edge.0, challenges[i].edge.1))
        && history[i] == (if challenges[i].conflict then 1 else 0)
      invariant totalMessages == MessagesPerRound * (r - 1)
      invariant conflictHits == Sum(history) <= r - 1
      invariant ProperOn(edges, colors) ==> conflictHits == 0
    {
      var messages := 0;
      messages := messages + 1;
      if |edges| == 0 {
        assert NoEdges(g);
        return Err(EmptyEdgeList);
      }
      var e := edges[picks[r - 1] % |edges|];
      assert e in Elements(edges);
      messages := messages + 1;
      messages := messages + 2;
      var conflict := colors[e.0] == colors[e.1];
      assert (history + [if conflict then 1 else 0])[..r - 1] == history;
      if conflict {
        conflictHits := conflictHits + 1;
        history := history + [1];
      } else {
        history := history + [0];
      }
      totalMessages := totalMessages + messages;
      challenges := challenges + [Challenge(e, messages, conflict)];
    }
    if !isValid && rounds == 0 {
      return Err(NoRounds);
    }
    if Symmetric(g) && NoSelfLoops(g) && IsProper(g, colors) {
      AcceptedColoringHasNoConflicts(g, colors, edges);
    }
    return Ok(Simulation(edges, challenges, totalMessages, conflictHits, history));
  }

  /** A colouring the validity check accepts, over a symmetric graph without
      self-loops, is proper on every listed edge; so the simulation then
      never records a conflict. */
  lemma AcceptedColoringHasNoConflicts(g: Graph, colors: map<Vertex, Color>, edges: seq<Edge>)
    requires IsEdgeList(g, edges) && Symmetric(g) && NoSelfLoops(g) && IsProper(g, colors)
    ensures ProperOn(edges, colors)
  {
    forall i | 0 <= i < |edges| ensures !SameColor(colors, edges[i].0, edges[i].1) {
      var (u, v) := edges[i];
      assert edges[i] in Elements(edges);
      assert Adjacent(g, u, v);
      if v < u {
        assert Adjacent(g, v, u);
      }
    }
  }

  /** A colouring the validity check rejects has a clashing edge in the
      list, so some choice of challenge exposes it. */
  lemma RejectedColoringHasConflictEdge(g: Graph, colors: map<Vertex, Color>, edges: seq<Edge>)
    requires IsEdgeList(g, edges) && !IsProper(g, colors)
    ensures exists i :: 0 <= i < |edges| && SameColor(colors, edges[i].0, edges[i].1)
  {
    var u, v :| Adjacent(g, u, v) && u < v && SameColor(colors, u, v);
    if (u, v) in Elements(edges) {
      var i :| 0 <= i < |edges| && edges[i] == (u, v);
      assert SameColor(colors, edges[i].0, edges[i].1);
    } else {
      var i :| 0 <= i < |edges| && edges[i] == (v, u);
      assert SameColor(colors, edges[i].0, edges[i].1);
    }
  }
}
