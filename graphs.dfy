/** Graphs and colourings of Traditional_ZKP_G3C/zkp_3-coloring-en.py:
    an adjacency dictionary from vertex to neighbour list and a colour
    dictionary, with the predicates the simulation and the validity check
    are specified by. */
module Graphs {

  type Vertex = int
  type Color = int
  type Edge = (Vertex, Vertex)

  /** An insertion-ordered dictionary from vertex to its neighbour list:
      `keys` is the iteration order, `adj` the lookup. */
  datatype Graph = Graph(keys: seq<Vertex>, adj: map<Vertex, seq<Vertex>>)

  predicate Distinct<T(==)>(s: seq<T>) {
    forall i, j :: 0 <= i < j < |s| ==> s[i] != s[j]
  }

  /** The dictionary's key order lists every key exactly once. */
  ghost predicate WellFormed(g: Graph) {
    Distinct(g.keys) && forall u :: u in g.adj <==> u in g.keys
  }

  /** v appears in the neighbour list of u. */
  predicate Adjacent(g: Graph, u: Vertex, v: Vertex) {
    u in g.adj && v in g.adj[u]
  }

  ghost predicate Symmetric(g: Graph) {
    forall u, v :: Adjacent(g, u, v) ==> Adjacent(g, v, u)
  }

  ghost predicate NoSelfLoops(g: Graph) {
    forall u :: !Adjacent(g, u, u)
  }

  ghost predicate NoDuplicateNeighbours(g: Graph) {
    forall u :: u in g.adj ==> Distinct(g.adj[u])
  }

  /** An undirected simple graph stored with both directions of every edge. */
  ghost predicate SimpleGraph(g: Graph) {
    Symmetric(g) && NoSelfLoops(g) && NoDuplicateNeighbours(g)
  }

  ghost predicate NoEdges(g: Graph) {
    forall u, v :: !Adjacent(g, u, v)
  }

  /** Both endpoints are coloured and their colours agree. */
  predicate SameColor(colors: map<Vertex, Color>, u: Vertex, v: Vertex) {
    u in colors && v in colors && colors[u] == colors[v]
  }

  /** Every vertex at either end of an adjacency has a colour. */
  ghost predicate Colored(g: Graph, colors: map<Vertex, Color>) {
    forall u, v :: Adjacent(g, u, v) ==> u in colors && v in colors
  }

  /** Every adjacency u -> v with u < v has coloured endpoints: the lookups
      the validity check performs. */
  ghost predicate ColoredAscending(g: Graph, colors: map<Vertex, Color>) {
    forall u, v :: Adjacent(g, u, v) && u < v ==> u in colors && v in colors
  }

  /** The validity check's notion of a proper colouring: no adjacency
      u -> v with u < v joins two vertices of the same colour. */
  ghost predicate IsProper(g: Graph, colors: map<Vertex, Color>) {
    forall u, v :: Adjacent(g, u, v) && u < v ==> !SameColor(colors, u, v)
  }

  /** No edge of the list joins two vertices of the same colour. */
  ghost predicate ProperOn(edges: seq<Edge>, colors: map<Vertex, Color>) {
    forall i :: 0 <= i < |edges| ==> !SameColor(colors, edges[i].0, edges[i].1)
  }

  /** Every pair in the set is an adjacency of the graph. */
  ghost predicate EdgesSound(g: Graph, es: set<Edge>) {
    forall e :: e in es ==> Adjacent(g, e.0, e.1)
  }

  /** Every adjacency is in the set in one orientation or the other. */
  ghost predicate EdgesCover(g: Graph, es: set<Edge>) {
    forall u, v :: Adjacent(g, u, v) ==> (u, v) in es || (v, u) in es
  }

  /** The set never holds an edge in both orientations. */
  ghost predicate OneOrientation(es: set<Edge>) {
    forall u, v :: (u, v) in es && (v, u) in es ==> u == v
  }

  /** The undirected edge set of the graph. */
  ghost predicate IsEdgeSet(g: Graph, es: set<Edge>) {
    EdgesSound(g, es) && EdgesCover(g, es) && OneOrientation(es)
  }

  /** The elements of a sequence. */
  function Elements<T>(s: seq<T>): set<T> {
    set x | x in s
  }

  /** A list holding each edge of an edge set exactly once. */
  ghost predicate IsEdgeList(g: Graph, edges: seq<Edge>) {
    IsEdgeSet(g, Elements(edges)) && Distinct(edges)
  }

  /** The sum of the neighbour-list lengths, taken over the keys in order. */
  function DegreeSumOf(keys: seq<Vertex>, adj: map<Vertex, seq<Vertex>>): nat {
    if keys == [] then 0
    else (if keys[0] in adj then |adj[keys[0]]| else 0) + DegreeSumOf(keys[1..], adj)
  }

  function DegreeSum(g: Graph): nat {
    DegreeSumOf(g.keys, g.adj)
  }

  /** The edge total the plotting code computes: half the degree sum,
      rounded down. */
  function TotalEdges(g: Graph): (n: nat)
    ensures 2 * n <= DegreeSum(g) <= 2 * n + 1
  {
    DegreeSum(g) / 2
  }

  /** Every directed adjacency u -> v as a pair. */
  ghost function Arcs(g: Graph): set<Edge> {
    set u, v | u in g.adj && v in g.adj[u] :: (u, v)
  }
}
