/** The labelled undirected graph the miner and the vectorizer walk: node ids
    mapped to labels, and unordered node pairs mapped to an optional edge
    label (a networkx `Graph` whose edges may lack the 'label' attribute). */
module Graphs {
  import opened Text

  type NodeId = int

  /** An unordered node pair, stored with its smaller end first. */
  datatype Edge = Edge(lo: NodeId, hi: NodeId)

  function Key(u: NodeId, v: NodeId): (e: Edge)
    ensures e.lo <= e.hi
    ensures (e.lo == u && e.hi == v) || (e.lo == v && e.hi == u)
  {
    if u <= v then Edge(u, v) else Edge(v, u)
  }

  datatype Graph = Graph(labels: map<NodeId, string>, edges: map<Edge, Option<string>>)

  /** Every edge is stored under its normalised key and joins two labelled nodes. */
  predicate WellFormed(g: Graph) {
    forall e :: e in g.edges ==> e.lo <= e.hi && e.lo in g.labels && e.hi in g.labels
  }

  /** Every node of `G.nodes()` has a label. networkx adds both ends of an
      edge as nodes, and only a `v` line gives a node its label; reading the
      label of any other node raises `KeyError`. */
  predicate AllLabelled(g: Graph) {
    forall e :: e in g.edges ==> e.lo in g.labels && e.hi in g.labels
  }

  predicate Adjacent(g: Graph, u: NodeId, v: NodeId) {
    Key(u, v) in g.edges
  }

  /** `graph.edges[u, v].get('label', '0')` */
  function EdgeLabel(g: Graph, u: NodeId, v: NodeId): string
    requires Adjacent(g, u, v)
  {
    match g.edges[Key(u, v)]
    case Some(l) => l
    case None => "0"
  }

  /** `G.neighbors(u)` */
  function Neighbors(g: Graph, u: NodeId): set<NodeId> {
    set v | v in g.labels && Adjacent(g, u, v)
  }

  /** A walk through labelled nodes along existing edges. */
  predicate IsPath(g: Graph, p: seq<NodeId>) {
    && |p| > 0
    && (forall i :: 0 <= i < |p| ==> p[i] in g.labels)
    && (forall i :: 0 <= i < |p| - 1 ==> Adjacent(g, p[i], p[i + 1]))
  }

  predicate IsSimple(p: seq<NodeId>) {
    forall i, j :: 0 <= i < j < |p| ==> p[i] != p[j]
  }

  /** `p[::-1]` */
  function Reverse(p: seq<NodeId>): (r: seq<NodeId>)
    ensures |r| == |p|
    ensures forall i :: 0 <= i < |p| ==> r[i] == p[|p| - 1 - i]
  {
    seq(|p|, i requires 0 <= i < |p| => p[|p| - 1 - i])
  }

  lemma ReverseReverse(p: seq<NodeId>)
    ensures Reverse(Reverse(p)) == p
  {
  }

  lemma ReversePath(g: Graph, p: seq<NodeId>)
    requires IsPath(g, p)
    ensures IsPath(g, Reverse(p))
  {
    var r := Reverse(p);
    forall i | 0 <= i < |r| - 1
      ensures Adjacent(g, r[i], r[i + 1])
    {
      assert Key(r[i], r[i + 1]) == Key(p[|p| - 2 - i], p[|p| - 1 - i]);
    }
  }

  /** Some element of a non-empty set: stands for iterating a Python set or
      dict, whose order the model leaves open. */
  method Pick<T>(s: set<T>) returns (x: T)
    requires s != {}
    ensures x in s
  {
    x :| x in s;
  }

  lemma {:induction false} SubsetCardinality<T>(a: set<T>, b: set<T>)
    requires a <= b
    ensures |a| <= |b|
    decreases |b|
  {
    if a != {} {
      var x :| x in a;
      SubsetCardinality(a - {x}, b - {x});
    }
  }

  lemma NeighborsBound(g: Graph, u: NodeId)
    ensures |Neighbors(g, u)| <= |g.labels|
  {
    SubsetCardinality(Neighbors(g, u), g.labels.Keys);
  }
}
