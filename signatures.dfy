/** Canonical signatures of substructures (hw1/q3/miner.py and the identical
    helpers of A1/q3/vectorizer.py): the path signature
    `label-edge-label-...` taken in the smaller of the two directions, the
    "hollow ring" a cycle is hashed through, and the chain graph that the
    feature writer rebuilds from a path signature. */
module Signatures {
  import opened Text
  import opened Graphs

  // ---------------------------------------------------------------------------
  // Path signatures
  // ---------------------------------------------------------------------------

  /** The piece written between two consecutive nodes: `-<edge label>-`. */
  function Separator(g: Graph, u: NodeId, v: NodeId): string
    requires Adjacent(g, u, v)
  {
    "-" + EdgeLabel(g, u, v) + "-"
  }

  /** The list of pieces a traversal of `p` appends: node labels at even
      positions, separators at odd ones, nothing after the last node. */
  function Pieces(g: Graph, p: seq<NodeId>): (r: seq<string>)
    requires IsPath(g, p)
    ensures |r| == 2 * |p| - 1
  {
    if |p| == 1 then [g.labels[p[0]]]
    else [g.labels[p[0]], Separator(g, p[0], p[1])] + Pieces(g, p[1..])
  }

  lemma {:induction false} PiecesAt(g: Graph, p: seq<NodeId>, i: nat)
    requires IsPath(g, p) && i < |p|
    ensures Pieces(g, p)[2 * i] == g.labels[p[i]]
    ensures i < |p| - 1 ==> Pieces(g, p)[2 * i + 1] == Separator(g, p[i], p[i + 1])
  {
    if i > 0 {
      PiecesAt(g, p[1..], i - 1);
    }
  }

  /** The string of one traversal direction. */
  function Traversal(g: Graph, p: seq<NodeId>): string
    requires IsPath(g, p)
  {
    Concat(Pieces(g, p))
  }

  /** The signature: the smaller of the forward and the backward string. */
  function PathSignature(g: Graph, p: seq<NodeId>): string
    requires IsPath(g, p)
  {
    ReversePath(g, p);
    MinStr(Traversal(g, p), Traversal(g, Reverse(p)))
  }

  /** One traversal loop of `get_canonical_path`: walks `nodes` in order and
      appends each label, followed by a separator unless it is the last node. */
  method TraversalPieces(g: Graph, nodes: seq<NodeId>) returns (pieces: seq<string>)
    requires IsPath(g, nodes)
    ensures pieces == Pieces(g, nodes)
  {
    pieces := [];
    var i := 0;
    while i < |nodes|
      invariant 0 <= i <= |nodes|
      invariant |pieces| == if i == |nodes| then 2 * i - 1 else 2 * i
      invariant forall k :: 0 <= k < |pieces| ==> pieces[k] == Pieces(g, nodes)[k]
    {
      PiecesAt(g, nodes, i);
      pieces := pieces + [g.labels[nodes[i]]];
      if i < |nodes| - 1 {
        pieces := pieces + [Separator(g, nodes[i], nodes[i + 1])];
      }
      i := i + 1;
    }
  }

  /** `get_canonical_path(path_nodes, graph)` */
  method CanonicalPath(g: Graph, p: seq<NodeId>) returns (sig: string)
    requires IsPath(g, p)
    ensures sig == PathSignature(g, p)
    ensures sig == Traversal(g, p) || sig == Traversal(g, Reverse(p))
    ensures LexLessEq(sig, Traversal(g, p)) && LexLessEq(sig, Traversal(g, Reverse(p)))
  {
    var forward := TraversalPieces(g, p);
    var forwardStr := Concat(forward);
    ReversePath(g, p);
    var backward := TraversalPieces(g, Reverse(p));
    var backwardStr := Concat(backward);
    sig := MinStr(forwardStr, backwardStr);
    MinStrIsLeast(forwardStr, backwardStr);
  }

  /** A path and its reversal have the same signature. */
  lemma SignatureOfReverse(g: Graph, p: seq<NodeId>)
    requires IsPath(g, p)
    ensures IsPath(g, Reverse(p))
    ensures PathSignature(g, Reverse(p)) == PathSignature(g, p)
  {
    ReversePath(g, p);
    ReverseReverse(p);
    MinStrCommutes(Traversal(g, p), Traversal(g, Reverse(p)));
  }

  /** A single-node path is signed by its label alone. */
  lemma SingleNodeSignature(g: Graph, n: NodeId)
    requires n in g.labels
    ensures IsPath(g, [n]) && PathSignature(g, [n]) == g.labels[n]
  {
    assert Pieces(g, [n]) == [g.labels[n]];
    assert Reverse([n]) == [n];
    LexIrreflexive(g.labels[n]);
  }

  /** An edge without a label attribute is written as `0`, in either direction. */
  lemma UnlabelledEdgeSignature(g: Graph, u: NodeId, v: NodeId)
    requires u in g.labels && v in g.labels && Adjacent(g, u, v) && g.edges[Key(u, v)].None?
    ensures IsPath(g, [u, v])
    ensures Traversal(g, [u, v]) == g.labels[u] + "-0-" + g.labels[v]
    ensures PathSignature(g, [u, v]) == MinStr(g.labels[u] + "-0-" + g.labels[v], g.labels[v] + "-0-" + g.labels[u])
  {
    assert EdgeLabel(g, u, v) == "0" && Separator(g, u, v) == "-0-";
    assert Key(v, u) == Key(u, v);
    assert EdgeLabel(g, v, u) == "0" && Separator(g, v, u) == "-0-";
    assert Pieces(g, [u, v]) == [g.labels[u], "-0-", g.labels[v]];
    assert Pieces(g, [v, u]) == [g.labels[v], "-0-", g.labels[u]];
    ConcatOfThree(g.labels[u], "-0-", g.labels[v]);
    ConcatOfThree(g.labels[v], "-0-", g.labels[u]);
    assert Reverse([u, v]) == [v, u];
  }

  lemma ConcatOfThree(a: string, b: string, c: string)
    ensures Concat([a, b, c]) == a + b + c
  {
    ConcatCons(c, []);
    ConcatCons(b, [c]);
    ConcatCons(a, [b, c]);
    assert [a] + [b, c] == [a, b, c];
  }

  // ---------------------------------------------------------------------------
  // path_tuple_to_graph: rebuilding a chain from a path signature
  // ---------------------------------------------------------------------------

  /** `sig_str.replace('-', ' ').split()` */
  function SignatureTokens(sig: string): seq<string> {
    Words(ReplaceChar(sig, '-', ' '))
  }

  /** The chain graph whose node i carries `tokens[2i]` and whose edge
      (i-1, i) carries `tokens[2i-1]`: n nodes for 2n-1 tokens. */
  function Chain(tokens: seq<string>): (c: Graph) {
    var n := (|tokens| + 1) / 2;
    Graph(ChainLabels(tokens, n), ChainEdges(tokens, n))
  }

  function ChainLabels(tokens: seq<string>, n: nat): map<NodeId, string>
    requires 2 * n <= |tokens| + 1
  {
    map i | 0 <= i < n :: tokens[2 * i]
  }

  function ChainEdges(tokens: seq<string>, n: nat): map<Edge, Option<string>>
    requires 2 * n <= |tokens| + 1
  {
    map i | 1 <= i < n :: Edge(i - 1, i) := Some(tokens[2 * i - 1])
  }

  lemma ChainStep(tokens: seq<string>, n: nat)
    requires 2 * (n + 1) <= |tokens| + 1 && n >= 1
    ensures ChainLabels(tokens, n + 1) == ChainLabels(tokens, n)[n := tokens[2 * n]]
    ensures ChainEdges(tokens, n + 1) == ChainEdges(tokens, n)[Edge(n - 1, n) := Some(tokens[2 * n - 1])]
  {
    var e0, e1 := ChainEdges(tokens, n), ChainEdges(tokens, n + 1);
    forall e | e in e1
      ensures e in e0[Edge(n - 1, n) := Some(tokens[2 * n - 1])]
    {
    }
    forall e | e in e0
      ensures e in e1 && e1[e] == e0[e]
    {
      var i :| 1 <= i < n && e == Edge(i - 1, i);
    }
  }

  lemma ChainStart(tokens: seq<string>)
    requires |tokens| >= 1
    ensures ChainLabels(tokens, 1) == map[0 := tokens[0]] && ChainEdges(tokens, 1) == map[]
  {
    assert ChainLabels(tokens, 1) == map[0 := tokens[0]];
    assert ChainEdges(tokens, 1) == map[];
  }

  /** The loop has read every token when their count is odd. */
  lemma ChainDone(tokens: seq<string>, n: nat)
    requires |tokens| == 2 * n + 1
    ensures |tokens| % 2 == 1
    ensures Chain(tokens) == Graph(ChainLabels(tokens, n + 1), ChainEdges(tokens, n + 1))
  {
  }

  /** The loop runs off the end when the count is even. */
  lemma ChainShort(tokens: seq<string>, n: nat)
    requires |tokens| == 2 * n + 2
    ensures |tokens| % 2 == 0
  {
  }

  /** `path_tuple_to_graph(sig_str)`; `None` stands for the `IndexError` raised
      when the signature has an even number of tokens (or none). */
  method PathTupleToGraph(sig: string) returns (r: Option<Graph>)
    ensures r.Some? <==> |SignatureTokens(sig)| % 2 == 1
    ensures r.Some? ==> r.value == Chain(SignatureTokens(sig))
  {
    var tokens := SignatureTokens(sig);
    if |tokens| == 0 {
      return None;
    }
    ChainStart(tokens);
    if |tokens| == 1 {
      ChainDone(tokens, 0);
      r := Some(Graph(map[0 := tokens[0]], map[]));
      return;
    }
    var labels := map[0 := tokens[0]];
    var edges: map<Edge, Option<string>> := map[];
    var nodeIdx := 0;
    var currIdx := 1;
    while currIdx < |tokens|
      invariant currIdx == 2 * nodeIdx + 1 <= |tokens|
      invariant labels == ChainLabels(tokens, nodeIdx + 1)
      invariant edges == ChainEdges(tokens, nodeIdx + 1)
    {
      if currIdx + 1 >= |tokens| {
        ChainShort(tokens, nodeIdx);
        return None;
      }
      var edgeLabel := tokens[currIdx];
      var nextNode := tokens[currIdx + 1];
      ChainStep(tokens, nodeIdx + 1);
      nodeIdx := nodeIdx + 1;
      labels := labels[nodeIdx := nextNode];
      edges := edges[Edge(nodeIdx - 1, nodeIdx) := Some(edgeLabel)];
      currIdx := currIdx + 2;
    }
    ChainDone(tokens, nodeIdx);
    r := Some(Graph(labels, edges));
  }

  /** A label that survives `replace('-', ' ').split()` as one token. */
  predicate CleanLabel(s: string) {
    IsToken(s) && NoChar(s, '-')
  }

  /** Every node and edge label of `g` is a clean label. */
  predicate CleanLabels(g: Graph) {
    && (forall n :: n in g.labels ==> CleanLabel(g.labels[n]))
    && (forall e :: e in g.edges && g.edges[e].Some? ==> CleanLabel(g.edges[e].value))
  }

  lemma NodeLabelClean(g: Graph, n: NodeId)
    requires CleanLabels(g) && n in g.labels
    ensures CleanLabel(g.labels[n])
  {
  }

  lemma EdgeLabelClean(g: Graph, u: NodeId, v: NodeId)
    requires CleanLabels(g) && Adjacent(g, u, v)
    ensures CleanLabel(EdgeLabel(g, u, v))
  {
    if g.edges[Key(u, v)].None? {
      assert EdgeLabel(g, u, v) == "0";
    }
  }

  /** The tokens a traversal of `p` should split into: labels and edge labels, alternating. */
  function Interleaved(g: Graph, p: seq<NodeId>): (r: seq<string>)
    requires IsPath(g, p)
    ensures |r| == 2 * |p| - 1
  {
    if |p| == 1 then [g.labels[p[0]]]
    else [g.labels[p[0]], EdgeLabel(g, p[0], p[1])] + Interleaved(g, p[1..])
  }

  lemma {:induction false} InterleavedAt(g: Graph, p: seq<NodeId>, i: nat)
    requires IsPath(g, p) && i < |p|
    ensures Interleaved(g, p)[2 * i] == g.labels[p[i]]
    ensures i < |p| - 1 ==> Interleaved(g, p)[2 * i + 1] == EdgeLabel(g, p[i], p[i + 1])
  {
    if i > 0 {
      InterleavedAt(g, p[1..], i - 1);
    }
  }

  lemma TraversalCons(g: Graph, p: seq<NodeId>)
    requires IsPath(g, p) && |p| >= 2
    ensures IsPath(g, p[1..])
    ensures Traversal(g, p) == g.labels[p[0]] + Separator(g, p[0], p[1]) + Traversal(g, p[1..])
  {
    var l, sep := g.labels[p[0]], Separator(g, p[0], p[1]);
    assert Pieces(g, p) == [l] + ([sep] + Pieces(g, p[1..]));
    assert IsPath(g, p[1..]);
    ConcatCons(l, [sep] + Pieces(g, p[1..]));
    ConcatCons(sep, Pieces(g, p[1..]));
  }

  lemma InterleavedCons(g: Graph, p: seq<NodeId>)
    requires IsPath(g, p) && |p| >= 2
    ensures IsPath(g, p[1..])
    ensures Interleaved(g, p) == [g.labels[p[0]], EdgeLabel(g, p[0], p[1])] + Interleaved(g, p[1..])
  {
  }

  lemma {:induction false} TraversalWithSpaces(g: Graph, p: seq<NodeId>)
    requires IsPath(g, p) && CleanLabels(g)
    ensures ReplaceChar(Traversal(g, p), '-', ' ') == Join(Interleaved(g, p), " ")
    decreases |p|
  {
    var l := g.labels[p[0]];
    NodeLabelClean(g, p[0]);
    if |p| == 1 {
      assert Pieces(g, p) == [l];
      ReplaceCharAbsent(l, '-', ' ');
    } else {
      var rest := p[1..];
      var e := EdgeLabel(g, p[0], p[1]);
      EdgeLabelClean(g, p[0], p[1]);
      TraversalCons(g, p);
      var t := Traversal(g, rest);
      calc {
        ReplaceChar(Traversal(g, p), '-', ' ');
        { assert Traversal(g, p) == l + ("-" + e + "-" + t); }
        ReplaceChar(l + ("-" + e + "-" + t), '-', ' ');
        { ReplaceAroundDashes(l, e, t); }
        l + " " + e + " " + ReplaceChar(t, '-', ' ');
        { TraversalWithSpaces(g, rest); }
        l + " " + e + " " + Join(Interleaved(g, rest), " ");
        { JoinTwo(l, e, Interleaved(g, rest), " "); }
        Join([l, e] + Interleaved(g, rest), " ");
        { InterleavedCons(g, p); }
        Join(Interleaved(g, p), " ");
      }
    }
  }

  /** Splitting a traversal string recovers labels and edge labels alternately. */
  lemma TraversalTokens(g: Graph, p: seq<NodeId>)
    requires IsPath(g, p) && CleanLabels(g)
    ensures SignatureTokens(Traversal(g, p)) == Interleaved(g, p)
  {
    TraversalWithSpaces(g, p);
    InterleavedTokens(g, p);
    WordsOfJoin(Interleaved(g, p));
  }

  /** Clean labels make every interleaved piece a single token. */
  lemma {:induction false} InterleavedTokens(g: Graph, p: seq<NodeId>)
    requires IsPath(g, p) && CleanLabels(g)
    ensures forall k :: 0 <= k < |Interleaved(g, p)| ==> IsToken(Interleaved(g, p)[k])
    decreases |p|
  {
    NodeLabelClean(g, p[0]);
    if |p| > 1 {
      EdgeLabelClean(g, p[0], p[1]);
      InterleavedCons(g, p);
      InterleavedTokens(g, p[1..]);
      var ts, rest := Interleaved(g, p), Interleaved(g, p[1..]);
      forall k | 0 <= k < |ts|
        ensures IsToken(ts[k])
      {
        if k >= 2 {
          assert ts[k] == rest[k - 2];
        }
      }
    }
  }

  /** `c` is the chain that lays out the nodes and edges of `p` as 0, 1, 2, ... */
  ghost predicate ChainOfPath(c: Graph, g: Graph, p: seq<NodeId>)
    requires IsPath(g, p)
  {
    && (forall i :: i in c.labels <==> 0 <= i < |p|)
    && (forall i :: 0 <= i < |p| ==> c.labels[i] == g.labels[p[i]])
    && (forall e :: e in c.edges <==> 1 <= e.hi < |p| && e.lo == e.hi - 1)
    && (forall i :: 1 <= i < |p| ==> c.edges[Edge(i - 1, i)] == Some(EdgeLabel(g, p[i - 1], p[i])))
  }

  lemma ChainSize(ts: seq<string>, n: nat)
    requires |ts| == 2 * n - 1
    ensures (|ts| + 1) / 2 == n
  {
  }

  /** The nodes of `Chain(ts)` are 0 .. n-1 and its edges join consecutive nodes. */
  lemma {:induction false} ChainKeys(ts: seq<string>, n: nat)
    requires |ts| == 2 * n - 1
    ensures var c := Chain(ts);
      && (forall i :: i in c.labels <==> 0 <= i < n)
      && (forall e :: e in c.edges <==> 1 <= e.hi < n && e.lo == e.hi - 1)
  {
    var c := Chain(ts);
    ChainSize(ts, n);
    forall e: Edge | 1 <= e.hi < n && e.lo == e.hi - 1
      ensures e in c.edges
    {
      assert e == Edge(e.hi - 1, e.hi);
    }
  }

  /** Node i of `Chain(ts)` carries `ts[2i]`, and edge (i-1, i) carries `ts[2i-1]`. */
  lemma ChainAt(ts: seq<string>, n: nat, i: nat)
    requires |ts| == 2 * n - 1 && i < n
    ensures i in Chain(ts).labels && Chain(ts).labels[i] == ts[2 * i]
    ensures i >= 1 ==> Edge(i - 1, i) in Chain(ts).edges && Chain(ts).edges[Edge(i - 1, i)] == Some(ts[2 * i - 1])
  {
    ChainSize(ts, n);
  }

  lemma {:induction false} ChainOfInterleaved(g: Graph, p: seq<NodeId>)
    requires IsPath(g, p)
    ensures ChainOfPath(Chain(Interleaved(g, p)), g, p)
  {
    var ts := Interleaved(g, p);
    var c := Chain(ts);
    ChainKeys(ts, |p|);
    forall i | 0 <= i < |p|
      ensures c.labels[i] == g.labels[p[i]]
    {
      ChainAt(ts, |p|, i);
      InterleavedAt(g, p, i);
    }
    forall i | 1 <= i < |p|
      ensures c.edges[Edge(i - 1, i)] == Some(EdgeLabel(g, p[i - 1], p[i]))
    {
      ChainAt(ts, |p|, i);
      InterleavedEdgeAt(g, p, i);
    }
  }

  lemma InterleavedEdgeAt(g: Graph, p: seq<NodeId>, i: nat)
    requires IsPath(g, p) && 1 <= i < |p|
    ensures Interleaved(g, p)[2 * i - 1] == EdgeLabel(g, p[i - 1], p[i])
  {
    InterleavedAt(g, p, i - 1);
    assert 2 * (i - 1) + 1 == 2 * i - 1 && i - 1 + 1 == i;
  }

  /** For clean labels, the feature writer's `path_tuple_to_graph` rebuilds
      the mined path (in one of its two directions) from its signature. */
  lemma ChainFromSignature(g: Graph, p: seq<NodeId>)
    requires IsPath(g, p) && CleanLabels(g)
    ensures |SignatureTokens(PathSignature(g, p))| == 2 * |p| - 1
    ensures ChainOfPath(Chain(SignatureTokens(PathSignature(g, p))), g, p)
         || (IsPath(g, Reverse(p)) && ChainOfPath(Chain(SignatureTokens(PathSignature(g, p))), g, Reverse(p)))
  {
    ReversePath(g, p);
    TraversalTokens(g, p);
    TraversalTokens(g, Reverse(p));
    ChainOfInterleaved(g, p);
    ChainOfInterleaved(g, Reverse(p));
    MinStrIsLeast(Traversal(g, p), Traversal(g, Reverse(p)));
  }

  // ---------------------------------------------------------------------------
  // Hollow rings
  // ---------------------------------------------------------------------------

  /** The node following position i around the ring (wrapping to the start). */
  function Next(ring: seq<NodeId>, i: nat): NodeId
    requires i < |ring|
  {
    ring[(i + 1) % |ring|]
  }

  /** Keys of the consecutive ring pairs (the closing pair included) that are edges of `g`. */
  function RingEdgeKeys(g: Graph, ring: seq<NodeId>, upTo: nat): set<Edge>
    requires upTo <= |ring|
  {
    set i | 0 <= i < upTo && Adjacent(g, ring[i], Next(ring, i)) :: Key(ring[i], Next(ring, i))
  }

  predicate LabelledRing(g: Graph, ring: seq<NodeId>) {
    forall i :: 0 <= i < |ring| ==> ring[i] in g.labels
  }

  /** The labels of the first `upTo` ring nodes, as `g` gives them. */
  function RingLabels(g: Graph, ring: seq<NodeId>, upTo: nat): map<NodeId, string>
    requires LabelledRing(g, ring) && upTo <= |ring|
  {
    map n | n in ring[..upTo] :: g.labels[n]
  }

  /** The edges between the first `upTo` consecutive ring pairs, each with its label from `g`. */
  function RingEdgeMap(g: Graph, ring: seq<NodeId>, upTo: nat): map<Edge, Option<string>>
    requires upTo <= |ring|
  {
    map e | e in RingEdgeKeys(g, ring, upTo) :: Some(EdgeLabel(g, e.lo, e.hi))
  }

  /** The subgraph holding the ring's nodes with their labels and only the
      ring's own edges; an edge without a label gets the label `0`. */
  function HollowRing(g: Graph, ring: seq<NodeId>): Graph
    requires LabelledRing(g, ring)
  {
    Graph(RingLabels(g, ring, |ring|), RingEdgeMap(g, ring, |ring|))
  }

  lemma RingLabelsStep(g: Graph, ring: seq<NodeId>, i: nat)
    requires LabelledRing(g, ring) && i < |ring|
    ensures RingLabels(g, ring, i + 1) == RingLabels(g, ring, i)[ring[i] := g.labels[ring[i]]]
  {
    assert ring[..i + 1] == ring[..i] + [ring[i]];
  }

  lemma RingEdgeMapStep(g: Graph, ring: seq<NodeId>, i: nat)
    requires i < |ring|
    ensures Adjacent(g, ring[i], Next(ring, i)) ==>
      RingEdgeMap(g, ring, i + 1)
        == RingEdgeMap(g, ring, i)[Key(ring[i], Next(ring, i)) := Some(EdgeLabel(g, ring[i], Next(ring, i)))]
    ensures !Adjacent(g, ring[i], Next(ring, i)) ==> RingEdgeMap(g, ring, i + 1) == RingEdgeMap(g, ring, i)
  {
    RingEdgeKeysStep(g, ring, i);
    var k := Key(ring[i], Next(ring, i));
    if Adjacent(g, ring[i], Next(ring, i)) {
      var m := RingEdgeMap(g, ring, i)[k := Some(EdgeLabel(g, ring[i], Next(ring, i)))];
      assert RingEdgeMap(g, ring, i + 1).Keys == m.Keys;
      forall e | e in m
        ensures RingEdgeMap(g, ring, i + 1)[e] == m[e]
      {
      }
    }
  }

  lemma RingEdgeKeysStep(g: Graph, ring: seq<NodeId>, i: nat)
    requires i < |ring|
    ensures Adjacent(g, ring[i], Next(ring, i)) ==>
      RingEdgeKeys(g, ring, i + 1) == RingEdgeKeys(g, ring, i) + {Key(ring[i], Next(ring, i))}
    ensures !Adjacent(g, ring[i], Next(ring, i)) ==> RingEdgeKeys(g, ring, i + 1) == RingEdgeKeys(g, ring, i)
  {
    forall e | e in RingEdgeKeys(g, ring, i + 1)
      ensures e in RingEdgeKeys(g, ring, i) || (Adjacent(g, ring[i], Next(ring, i)) && e == Key(ring[i], Next(ring, i)))
    {
    }
  }

  /** `build_hollow_ring(graph, ring_nodes)` */
  method BuildHollowRing(g: Graph, ring: seq<NodeId>) returns (sub: Graph)
    requires LabelledRing(g, ring)
    ensures sub == HollowRing(g, ring)
  {
    var labels: map<NodeId, string> := map[];
    for i := 0 to |ring|
      invariant labels == RingLabels(g, ring, i)
    {
      RingLabelsStep(g, ring, i);
      labels := labels[ring[i] := g.labels[ring[i]]];
    }
    var edges: map<Edge, Option<string>> := map[];
    for i := 0 to |ring|
      invariant edges == RingEdgeMap(g, ring, i)
    {
      var u := ring[i];
      var v := ring[(i + 1) % |ring|];
      RingEdgeMapStep(g, ring, i);
      if Key(u, v) in g.edges {
        edges := edges[Key(u, v) := Some(EdgeLabel(g, u, v))];
      }
    }
    sub := Graph(labels, edges);
  }

  /** The hollow ring holds exactly the ring's nodes, with their labels from `g`. */
  lemma HollowRingNodes(g: Graph, ring: seq<NodeId>)
    requires LabelledRing(g, ring)
    ensures var h := HollowRing(g, ring);
      && (forall n :: n in h.labels <==> n in ring)
      && (forall n :: n in h.labels ==> h.labels[n] == g.labels[n])
  {
    assert ring[..|ring|] == ring;
  }

  /** The hollow ring's edges are exactly those consecutive pairs of the ring
      (the closing pair included) that are edges of `g`, each carrying its
      label from `g`; so the hollow ring is a well-formed subgraph of `g`. */
  lemma HollowRingEdges(g: Graph, ring: seq<NodeId>)
    requires WellFormed(g) && LabelledRing(g, ring)
    ensures var h := HollowRing(g, ring);
      && WellFormed(h)
      && (forall e :: e in h.edges ==> e in g.edges && h.edges[e] == Some(EdgeLabel(g, e.lo, e.hi)))
      && (forall e :: e in h.edges ==> exists i :: 0 <= i < |ring| && e == Key(ring[i], Next(ring, i)))
      && (forall i :: 0 <= i < |ring| && Adjacent(g, ring[i], Next(ring, i)) ==> Key(ring[i], Next(ring, i)) in h.edges)
  {
    var h := HollowRing(g, ring);
    forall e | e in h.edges
      ensures e.lo <= e.hi && e.lo in h.labels && e.hi in h.labels
      ensures exists i :: 0 <= i < |ring| && e == Key(ring[i], Next(ring, i))
    {
      var i :| 0 <= i < |ring| && Adjacent(g, ring[i], Next(ring, i)) && e == Key(ring[i], Next(ring, i));
      assert ring[i] in ring && Next(ring, i) in ring;
    }
  }
}
