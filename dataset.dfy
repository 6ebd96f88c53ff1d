/** A1/q3/utils.py: the dataset record of a graph, its duplicate-detection
    key, the dataset parser, and the gSpan writer and reader. */
module Dataset {
  import opened Text

  /** `(u, v, lbl)` in a record's edge list. */
  datatype EdgeRec = EdgeRec(u: int, v: int, lbl: string)

  /** `{'id': ..., 'nodes': {...}, 'edges': [...]}` */
  datatype Record = Record(id: int, nodes: map<int, string>, edges: seq<EdgeRec>)

  // ---------------------------------------------------------------------------
  // `sorted(d.items())` on integer keys
  // ---------------------------------------------------------------------------

  predicate IsMin(m: int, s: set<int>) {
    m in s && forall x :: x in s ==> m <= x
  }

  lemma NonEmptyHasElement(s: set<int>)
    requires s != {}
    ensures exists y :: y in s
  {
    if !exists y :: y in s {
      NoElementEmpty(s);
      assert false;
    }
  }

  lemma NoElementEmpty(s: set<int>)
    requires forall y :: y !in s
    ensures s == {}
  {
    assert forall y :: y in s <==> y in {};
  }

  lemma MinExists(s: set<int>)
    requires s != {}
    ensures exists m :: IsMin(m, s)
    decreases |s|
  {
    NonEmptyHasElement(s);
    var y :| y in s;
    if s != {y} {
      var s' := s - {y};
      MinExists(s');
      var m :| IsMin(m, s');
      forall x | x in s ensures x == y || x in s' {
      }
      if y < m {
        assert IsMin(y, s);
      } else {
        assert IsMin(m, s);
      }
    } else {
      assert IsMin(y, s);
    }
  }

  function MinOf(s: set<int>): (m: int)
    requires s != {}
    ensures IsMin(m, s)
  {
    MinExists(s);
    var m :| IsMin(m, s);
    m
  }

  /** The keys in increasing order. */
  function SortedKeys(s: set<int>): (r: seq<int>)
    ensures forall i, j :: 0 <= i < j < |r| ==> r[i] < r[j]
    ensures forall x :: x in s <==> x in r
    decreases |s|
  {
    if s == {} then []
    else
      var m := MinOf(s);
      [m] + SortedKeys(s - {m})
  }

  // ---------------------------------------------------------------------------
  // `get_graph_hash`
  // ---------------------------------------------------------------------------

  /** `tuple(sorted([u_lbl, v_lbl])) + (lbl,)` */
  datatype Triple = Triple(lo: string, hi: string, lbl: string)

  function EdgeTriple(a: string, b: string, lbl: string): Triple {
    if LexLess(b, a) then Triple(b, a, lbl) else Triple(a, b, lbl)
  }

  /** Python's `<` on the tuples. */
  predicate TripleLess(x: Triple, y: Triple) {
    LexLess(x.lo, y.lo)
    || (x.lo == y.lo && (LexLess(x.hi, y.hi) || (x.hi == y.hi && LexLess(x.lbl, y.lbl))))
  }

  lemma TripleTotal(x: Triple, y: Triple)
    ensures x == y || TripleLess(x, y) || TripleLess(y, x)
    ensures !(TripleLess(x, y) && TripleLess(y, x))
  {
    LexTrichotomy(x.lo, y.lo);
    LexTrichotomy(x.hi, y.hi);
    LexTrichotomy(x.lbl, y.lbl);
    LexAsymmetric(x.lo, y.lo);
    LexAsymmetric(x.hi, y.hi);
    LexAsymmetric(x.lbl, y.lbl);
    LexIrreflexive(x.lo);
    LexIrreflexive(x.hi);
  }

  lemma TripleTransitive(x: Triple, y: Triple, z: Triple)
    requires TripleLess(x, y) && TripleLess(y, z)
    ensures TripleLess(x, z)
  {
    if LexLess(x.lo, y.lo) {
      if LexLess(y.lo, z.lo) {
        LexTransitive(x.lo, y.lo, z.lo);
      }
    } else if !LexLess(y.lo, z.lo) {
      if LexLess(x.hi, y.hi) {
        if LexLess(y.hi, z.hi) {
          LexTransitive(x.hi, y.hi, z.hi);
        }
      } else if !LexLess(y.hi, z.hi) {
        LexTransitive(x.lbl, y.lbl, z.lbl);
      }
    }
  }

  predicate SortedTriples(s: seq<Triple>) {
    forall i, j :: 0 <= i < j < |s| ==> !TripleLess(s[j], s[i])
  }

  function InsertTriple(x: Triple, s: seq<Triple>): (r: seq<Triple>)
    ensures multiset(r) == multiset(s) + multiset{x}
  {
    if |s| == 0 then [x]
    else if !TripleLess(s[0], x) then [x] + s
    else
      assert s == [s[0]] + s[1..];
      [s[0]] + InsertTriple(x, s[1..])
  }

  lemma {:induction false} InsertTripleSorted(x: Triple, s: seq<Triple>)
    requires SortedTriples(s)
    ensures SortedTriples(InsertTriple(x, s))
  {
    var r := InsertTriple(x, s);
    if |s| == 0 {
    } else if !TripleLess(s[0], x) {
      forall j | 0 < j < |r| ensures !TripleLess(r[j], x) {
        if TripleLess(r[j], x) {
          TripleTotal(s[0], r[j]);
          if TripleLess(s[0], r[j]) {
            TripleTransitive(s[0], r[j], x);
          }
        }
      }
    } else {
      InsertTripleSorted(x, s[1..]);
      forall j | 0 < j < |r| ensures !TripleLess(r[j], s[0]) {
        assert r[j] in multiset(InsertTriple(x, s[1..]));
        if r[j] != x {
          assert r[j] in multiset(s[1..]);
          var k :| 0 <= k < |s[1..]| && s[1..][k] == r[j];
          assert s[k + 1] == r[j];
        } else {
          TripleTotal(s[0], x);
        }
      }
    }
  }

  /** `sorted(edges)` */
  function SortTriples(s: seq<Triple>): (r: seq<Triple>)
    ensures multiset(r) == multiset(s)
  {
    if |s| == 0 then []
    else
      assert s == [s[0]] + s[1..];
      InsertTriple(s[0], SortTriples(s[1..]))
  }

  lemma {:induction false} SortTriplesSorted(s: seq<Triple>)
    ensures SortedTriples(SortTriples(s))
  {
    if |s| > 0 {
      SortTriplesSorted(s[1..]);
      InsertTripleSorted(s[0], SortTriples(s[1..]));
    }
  }

  /** Sorted lists of the same triples start with the same triple. */
  lemma SortedHeads(a: seq<Triple>, b: seq<Triple>)
    requires SortedTriples(a) && SortedTriples(b) && multiset(a) == multiset(b) && |a| > 0
    ensures |b| > 0 && a[0] == b[0]
  {
    assert a[0] in multiset(b);
    assert b[0] in multiset(a);
    var i :| 0 <= i < |b| && b[i] == a[0];
    var j :| 0 <= j < |a| && a[j] == b[0];
    TripleTotal(a[0], b[0]);
  }

  lemma MultisetTail<T>(a: seq<T>)
    requires |a| > 0
    ensures multiset(a[1..]) == multiset(a) - multiset{a[0]}
  {
    assert a == [a[0]] + a[1..];
  }

  /** Two sorted lists of the same triples are the same list. */
  lemma {:induction false} SortedUnique(a: seq<Triple>, b: seq<Triple>)
    requires SortedTriples(a) && SortedTriples(b) && multiset(a) == multiset(b)
    ensures a == b
  {
    if |a| == 0 {
      assert |multiset(b)| == 0;
    } else {
      SortedHeads(a, b);
      MultisetTail(a);
      MultisetTail(b);
      assert SortedTriples(a[1..]) && SortedTriples(b[1..]);
      SortedUnique(a[1..], b[1..]);
      assert a == [a[0]] + a[1..] && b == [b[0]] + b[1..];
    }
  }

  function Triples(nodes: map<int, string>, edges: seq<EdgeRec>): (r: seq<Triple>)
    requires Labelled(nodes, edges)
    ensures |r| == |edges|
  {
    seq(|edges|, k requires 0 <= k < |edges| =>
      EdgeTriple(nodes[edges[k].u], nodes[edges[k].v], edges[k].lbl))
  }

  function NodeLabels(nodes: map<int, string>): seq<string> {
    var ids := SortedKeys(nodes.Keys);
    seq(|ids|, i requires 0 <= i < |ids| => nodes[ids[i]])
  }

  function TripleText(t: Triple): string {
    t.lo + "-" + t.hi + ":" + t.lbl
  }

  function TripleTexts(s: seq<Triple>): seq<string> {
    seq(|s|, i requires 0 <= i < |s| => TripleText(s[i]))
  }

  /** `get_graph_hash(g)`; the edge endpoints must be labelled, as Python
      raises `KeyError` otherwise. */
  function GraphHash(g: Record): string
    requires Labelled(g.nodes, g.edges)
  {
    "N[" + Join(NodeLabels(g.nodes), ",") + "]|E["
      + Join(TripleTexts(SortTriples(Triples(g.nodes, g.edges))), ",") + "]"
  }

  /** Every edge endpoint has a node label. */
  predicate Labelled(nodes: map<int, string>, edges: seq<EdgeRec>) {
    forall k :: 0 <= k < |edges| ==> edges[k].u in nodes && edges[k].v in nodes
  }

  lemma TriplesAppend(nodes: map<int, string>, a: seq<EdgeRec>, b: seq<EdgeRec>)
    requires Labelled(nodes, a + b)
    ensures Labelled(nodes, a) && Labelled(nodes, b)
    ensures Triples(nodes, a + b) == Triples(nodes, a) + Triples(nodes, b)
  {
    assert forall k :: 0 <= k < |a| ==> (a + b)[k] == a[k];
    assert forall k :: 0 <= k < |b| ==> (a + b)[|a| + k] == b[k];
  }

  lemma SplitAround<T>(b: seq<T>, i: nat)
    requires i < |b|
    ensures b == b[..i] + [b[i]] + b[i + 1..]
    ensures multiset(b[..i] + b[i + 1..]) == multiset(b) - multiset{b[i]}
  {
    assert b == b[..i] + [b[i]] + b[i + 1..];
  }

  /** Removing one edge removes its triple from the multiset of triples. */
  lemma TriplesRemove(nodes: map<int, string>, b: seq<EdgeRec>, i: nat)
    requires Labelled(nodes, b) && i < |b|
    ensures Labelled(nodes, b[..i] + b[i + 1..])
    ensures multiset(Triples(nodes, b))
      == multiset(Triples(nodes, b[..i] + b[i + 1..])) + multiset(Triples(nodes, [b[i]]))
  {
    SplitAround(b, i);
    TriplesAppend(nodes, b[..i] + [b[i]], b[i + 1..]);
    TriplesAppend(nodes, b[..i], [b[i]]);
    TriplesAppend(nodes, b[..i], b[i + 1..]);
  }

  lemma {:induction false} TriplesPermutation(nodes: map<int, string>, a: seq<EdgeRec>, b: seq<EdgeRec>)
    requires multiset(a) == multiset(b) && Labelled(nodes, a) && Labelled(nodes, b)
    ensures multiset(Triples(nodes, a)) == multiset(Triples(nodes, b))
    decreases |a|
  {
    if |a| > 0 {
      var n := |a| - 1;
      var x := a[n];
      assert x in multiset(b);
      var i :| 0 <= i < |b| && b[i] == x;
      SplitAround(a, n);
      SplitAround(b, i);
      TriplesRemove(nodes, a, n);
      TriplesRemove(nodes, b, i);
      TriplesPermutation(nodes, a[..n] + a[n + 1..], b[..i] + b[i + 1..]);
    }
  }

  /** Graphs with the same node labels in id order and the same multiset of
      edge triples get the same key. */
  lemma GraphHashCanonical(g: Record, h: Record)
    requires Labelled(g.nodes, g.edges) && Labelled(h.nodes, h.edges)
    requires NodeLabels(g.nodes) == NodeLabels(h.nodes)
    requires multiset(Triples(g.nodes, g.edges)) == multiset(Triples(h.nodes, h.edges))
    ensures GraphHash(g) == GraphHash(h)
  {
    SortTriplesSorted(Triples(g.nodes, g.edges));
    SortTriplesSorted(Triples(h.nodes, h.edges));
    SortedUnique(SortTriples(Triples(g.nodes, g.edges)), SortTriples(Triples(h.nodes, h.edges)));
  }

  /** The key does not depend on the order of the edge list. */
  lemma HashEdgeOrder(g: Record, edges: seq<EdgeRec>)
    requires Labelled(g.nodes, g.edges) && multiset(edges) == multiset(g.edges)
    ensures Labelled(g.nodes, edges)
    ensures GraphHash(g.(edges := edges)) == GraphHash(g)
  {
    forall k | 0 <= k < |edges| ensures edges[k].u in g.nodes && edges[k].v in g.nodes {
      assert edges[k] in multiset(g.edges);
    }
    TriplesPermutation(g.nodes, edges, g.edges);
    GraphHashCanonical(g.(edges := edges), g);
  }

  lemma EdgeTripleSymmetric(a: string, b: string, lbl: string)
    ensures EdgeTriple(a, b, lbl) == EdgeTriple(b, a, lbl)
  {
    LexTrichotomy(a, b);
    LexAsymmetric(a, b);
  }

  /** The key does not depend on which endpoint of an edge is written first. */
  lemma HashEdgeDirection(g: Record, k: nat)
    requires Labelled(g.nodes, g.edges) && k < |g.edges|
    ensures Labelled(g.nodes, g.edges[k := EdgeRec(g.edges[k].v, g.edges[k].u, g.edges[k].lbl)])
    ensures GraphHash(g.(edges := g.edges[k := EdgeRec(g.edges[k].v, g.edges[k].u, g.edges[k].lbl)])) == GraphHash(g)
  {
    var e := g.edges[k];
    var g' := g.(edges := g.edges[k := EdgeRec(e.v, e.u, e.lbl)]);
    EdgeTripleSymmetric(g.nodes[e.u], g.nodes[e.v], e.lbl);
    assert Triples(g'.nodes, g'.edges) == Triples(g.nodes, g.edges);
  }

  /** One label per node in the node part. */
  lemma SortedKeysCount(s: set<int>)
    ensures |SortedKeys(s)| == |s|
  {
    var r := SortedKeys(s);
    DistinctCount(r, s);
  }

  lemma {:induction false} DistinctCount(r: seq<int>, s: set<int>)
    requires forall i, j :: 0 <= i < j < |r| ==> r[i] < r[j]
    requires forall x :: x in s <==> x in r
    ensures |r| == |s|
    decreases |r|
  {
    if |r| > 0 {
      var x := r[|r| - 1];
      var r' := r[..|r| - 1];
      forall y | y in s - {x} ensures y in r' {
        var i :| 0 <= i < |r| && r[i] == y;
        assert i < |r| - 1;
      }
      forall y | y in r' ensures y in s - {x} {
        var i :| 0 <= i < |r'| && r'[i] == y;
        assert r[i] == y && r[i] < x;
      }
      DistinctCount(r', s - {x});
    } else {
      assert forall y :: y !in s;
      assert s == {};
    }
  }

  // ---------------------------------------------------------------------------
  // `parse_dataset`
  // ---------------------------------------------------------------------------

  function Pair(e: EdgeRec): (int, int) {
    (e.u, e.v)
  }

  function Pairs(edges: seq<EdgeRec>): set<(int, int)> {
    set k | 0 <= k < |edges| :: Pair(edges[k])
  }

  /** The loop's variables: the graphs closed so far, `current_graph`, its
      `seen_edges`, and `graph_ct`. */
  datatype ParseState = ParseState(graphs: seq<Record>, current: Option<Record>, seen: set<(int, int)>, count: nat)

  const Start := ParseState([], None, {}, 0)

  predicate IsGraphStart(line: string) {
    StartsWith(line, "#") || StartsWith(line, "t")
  }

  /** The graphs once `current_graph` is appended. */
  function Closed(st: ParseState): seq<Record> {
    if st.current.Some? then st.graphs + [st.current.value] else st.graphs
  }

  /** One line of the loop; `None` for the exception (a missing field, a
      non-integer id, or a `v`/`e` line before any graph header) that makes
      the parser exit. */
  function DatasetStep(st: ParseState, raw: string): Option<ParseState> {
    var line := Strip(raw);
    var parts := Words(line);
    if line == "" then Some(st)
    else if IsGraphStart(line) then
      Some(ParseState(Closed(st), Some(Record(st.count, map[], [])), {}, st.count + 1))
    else if StartsWith(line, "v") then
      if |parts| < 3 || ParseInt(parts[1]).None? || st.current.None? then None
      else
        var g := st.current.value;
        Some(st.(current := Some(g.(nodes := g.nodes[ParseInt(parts[1]).value := parts[2]]))))
    else if StartsWith(line, "e") then
      if |parts| < 4 || ParseInt(parts[1]).None? || ParseInt(parts[2]).None? || st.current.None? then None
      else
        var a, b := ParseInt(parts[1]).value, ParseInt(parts[2]).value;
        var u, v := if a <= b then a else b, if a <= b then b else a;
        var g := st.current.value;
        if (u, v) in st.seen then Some(st)
        else Some(st.(current := Some(g.(edges := g.edges + [EdgeRec(u, v, parts[3])])), seen := st.seen + {(u, v)}))
    else Some(st)
  }

  function DatasetFold(lines: seq<string>): Option<ParseState> {
    if |lines| == 0 then Some(Start)
    else match DatasetFold(lines[..|lines| - 1])
      case None => None
      case Some(st) => DatasetStep(st, lines[|lines| - 1])
  }

  /** `parse_dataset` over the file's lines; `None` when it exits. */
  function ParseDatasetSpec(lines: seq<string>): Option<seq<Record>> {
    match DatasetFold(lines)
    case None => None
    case Some(st) => Some(Closed(st))
  }

  lemma {:induction false} DatasetFoldFail(lines: seq<string>, n: nat)
    requires n <= |lines| && DatasetFold(lines[..n]) == None
    ensures DatasetFold(lines) == None
    decreases |lines| - n
  {
    if n < |lines| {
      assert lines[..n + 1][..n] == lines[..n];
      DatasetFoldFail(lines, n + 1);
    } else {
      assert lines[..n] == lines;
    }
  }

  method ParseDataset(lines: seq<string>) returns (result: Option<seq<Record>>)
    ensures result == ParseDatasetSpec(lines)
  {
    var graphs: seq<Record> := [];
    var current: Option<Record> := None;
    var seen: set<(int, int)> := {};
    var graphCt: nat := 0;
    for i := 0 to |lines|
      invariant DatasetFold(lines[..i]) == Some(ParseState(graphs, current, seen, graphCt))
    {
      assert lines[..i + 1][..i] == lines[..i];
      var line := Strip(lines[i]);
      if line == "" {
        continue;
      }
      var parts := Words(line);
      if IsGraphStart(line) {
        if current.Some? {
          graphs := graphs + [current.value];
        }
        current := Some(Record(graphCt, map[], []));
        seen := {};
        graphCt := graphCt + 1;
      } else if StartsWith(line, "v") {
        if |parts| < 3 || ParseInt(parts[1]).None? || current.None? {
          DatasetFoldFail(lines, i + 1);
          return None;
        }
        var nodeId := ParseInt(parts[1]).value;
        current := Some(current.value.(nodes := current.value.nodes[nodeId := parts[2]]));
      } else if StartsWith(line, "e") {
        if |parts| < 4 || ParseInt(parts[1]).None? || ParseInt(parts[2]).None? || current.None? {
          DatasetFoldFail(lines, i + 1);
          return None;
        }
        var a, b := ParseInt(parts[1]).value, ParseInt(parts[2]).value;
        var u, v := if a <= b then a else b, if a <= b then b else a;
        if (u, v) !in seen {
          current := Some(current.value.(edges := current.value.edges + [EdgeRec(u, v, parts[3])]));
          seen := seen + {(u, v)};
        }
      }
    }
    assert lines[..|lines|] == lines;
    if current.Some? {
      graphs := graphs + [current.value];
    }
    return Some(graphs);
  }

  /** Every edge is stored with `u <= v`, and no two edges share a pair. */
  predicate EdgesCanonical(g: Record) {
    (forall k :: 0 <= k < |g.edges| ==> g.edges[k].u <= g.edges[k].v)
    && forall a, b :: 0 <= a < b < |g.edges| ==> Pair(g.edges[a]) != Pair(g.edges[b])
  }

  /** What the loop keeps true. */
  predicate ParseInvariant(st: ParseState) {
    (forall k :: 0 <= k < |st.graphs| ==> st.graphs[k].id == k && EdgesCanonical(st.graphs[k]))
    && st.count == |st.graphs| + (if st.current.Some? then 1 else 0)
    && (st.current.Some? ==>
          (st.current.value.id == |st.graphs| && EdgesCanonical(st.current.value)
           && st.seen == Pairs(st.current.value.edges)))
  }

  lemma PairsSnoc(edges: seq<EdgeRec>, e: EdgeRec)
    ensures Pairs(edges + [e]) == Pairs(edges) + {Pair(e)}
  {
    var both := edges + [e];
    forall p | p in Pairs(both) ensures p in Pairs(edges) + {Pair(e)} {
      var k :| 0 <= k < |both| && p == Pair(both[k]);
      if k < |edges| {
        assert both[k] == edges[k];
      }
    }
    forall p | p in Pairs(edges) ensures p in Pairs(both) {
      var k :| 0 <= k < |edges| && p == Pair(edges[k]);
      assert both[k] == edges[k];
    }
    assert Pair(e) == Pair(both[|edges|]);
  }

  /** Appending an edge with `u <= v` and a new pair keeps the edge list
      canonical. */
  lemma CanonicalSnoc(g: Record, e: EdgeRec)
    requires EdgesCanonical(g) && e.u <= e.v && Pair(e) !in Pairs(g.edges)
    ensures EdgesCanonical(g.(edges := g.edges + [e]))
    ensures Pairs(g.edges + [e]) == Pairs(g.edges) + {Pair(e)}
    ensures (g.edges + [e])[..|g.edges|] == g.edges
  {
    var edges := g.edges + [e];
    PairsSnoc(g.edges, e);
    assert edges[..|edges| - 1] == g.edges;
    forall x, y | 0 <= x < y < |edges| ensures Pair(edges[x]) != Pair(edges[y]) {
      if y == |edges| - 1 {
        assert Pair(edges[x]) in Pairs(g.edges) by {
          assert edges[x] == g.edges[x];
        }
      } else {
        assert edges[x] == g.edges[x] && edges[y] == g.edges[y];
      }
    }
  }

  /** An `e` line only ever appends an edge whose pair is new, so the first
      label seen for a pair is the one kept. */
  lemma DatasetStepEdges(st: ParseState, raw: string)
    requires ParseInvariant(st) && st.current.Some?
    requires !IsGraphStart(Strip(raw)) && DatasetStep(st, raw).Some?
    ensures ParseInvariant(DatasetStep(st, raw).value)
    ensures DatasetStep(st, raw).value.graphs == st.graphs
    ensures DatasetStep(st, raw).value.current.Some?
    ensures var edges := DatasetStep(st, raw).value.current.value.edges;
      edges == st.current.value.edges
      || (|edges| == |st.current.value.edges| + 1
          && edges[..|edges| - 1] == st.current.value.edges
          && Pair(edges[|edges| - 1]) !in Pairs(st.current.value.edges))
  {
    var line := Strip(raw);
    var parts := Words(line);
    if line != "" && StartsWith(line, "e") && !StartsWith(line, "v") {
      var a, b := ParseInt(parts[1]).value, ParseInt(parts[2]).value;
      var u, v := if a <= b then a else b, if a <= b then b else a;
      var g := st.current.value;
      if (u, v) !in st.seen {
        var e := EdgeRec(u, v, parts[3]);
        CanonicalSnoc(g, e);
      }
    }
  }

  lemma DatasetStepInvariant(st: ParseState, raw: string)
    requires ParseInvariant(st) && DatasetStep(st, raw).Some?
    ensures ParseInvariant(DatasetStep(st, raw).value)
  {
    var line := Strip(raw);
    if line != "" && IsGraphStart(line) {
      var c := Closed(st);
      assert forall k :: 0 <= k < |st.graphs| ==> c[k] == st.graphs[k];
      assert Pairs([]) == {};
    } else if st.current.Some? {
      DatasetStepEdges(st, raw);
    }
  }

  /** The number of lines that open a graph. */
  function GraphStarts(lines: seq<string>): nat {
    if |lines| == 0 then 0
    else
      var line := Strip(lines[|lines| - 1]);
      GraphStarts(lines[..|lines| - 1]) + (if line != "" && IsGraphStart(line) then 1 else 0)
  }

  lemma {:induction false} DatasetFoldInvariant(lines: seq<string>)
    requires DatasetFold(lines).Some?
    ensures ParseInvariant(DatasetFold(lines).value)
    ensures DatasetFold(lines).value.count == GraphStarts(lines)
  {
    if |lines| > 0 {
      var init := lines[..|lines| - 1];
      DatasetFoldInvariant(init);
      DatasetStepInvariant(DatasetFold(init).value, lines[|lines| - 1]);
    }
  }

  /** The parsed graphs are numbered 0, 1, 2, ... one per line starting with
      `#` or `t`, and each stores its edges with `u <= v` and without two
      edges on the same pair. */
  lemma ParsedGraphs(lines: seq<string>)
    requires ParseDatasetSpec(lines).Some?
    ensures |ParseDatasetSpec(lines).value| == GraphStarts(lines)
    ensures forall k :: 0 <= k < |ParseDatasetSpec(lines).value| ==>
      ParseDatasetSpec(lines).value[k].id == k && EdgesCanonical(ParseDatasetSpec(lines).value[k])
  {
    DatasetFoldInvariant(lines);
  }

  // ---------------------------------------------------------------------------
  // `get_lbl` and `write_gspan`
  // ---------------------------------------------------------------------------

  /** A label map with its `next_id` counter. */
  datatype LabelMap = LabelMap(ids: map<string, int>, next: int)

  const Fresh := LabelMap(map[], 1)

  /** `get_lbl(lbl, lmap, next_id)`: an integer label stands for itself; any
      other label gets the id it already has, or the next id. */
  function GetLbl(lbl: string, m: LabelMap): (r: (int, LabelMap))
    ensures ParseInt(lbl).Some? ==> r == (ParseInt(lbl).value, m)
    ensures ParseInt(lbl).None? ==> lbl in r.1.ids && r.0 == r.1.ids[lbl]
    ensures Sub(m, r.1)
    ensures r.1.next == if ParseInt(lbl).None? && lbl !in m.ids then m.next + 1 else m.next
  {
    match ParseInt(lbl)
    case Some(n) => (n, m)
    case None =>
      if lbl in m.ids then (m.ids[lbl], m)
      else (m.next, LabelMap(m.ids[lbl := m.next], m.next + 1))
  }

  /** `m2` keeps every id `m1` gave. */
  predicate Sub(m1: LabelMap, m2: LabelMap) {
    forall l :: l in m1.ids ==> l in m2.ids && m2.ids[l] == m1.ids[l]
  }

  lemma SubTransitive(m1: LabelMap, m2: LabelMap, m3: LabelMap)
    requires Sub(m1, m2) && Sub(m2, m3)
    ensures Sub(m1, m3)
  {
  }

  /** The map after labelling `labels` in order. */
  function AssignAll(labels: seq<string>, m: LabelMap): LabelMap {
    if |labels| == 0 then m else GetLbl(labels[|labels| - 1], AssignAll(labels[..|labels| - 1], m)).1
  }

  /** The non-integer labels in order of first occurrence. */
  function FirstSeen(labels: seq<string>): seq<string> {
    if |labels| == 0 then []
    else
      var before := FirstSeen(labels[..|labels| - 1]);
      var l := labels[|labels| - 1];
      before + (if ParseInt(l).Some? || l in before then [] else [l])
  }

  /** Starting from empty maps, the non-integer labels get 1, 2, 3, ... in
      order of first occurrence, and `next_id` is one past the last. */
  lemma {:induction false} AssignFirstSeen(labels: seq<string>)
    ensures var m, fs := AssignAll(labels, Fresh), FirstSeen(labels);
      (forall l :: l in m.ids <==> l in fs)
      && (forall k :: 0 <= k < |fs| ==> fs[k] in m.ids && m.ids[fs[k]] == k + 1)
      && m.next == |fs| + 1
  {
    if |labels| > 0 {
      var init := labels[..|labels| - 1];
      AssignFirstSeen(init);
      var fs0 := FirstSeen(init);
      var fs := FirstSeen(labels);
      var l := labels[|labels| - 1];
      if ParseInt(l).None? && l !in fs0 {
        assert fs == fs0 + [l];
        assert forall k :: 0 <= k < |fs0| ==> fs[k] == fs0[k];
        forall k | 0 <= k < |fs0| ensures fs0[k] != l {
          assert fs0[k] in fs0;
        }
      } else {
        assert fs == fs0;
        if ParseInt(l).None? {
          assert l in AssignAll(init, Fresh).ids;
        }
        assert AssignAll(labels, Fresh) == AssignAll(init, Fresh);
      }
    }
  }

  /** Ids `1 .. next - 1` given to distinct labels. */
  predicate Dense(m: LabelMap) {
    m.next >= 1
    && (forall l :: l in m.ids ==> 1 <= m.ids[l] < m.next)
    && forall l1, l2 :: l1 in m.ids && l2 in m.ids && l1 != l2 ==> m.ids[l1] != m.ids[l2]
  }

  predicate Injective(ids: map<string, int>) {
    forall l1, l2 :: l1 in ids && l2 in ids && l1 != l2 ==> ids[l1] != ids[l2]
  }

  /** `get_lbl` never gives one id to two labels. */
  lemma GetLblDense(lbl: string, m: LabelMap)
    requires Dense(m)
    ensures Dense(GetLbl(lbl, m).1)
  {
  }

  function VLine(nid: int, lbl: int): string {
    "v " + IntToString(nid) + " " + IntToString(lbl)
  }

  function ELine(u: int, v: int, lbl: int): string {
    "e " + IntToString(u) + " " + IntToString(v) + " " + IntToString(lbl)
  }

  function TLine(id: int): string {
    "t # " + IntToString(id)
  }

  /** The `v` lines of a graph for the node ids `ids`, and the node map after. */
  function NodeLines(nodes: map<int, string>, ids: seq<int>, m: LabelMap): (r: (seq<string>, LabelMap))
    requires forall k :: 0 <= k < |ids| ==> ids[k] in nodes
    ensures |r.0| == |ids|
  {
    if |ids| == 0 then ([], m)
    else
      var before := NodeLines(nodes, ids[..|ids| - 1], m);
      var id := ids[|ids| - 1];
      var (lbl, m') := GetLbl(nodes[id], before.1);
      (before.0 + [VLine(id, lbl)], m')
  }

  /** The `e` lines of a graph, and the edge map after. */
  function EdgeLines(edges: seq<EdgeRec>, m: LabelMap): (r: (seq<string>, LabelMap))
    ensures |r.0| == |edges|
  {
    if |edges| == 0 then ([], m)
    else
      var before := EdgeLines(edges[..|edges| - 1], m);
      var e := edges[|edges| - 1];
      var (lbl, m') := GetLbl(e.lbl, before.1);
      (before.0 + [ELine(e.u, e.v, lbl)], m')
  }

  datatype Written = Written(lines: seq<string>, nodeMap: LabelMap, edgeMap: LabelMap)

  /** One graph's block: header, nodes in increasing id order, edges in
      list order. */
  function GraphLines(g: Record, nm: LabelMap, em: LabelMap): Written {
    var ids := SortedKeys(g.nodes.Keys);
    var (vs, nm') := NodeLines(g.nodes, ids, nm);
    var (es, em') := EdgeLines(g.edges, em);
    Written([TLine(g.id)] + vs + es, nm', em')
  }

  /** `write_gspan`: the lines of the file and the two maps of the `.map` file. */
  function WriteSpec(graphs: seq<Record>): Written {
    if |graphs| == 0 then Written([], Fresh, Fresh)
    else
      var before := WriteSpec(graphs[..|graphs| - 1]);
      var block := GraphLines(graphs[|graphs| - 1], before.nodeMap, before.edgeMap);
      Written(before.lines + block.lines, block.nodeMap, block.edgeMap)
  }

  /** The node loop of `write_gspan` for one graph. */
  method WriteNodes(nodes: map<int, string>, ids: seq<int>, nodeMap: map<string, int>, next: int)
    returns (vs: seq<string>, nodeMap': map<string, int>, next': int)
    requires forall k :: 0 <= k < |ids| ==> ids[k] in nodes
    ensures (vs, LabelMap(nodeMap', next')) == NodeLines(nodes, ids, LabelMap(nodeMap, next))
  {
    vs, nodeMap', next' := [], nodeMap, next;
    for j := 0 to |ids|
      invariant NodeLines(nodes, ids[..j], LabelMap(nodeMap, next)) == (vs, LabelMap(nodeMap', next'))
    {
      assert ids[..j + 1][..j] == ids[..j];
      var r := GetLbl(nodes[ids[j]], LabelMap(nodeMap', next'));
      nodeMap', next' := r.1.ids, r.1.next;
      vs := vs + [VLine(ids[j], r.0)];
    }
    assert ids[..|ids|] == ids;
  }

  /** The edge loop of `write_gspan` for one graph. */
  method WriteEdges(edges: seq<EdgeRec>, edgeMap: map<string, int>, next: int)
    returns (es: seq<string>, edgeMap': map<string, int>, next': int)
    ensures (es, LabelMap(edgeMap', next')) == EdgeLines(edges, LabelMap(edgeMap, next))
  {
    es, edgeMap', next' := [], edgeMap, next;
    for j := 0 to |edges|
      invariant EdgeLines(edges[..j], LabelMap(edgeMap, next)) == (es, LabelMap(edgeMap', next'))
    {
      assert edges[..j + 1][..j] == edges[..j];
      var e := edges[j];
      var r := GetLbl(e.lbl, LabelMap(edgeMap', next'));
      edgeMap', next' := r.1.ids, r.1.next;
      es := es + [ELine(e.u, e.v, r.0)];
    }
    assert edges[..|edges|] == edges;
  }

  method WriteGspan(graphs: seq<Record>) returns (lines: seq<string>, nodeMap: map<string, int>, edgeMap: map<string, int>)
    ensures lines == WriteSpec(graphs).lines
    ensures nodeMap == WriteSpec(graphs).nodeMap.ids && edgeMap == WriteSpec(graphs).edgeMap.ids
  {
    lines, nodeMap, edgeMap := [], map[], map[];
    var nextNode, nextEdge := 1, 1;
    for i := 0 to |graphs|
      invariant WriteSpec(graphs[..i]) == Written(lines, LabelMap(nodeMap, nextNode), LabelMap(edgeMap, nextEdge))
    {
      assert graphs[..i + 1][..i] == graphs[..i];
      var g := graphs[i];
      var vs, es;
      vs, nodeMap, nextNode := WriteNodes(g.nodes, SortedKeys(g.nodes.Keys), nodeMap, nextNode);
      es, edgeMap, nextEdge := WriteEdges(g.edges, edgeMap, nextEdge);
      lines := lines + ([TLine(g.id)] + vs + es);
    }
    assert graphs[..|graphs|] == graphs;
  }

  // ---------------------------------------------------------------------------
  // `parse_gspan_fp`
  // ---------------------------------------------------------------------------

  /** A graph read back, with the support it was reported under. */
  datatype FpRecord = FpRecord(id: int, nodes: map<int, string>, edges: seq<EdgeRec>, support: int)

  /** `node_rev_map` and `edge_rev_map` (empty without a map file). */
  datatype RevMaps = RevMaps(nodes: map<int, string>, edges: map<int, string>)

  /** The loop's variables: graphs so far, `current_graph`, `last_support`. */
  datatype FpState = FpState(graphs: seq<FpRecord>, current: Option<FpRecord>, support: int)

  const FpStart := FpState([], None, 0)

  function FpClosed(st: FpState): seq<FpRecord> {
    if st.current.Some? then st.graphs + [st.current.value] else st.graphs
  }

  /** `parts.index(x)` */
  function IndexOf(parts: seq<string>, x: string): (i: nat)
    requires x in parts
    ensures i < |parts| && parts[i] == x && forall j :: 0 <= j < i ==> parts[j] != x
  {
    if parts[0] == x then 0 else 1 + IndexOf(parts[1..], x)
  }

  /** `rev_map.get(ilbl, str(ilbl))` */
  function Restore(rev: map<int, string>, ilbl: int): string {
    if ilbl in rev then rev[ilbl] else IntToString(ilbl)
  }

  /** The support a `t` line leaves in force: the number after `*` when
      there is one (`None` when it is not an integer). */
  function HeaderSupport(parts: seq<string>, last: int): Option<int> {
    if "*" in parts && IndexOf(parts, "*") + 1 < |parts| then ParseInt(parts[IndexOf(parts, "*") + 1])
    else Some(last)
  }

  /** One line of the loop; `None` for an exception, which `parse_gspan_fp`
      does not catch. */
  function FpStep(st: FpState, raw: string, rev: RevMaps): Option<FpState> {
    var line := Strip(raw);
    var parts := Words(line);
    if line == "" then Some(st)
    else if StartsWith(line, "#") then
      if |parts| >= 2 && ParseInt(parts[1]).Some? then Some(st.(support := ParseInt(parts[1]).value)) else Some(st)
    else if StartsWith(line, "t") then
      if |parts| < 2 then None
      else if parts[1] == "#" then
        if |parts| < 3 || ParseInt(parts[2]).None? || HeaderSupport(parts, st.support).None? then None
        else
          var support := HeaderSupport(parts, st.support).value;
          Some(FpState(FpClosed(st), Some(FpRecord(ParseInt(parts[2]).value, map[], [], support)), support))
      else if ParseInt(parts[1]).None? then None
      else Some(FpState(FpClosed(st), Some(FpRecord(ParseInt(parts[1]).value, map[], [], st.support)), st.support))
    else if StartsWith(line, "v") then
      if |parts| < 3 then Some(st)
      else if ParseInt(parts[1]).None? || ParseInt(parts[2]).None? || st.current.None? then None
      else
        var g := st.current.value;
        var lbl := Restore(rev.nodes, ParseInt(parts[2]).value);
        Some(st.(current := Some(g.(nodes := g.nodes[ParseInt(parts[1]).value := lbl]))))
    else if StartsWith(line, "e") then
      if |parts| < 4 then Some(st)
      else if ParseInt(parts[1]).None? || ParseInt(parts[2]).None? || ParseInt(parts[3]).None? || st.current.None? then None
      else
        var g := st.current.value;
        var e := EdgeRec(ParseInt(parts[1]).value, ParseInt(parts[2]).value, Restore(rev.edges, ParseInt(parts[3]).value));
        Some(st.(current := Some(g.(edges := g.edges + [e]))))
    else Some(st)
  }

  function FpRun(st: FpState, lines: seq<string>, rev: RevMaps): Option<FpState> {
    if |lines| == 0 then Some(st)
    else match FpRun(st, lines[..|lines| - 1], rev)
      case None => None
      case Some(s) => FpStep(s, lines[|lines| - 1], rev)
  }

  function ParseFpSpec(lines: seq<string>, rev: RevMaps): Option<seq<FpRecord>> {
    match FpRun(FpStart, lines, rev)
    case None => None
    case Some(st) => Some(FpClosed(st))
  }

  lemma {:induction false} FpRunAppend(st: FpState, a: seq<string>, b: seq<string>, rev: RevMaps)
    ensures FpRun(st, a + b, rev) == match FpRun(st, a, rev) case None => None case Some(s) => FpRun(s, b, rev)
    decreases |b|
  {
    if |b| == 0 {
      assert a + b == a;
    } else {
      assert (a + b)[..|a + b| - 1] == a + b[..|b| - 1];
      FpRunAppend(st, a, b[..|b| - 1], rev);
    }
  }

  method ParseGspanFp(lines: seq<string>, rev: RevMaps) returns (result: Option<seq<FpRecord>>)
    ensures result == ParseFpSpec(lines, rev)
  {
    var graphs: seq<FpRecord> := [];
    var current: Option<FpRecord> := None;
    var lastSupport := 0;
    for i := 0 to |lines|
      invariant FpRun(FpStart, lines[..i], rev) == Some(FpState(graphs, current, lastSupport))
    {
      FpRunNext(lines, i, rev, FpState(graphs, current, lastSupport));
      var ok;
      ok, graphs, current, lastSupport := FpLine(graphs, current, lastSupport, lines[i], rev);
      if !ok {
        FpRunFail(lines, i + 1, rev);
        return None;
      }
    }
    assert lines[..|lines|] == lines;
    if current.Some? {
      graphs := graphs + [current.value];
    }
    return Some(graphs);
  }

  /** The body of the loop of `parse_gspan_fp` for one line; `ok` is false
      where Python raises. */
  method FpLine(graphs: seq<FpRecord>, current: Option<FpRecord>, lastSupport: int, raw: string, rev: RevMaps)
    returns (ok: bool, graphs': seq<FpRecord>, current': Option<FpRecord>, lastSupport': int)
    ensures ok <==> FpStep(FpState(graphs, current, lastSupport), raw, rev).Some?
    ensures ok ==> FpStep(FpState(graphs, current, lastSupport), raw, rev) == Some(FpState(graphs', current', lastSupport'))
  {
    ok, graphs', current', lastSupport' := true, graphs, current, lastSupport;
    var line := Strip(raw);
    if line == "" {
      return;
    }
    var parts := Words(line);
    if StartsWith(line, "#") {
      if |parts| >= 2 && ParseInt(parts[1]).Some? {
        lastSupport' := ParseInt(parts[1]).value;
      }
    } else if StartsWith(line, "t") {
      ok, graphs', current', lastSupport' := FpHeaderLine(graphs, current, lastSupport, raw, rev);
    } else if StartsWith(line, "v") {
      if |parts| < 3 {
        return;
      }
      if ParseInt(parts[1]).None? || ParseInt(parts[2]).None? || current.None? {
        return false, graphs, current, lastSupport;
      }
      var nid, ilbl := ParseInt(parts[1]).value, ParseInt(parts[2]).value;
      var lbl := Restore(rev.nodes, ilbl);
      current' := Some(current.value.(nodes := current.value.nodes[nid := lbl]));
    } else if StartsWith(line, "e") {
      if |parts| < 4 {
        return;
      }
      if ParseInt(parts[1]).None? || ParseInt(parts[2]).None? || ParseInt(parts[3]).None? || current.None? {
        return false, graphs, current, lastSupport;
      }
      var u, v, ilbl := ParseInt(parts[1]).value, ParseInt(parts[2]).value, ParseInt(parts[3]).value;
      var lbl := Restore(rev.edges, ilbl);
      current' := Some(current.value.(edges := current.value.edges + [EdgeRec(u, v, lbl)]));
    }
  }

  /** A `t` line: closes the open graph and opens a new one, taking the
      support after `*` when the line has one. */
  method FpHeaderLine(graphs: seq<FpRecord>, current: Option<FpRecord>, lastSupport: int, raw: string, rev: RevMaps)
    returns (ok: bool, graphs': seq<FpRecord>, current': Option<FpRecord>, lastSupport': int)
    requires Strip(raw) != "" && !StartsWith(Strip(raw), "#") && StartsWith(Strip(raw), "t")
    ensures ok <==> FpStep(FpState(graphs, current, lastSupport), raw, rev).Some?
    ensures ok ==> FpStep(FpState(graphs, current, lastSupport), raw, rev) == Some(FpState(graphs', current', lastSupport'))
  {
    var parts := Words(Strip(raw));
    ok, graphs', current', lastSupport' := true, graphs, current, lastSupport;
    if current.Some? {
      graphs' := graphs + [current.value];
    }
    if |parts| < 2 {
      return false, graphs', current', lastSupport';
    }
    var gid: int;
    if parts[1] == "#" {
      if |parts| < 3 || ParseInt(parts[2]).None? {
        return false, graphs', current', lastSupport';
      }
      gid := ParseInt(parts[2]).value;
      if "*" in parts {
        var idx := IndexOf(parts, "*");
        if idx + 1 < |parts| {
          if ParseInt(parts[idx + 1]).None? {
            return false, graphs', current', lastSupport';
          }
          lastSupport' := ParseInt(parts[idx + 1]).value;
        }
      }
    } else {
      if ParseInt(parts[1]).None? {
        return false, graphs', current', lastSupport';
      }
      gid := ParseInt(parts[1]).value;
    }
    current' := Some(FpRecord(gid, map[], [], lastSupport'));
  }

  lemma FpRunNext(lines: seq<string>, i: nat, rev: RevMaps, st: FpState)
    requires i < |lines| && FpRun(FpStart, lines[..i], rev) == Some(st)
    ensures FpRun(FpStart, lines[..i + 1], rev) == FpStep(st, lines[i], rev)
  {
    assert lines[..i + 1][..i] == lines[..i];
  }

  lemma {:induction false} FpRunFail(lines: seq<string>, n: nat, rev: RevMaps)
    requires n <= |lines| && FpRun(FpStart, lines[..n], rev) == None
    ensures FpRun(FpStart, lines, rev) == None
    decreases |lines| - n
  {
    if n < |lines| {
      assert lines[..n + 1][..n] == lines[..n];
      FpRunFail(lines, n + 1, rev);
    } else {
      assert lines[..n] == lines;
    }
  }

  /** A line that can change `last_support`. */
  predicate SetsSupport(raw: string) {
    var line := Strip(raw);
    StartsWith(line, "#") || (StartsWith(line, "t") && "*" in Words(line))
  }

  /** How one line that does not set the support changes the supports of
      the graphs read so far: it keeps them, and a graph it opens gets the
      support in force. */
  predicate SupportsKept(before: FpState, after: FpState, support: int) {
    var c, c' := FpClosed(before), FpClosed(after);
    after.support == support
    && |c| <= |c'|
    && (forall k :: 0 <= k < |c| ==> c'[k].support == c[k].support)
    && (forall k :: |c| <= k < |c'| ==> c'[k].support == support)
  }

  lemma FpStepSupport(st: FpState, raw: string, rev: RevMaps)
    requires !SetsSupport(raw) && FpStep(st, raw, rev).Some?
    ensures SupportsKept(st, FpStep(st, raw, rev).value, st.support)
  {
    var line := Strip(raw);
    var parts := Words(line);
    var st' := FpStep(st, raw, rev).value;
    if line != "" && !StartsWith(line, "#") && StartsWith(line, "t") {
      if parts[1] == "#" {
        assert HeaderSupport(parts, st.support) == Some(st.support);
      }
      assert FpClosed(st') == FpClosed(st) + [st'.current.value];
    }
  }

  /** Without a line that sets it, the support stays as it is and every
      graph opened gets it. */
  lemma {:induction false} SupportCarried(st: FpState, lines: seq<string>, rev: RevMaps)
    requires forall k :: 0 <= k < |lines| ==> !SetsSupport(lines[k])
    requires FpRun(st, lines, rev).Some?
    ensures SupportsKept(st, FpRun(st, lines, rev).value, st.support)
  {
    if |lines| > 0 {
      var init := lines[..|lines| - 1];
      SupportCarried(st, init, rev);
      var mid := FpRun(st, init, rev).value;
      FpStepSupport(mid, lines[|lines| - 1], rev);
    }
  }

  // ---------------------------------------------------------------------------
  // Reading back what `write_gspan` wrote
  // ---------------------------------------------------------------------------

  /** `{int(v): k for k, v in data['nodes'].items()}`: the map file read
      back as id -> label. */
  ghost function Inverse(ids: map<string, int>): (rev: map<int, string>)
    requires Injective(ids)
    ensures forall l :: l in ids ==> ids[l] in rev && rev[ids[l]] == l
    ensures forall i :: i in rev ==> exists l :: l in ids && ids[l] == i
  {
    map i | i in ids.Values :: var l :| l in ids && ids[l] == i; l
  }

  /** `rev` gives back every label `m` numbered. */
  predicate Restores(rev: map<int, string>, m: LabelMap) {
    forall l :: l in m.ids ==> m.ids[l] in rev && rev[m.ids[l]] == l
  }

  /** Every label of the graph is something other than an integer, so that
      `get_lbl` numbers it through the map. */
  predicate Named(g: Record) {
    (forall id :: id in g.nodes ==> ParseInt(g.nodes[id]).None?)
    && forall k :: 0 <= k < |g.edges| ==> ParseInt(g.edges[k].lbl).None?
  }

  /** The graphs as `parse_gspan_fp` returns them when no support is given. */
  function Plain(graphs: seq<Record>): (r: seq<FpRecord>)
    ensures |r| == |graphs|
  {
    seq(|graphs|, k requires 0 <= k < |graphs| => FpRecord(graphs[k].id, graphs[k].nodes, graphs[k].edges, 0))
  }

  lemma WordsOfThree(a: string, b: string, c: string)
    requires IsToken(a) && IsToken(b) && IsToken(c)
    ensures Words(a + " " + b + " " + c) == [a, b, c]
  {
    WordsAroundSpace(a + " " + b, c);
    WordsAroundSpace(a, b);
    WordsOfToken(a);
    WordsOfToken(b);
    WordsOfToken(c);
  }

  lemma WordsOfFour(a: string, b: string, c: string, d: string)
    requires IsToken(a) && IsToken(b) && IsToken(c) && IsToken(d)
    ensures Words(a + " " + b + " " + c + " " + d) == [a, b, c, d]
  {
    WordsAroundSpace(a + " " + b + " " + c, d);
    WordsOfThree(a, b, c);
    WordsOfToken(d);
  }

  /** A `v` line reads back as its two numbers. */
  lemma VLineRead(nid: int, lbl: int)
    ensures Strip(VLine(nid, lbl)) == VLine(nid, lbl)
    ensures Words(VLine(nid, lbl)) == ["v", IntToString(nid), IntToString(lbl)]
    ensures StartsWith(VLine(nid, lbl), "v") && !StartsWith(VLine(nid, lbl), "#") && !StartsWith(VLine(nid, lbl), "t")
  {
    var line, a, b := VLine(nid, lbl), IntToString(nid), IntToString(lbl);
    assert line == "v" + " " + a + " " + b;
    WordsOfThree("v", a, b);
    assert line[|line| - 1] == b[|b| - 1];
    StripUnpadded(line);
    assert line[..1] == "v";
  }

  /** An `e` line reads back as its three numbers. */
  lemma ELineRead(u: int, v: int, lbl: int)
    ensures Strip(ELine(u, v, lbl)) == ELine(u, v, lbl)
    ensures Words(ELine(u, v, lbl)) == ["e", IntToString(u), IntToString(v), IntToString(lbl)]
    ensures StartsWith(ELine(u, v, lbl), "e") && !StartsWith(ELine(u, v, lbl), "#")
    ensures !StartsWith(ELine(u, v, lbl), "t") && !StartsWith(ELine(u, v, lbl), "v")
  {
    var line, a, b, c := ELine(u, v, lbl), IntToString(u), IntToString(v), IntToString(lbl);
    assert line == "e" + " " + a + " " + b + " " + c;
    WordsOfFour("e", a, b, c);
    assert line[|line| - 1] == c[|c| - 1];
    StripUnpadded(line);
    assert line[..1] == "e";
  }

  /** A `t # id` header reads back as the id and carries no `*` support. */
  lemma TLineRead(id: int)
    ensures Strip(TLine(id)) == TLine(id)
    ensures Words(TLine(id)) == ["t", "#", IntToString(id)]
    ensures StartsWith(TLine(id), "t") && !StartsWith(TLine(id), "#")
    ensures "*" !in Words(TLine(id))
  {
    var line, a := TLine(id), IntToString(id);
    assert line == "t" + " " + "#" + " " + a;
    WordsOfThree("t", "#", a);
    assert line[|line| - 1] == a[|a| - 1];
    StripUnpadded(line);
    assert line[..1] == "t";
    assert a[0] == '-' || IsDigit(a[0]);
    assert a != "*";
  }

  /** Labelling keeps every id already given, and never gives one id twice. */
  lemma {:induction false} NodeLinesGrow(nodes: map<int, string>, ids: seq<int>, m: LabelMap)
    requires forall k :: 0 <= k < |ids| ==> ids[k] in nodes
    ensures Sub(m, NodeLines(nodes, ids, m).1)
    ensures Dense(m) ==> Dense(NodeLines(nodes, ids, m).1)
  {
    if |ids| > 0 {
      var before := NodeLines(nodes, ids[..|ids| - 1], m);
      NodeLinesGrow(nodes, ids[..|ids| - 1], m);
      SubTransitive(m, before.1, NodeLines(nodes, ids, m).1);
      if Dense(m) {
        GetLblDense(nodes[ids[|ids| - 1]], before.1);
      }
    }
  }

  lemma {:induction false} EdgeLinesGrow(edges: seq<EdgeRec>, m: LabelMap)
    ensures Sub(m, EdgeLines(edges, m).1)
    ensures Dense(m) ==> Dense(EdgeLines(edges, m).1)
  {
    if |edges| > 0 {
      var before := EdgeLines(edges[..|edges| - 1], m);
      EdgeLinesGrow(edges[..|edges| - 1], m);
      SubTransitive(m, before.1, EdgeLines(edges, m).1);
      if Dense(m) {
        GetLblDense(edges[|edges| - 1].lbl, before.1);
      }
    }
  }

  /** The maps saved by `write_gspan` keep the ids of earlier graphs and give
      distinct labels distinct ids, so they can be inverted. */
  lemma {:induction false} WriteGrows(graphs: seq<Record>)
    ensures Dense(WriteSpec(graphs).nodeMap) && Dense(WriteSpec(graphs).edgeMap)
    ensures |graphs| > 0 ==>
      Sub(WriteSpec(graphs[..|graphs| - 1]).nodeMap, WriteSpec(graphs).nodeMap)
      && Sub(WriteSpec(graphs[..|graphs| - 1]).edgeMap, WriteSpec(graphs).edgeMap)
  {
    if |graphs| > 0 {
      var before := WriteSpec(graphs[..|graphs| - 1]);
      var g := graphs[|graphs| - 1];
      WriteGrows(graphs[..|graphs| - 1]);
      NodeLinesGrow(g.nodes, SortedKeys(g.nodes.Keys), before.nodeMap);
      EdgeLinesGrow(g.edges, before.edgeMap);
    }
  }

  /** Every earlier map is contained in the final one. */
  lemma {:induction false} WritePrefixGrows(graphs: seq<Record>, n: nat)
    requires n <= |graphs|
    ensures Sub(WriteSpec(graphs[..n]).nodeMap, WriteSpec(graphs).nodeMap)
    ensures Sub(WriteSpec(graphs[..n]).edgeMap, WriteSpec(graphs).edgeMap)
    decreases |graphs| - n
  {
    if n < |graphs| {
      WritePrefixGrows(graphs, n + 1);
      WriteGrows(graphs[..n + 1]);
      assert graphs[..n + 1][..n] == graphs[..n];
      SubTransitive(WriteSpec(graphs[..n]).nodeMap, WriteSpec(graphs[..n + 1]).nodeMap, WriteSpec(graphs).nodeMap);
      SubTransitive(WriteSpec(graphs[..n]).edgeMap, WriteSpec(graphs[..n + 1]).edgeMap, WriteSpec(graphs).edgeMap);
    } else {
      assert graphs[..n] == graphs;
    }
  }

  /** `base` with the labels of `nodes` at `ids` stored in order. */
  function Overlay(base: map<int, string>, nodes: map<int, string>, ids: seq<int>): map<int, string>
    requires forall k :: 0 <= k < |ids| ==> ids[k] in nodes
  {
    if |ids| == 0 then base
    else Overlay(base, nodes, ids[..|ids| - 1])[ids[|ids| - 1] := nodes[ids[|ids| - 1]]]
  }

  lemma {:induction false} OverlayKeys(base: map<int, string>, nodes: map<int, string>, ids: seq<int>)
    requires forall k :: 0 <= k < |ids| ==> ids[k] in nodes
    ensures forall x :: x in Overlay(base, nodes, ids) <==> x in base || x in ids
    ensures forall x :: x in ids ==> Overlay(base, nodes, ids)[x] == nodes[x]
  {
    if |ids| > 0 {
      OverlayKeys(base, nodes, ids[..|ids| - 1]);
      forall x ensures x in ids <==> x in ids[..|ids| - 1] || x == ids[|ids| - 1] {
        assert ids == ids[..|ids| - 1] + [ids[|ids| - 1]];
      }
    }
  }

  /** Storing every node in increasing id order rebuilds the node map. */
  lemma OverlayAll(nodes: map<int, string>)
    ensures Overlay(map[], nodes, SortedKeys(nodes.Keys)) == nodes
  {
    var ids := SortedKeys(nodes.Keys);
    OverlayKeys(map[], nodes, ids);
    var r := Overlay(map[], nodes, ids);
    assert forall x :: x in r <==> x in nodes;
  }

  /** One `v` line stores one node label. */
  lemma ReadVLine(st: FpState, id: int, ilbl: int, lbl: string, rev: RevMaps)
    requires st.current.Some? && ilbl in rev.nodes && rev.nodes[ilbl] == lbl
    ensures FpStep(st, VLine(id, ilbl), rev)
      == Some(st.(current := Some(st.current.value.(nodes := st.current.value.nodes[id := lbl]))))
  {
    VLineRead(id, ilbl);
    ParseIntOfIntToString(id);
    ParseIntOfIntToString(ilbl);
  }

  /** One `e` line appends one edge. */
  lemma ReadELine(st: FpState, e: EdgeRec, ilbl: int, rev: RevMaps)
    requires st.current.Some? && ilbl in rev.edges && rev.edges[ilbl] == e.lbl
    ensures FpStep(st, ELine(e.u, e.v, ilbl), rev)
      == Some(st.(current := Some(st.current.value.(edges := st.current.value.edges + [e]))))
  {
    ELineRead(e.u, e.v, ilbl);
    ParseIntOfIntToString(e.u);
    ParseIntOfIntToString(e.v);
    ParseIntOfIntToString(ilbl);
  }

  /** Reading the `v` lines stores each node's label back. */
  lemma {:induction false} ReadNodeLines(st: FpState, nodes: map<int, string>, ids: seq<int>, m: LabelMap, fin: LabelMap, rev: RevMaps)
    requires st.current.Some?
    requires forall k :: 0 <= k < |ids| ==> ids[k] in nodes && ParseInt(nodes[ids[k]]).None?
    requires Sub(NodeLines(nodes, ids, m).1, fin) && Restores(rev.nodes, fin)
    ensures FpRun(st, NodeLines(nodes, ids, m).0, rev)
      == Some(st.(current := Some(st.current.value.(nodes := Overlay(st.current.value.nodes, nodes, ids)))))
  {
    if |ids| > 0 {
      var init := ids[..|ids| - 1];
      var before := NodeLines(nodes, init, m);
      var id := ids[|ids| - 1];
      var r := GetLbl(nodes[id], before.1);
      SubTransitive(before.1, r.1, fin);
      ReadNodeLines(st, nodes, init, m, fin, rev);
      var lines := NodeLines(nodes, ids, m).0;
      assert lines[..|lines| - 1] == before.0;
      assert lines[|lines| - 1] == VLine(id, r.0);
      var mid := st.(current := Some(st.current.value.(nodes := Overlay(st.current.value.nodes, nodes, init))));
      ReadVLine(mid, id, r.0, nodes[id], rev);
    }
  }

  /** The state after the edges `es` were appended to the open graph. */
  function WithEdges(st: FpState, es: seq<EdgeRec>): FpState
    requires st.current.Some?
  {
    st.(current := Some(st.current.value.(edges := st.current.value.edges + es)))
  }

  /** `line` is the `e` line of `e`, under an id `rev` maps back to its label. */
  predicate EdgeLineOf(line: string, e: EdgeRec, rev: map<int, string>) {
    exists ilbl :: ilbl in rev && rev[ilbl] == e.lbl && line == ELine(e.u, e.v, ilbl)
  }

  /** Each written `e` line carries its edge's ends and an id that maps back
      to its label. */
  lemma {:induction false} EdgeLinesShape(edges: seq<EdgeRec>, m: LabelMap, fin: LabelMap, rev: map<int, string>)
    requires forall k :: 0 <= k < |edges| ==> ParseInt(edges[k].lbl).None?
    requires Sub(EdgeLines(edges, m).1, fin) && Restores(rev, fin)
    ensures forall k :: 0 <= k < |edges| ==> EdgeLineOf(EdgeLines(edges, m).0[k], edges[k], rev)
  {
    if |edges| > 0 {
      var init := edges[..|edges| - 1];
      var e := edges[|edges| - 1];
      var before := EdgeLines(init, m);
      var ilbl := GetLbl(e.lbl, before.1).0;
      var lines := EdgeLines(edges, m).0;
      EdgeLinesSnoc(edges, m);
      LabelRestored(e.lbl, before.1, fin, rev);
      EdgeLinesShape(init, m, fin, rev);
      assert EdgeLineOf(ELine(e.u, e.v, ilbl), e, rev);
      LastSplit(edges);
      EdgeLineOfSnoc(before.0, init, ELine(e.u, e.v, ilbl), e, rev);
    }
  }

  lemma EdgeLineOfSnoc(lines: seq<string>, edges: seq<EdgeRec>, line: string, e: EdgeRec, rev: map<int, string>)
    requires |lines| == |edges| && EdgeLineOf(line, e, rev)
    requires forall k :: 0 <= k < |edges| ==> EdgeLineOf(lines[k], edges[k], rev)
    ensures forall k :: 0 <= k < |edges| + 1 ==> EdgeLineOf((lines + [line])[k], (edges + [e])[k], rev)
  {
    forall k | 0 <= k < |edges| + 1
      ensures EdgeLineOf((lines + [line])[k], (edges + [e])[k], rev)
    {
      if k < |edges| {
        assert (lines + [line])[k] == lines[k] && (edges + [e])[k] == edges[k];
      }
    }
  }

  lemma EdgeLinesSnoc(edges: seq<EdgeRec>, m: LabelMap)
    requires |edges| > 0
    ensures var before := EdgeLines(edges[..|edges| - 1], m);
      var e := edges[|edges| - 1];
      EdgeLines(edges, m) == (before.0 + [ELine(e.u, e.v, GetLbl(e.lbl, before.1).0)], GetLbl(e.lbl, before.1).1)
  {
  }

  /** Reading `e` lines appends their edges in order. */
  lemma {:induction false} ReadEdgeLines(st: FpState, edges: seq<EdgeRec>, lines: seq<string>, rev: RevMaps)
    requires st.current.Some? && |lines| == |edges|
    requires forall k :: 0 <= k < |edges| ==> EdgeLineOf(lines[k], edges[k], rev.edges)
    ensures FpRun(st, lines, rev) == Some(WithEdges(st, edges))
  {
    if |edges| == 0 {
      assert st.current.value.edges + edges == st.current.value.edges;
    } else {
      var init := edges[..|edges| - 1];
      var e := edges[|edges| - 1];
      EdgeLineOfFront(lines, edges, lines[..|lines| - 1], init, rev.edges);
      ReadEdgeLines(st, init, lines[..|lines| - 1], rev);
      assert EdgeLineOf(lines[|lines| - 1], e, rev.edges);
      var ilbl :| ilbl in rev.edges && rev.edges[ilbl] == e.lbl && lines[|lines| - 1] == ELine(e.u, e.v, ilbl);
      ReadEdgeLast(st, init, e, ilbl, lines, rev);
      LastSplit(edges);
    }
  }

  lemma EdgeLineOfFront(lines: seq<string>, edges: seq<EdgeRec>, lp: seq<string>, ep: seq<EdgeRec>, rev: map<int, string>)
    requires |lines| == |edges| > 0 && lp == lines[..|lines| - 1] && ep == edges[..|edges| - 1]
    requires forall k :: 0 <= k < |edges| ==> EdgeLineOf(lines[k], edges[k], rev)
    ensures forall k :: 0 <= k < |ep| ==> EdgeLineOf(lp[k], ep[k], rev)
  {
    forall k | 0 <= k < |ep|
      ensures EdgeLineOf(lp[k], ep[k], rev)
    {
      assert EdgeLineOf(lines[k], edges[k], rev);
    }
  }

  /** The id `get_lbl` gives a label that is not an integer maps back to it. */
  lemma LabelRestored(lbl: string, m: LabelMap, fin: LabelMap, rev: map<int, string>)
    requires ParseInt(lbl).None? && Sub(GetLbl(lbl, m).1, fin) && Restores(rev, fin)
    ensures Sub(m, fin)
    ensures GetLbl(lbl, m).0 in rev && rev[GetLbl(lbl, m).0] == lbl
  {
    SubTransitive(m, GetLbl(lbl, m).1, fin);
  }

  lemma ReadEdgeLast(st: FpState, init: seq<EdgeRec>, e: EdgeRec, ilbl: int, lines: seq<string>, rev: RevMaps)
    requires st.current.Some? && ilbl in rev.edges && rev.edges[ilbl] == e.lbl
    requires |lines| > 0 && lines[|lines| - 1] == ELine(e.u, e.v, ilbl)
    requires FpRun(st, lines[..|lines| - 1], rev) == Some(WithEdges(st, init))
    ensures FpRun(st, lines, rev) == Some(WithEdges(st, init + [e]))
  {
    var pre := st.current.value.edges;
    var mid := st.(current := Some(st.current.value.(edges := pre + init)));
    assert pre + init + [e] == pre + (init + [e]);
    calc {
      FpRun(st, lines, rev);
      FpStep(mid, ELine(e.u, e.v, ilbl), rev);
      { ReadELine(mid, e, ilbl, rev); }
      Some(mid.(current := Some(mid.current.value.(edges := pre + init + [e]))));
    }
  }

  /** One written block reads back as one graph under the support in force. */
  /** A written `t` line closes the open graph and opens an empty one with
      its id, under the support in force. */
  lemma ReadTLine(st: FpState, id: int, rev: RevMaps)
    ensures FpRun(st, [TLine(id)], rev)
      == Some(FpState(FpClosed(st), Some(FpRecord(id, map[], [], st.support)), st.support))
  {
    TLineRead(id);
    ParseIntOfIntToString(id);
    assert HeaderSupport(Words(TLine(id)), st.support) == Some(st.support);
    assert [TLine(id)][..0] == [];
  }

  lemma ReadBlock(st: FpState, g: Record, nm: LabelMap, em: LabelMap, fn: LabelMap, fe: LabelMap, rev: RevMaps)
    requires Named(g)
    requires Sub(GraphLines(g, nm, em).nodeMap, fn) && Sub(GraphLines(g, nm, em).edgeMap, fe)
    requires Restores(rev.nodes, fn) && Restores(rev.edges, fe)
    ensures FpRun(st, GraphLines(g, nm, em).lines, rev)
      == Some(FpState(FpClosed(st), Some(FpRecord(g.id, g.nodes, g.edges, st.support)), st.support))
  {
    var ids := SortedKeys(g.nodes.Keys);
    var vs := NodeLines(g.nodes, ids, nm).0;
    var es := EdgeLines(g.edges, em).0;
    var s1 := FpState(FpClosed(st), Some(FpRecord(g.id, map[], [], st.support)), st.support);
    ReadTLine(st, g.id, rev);
    ReadNodeLines(s1, g.nodes, ids, nm, fn, rev);
    OverlayAll(g.nodes);
    var s2 := s1.(current := Some(s1.current.value.(nodes := g.nodes)));
    EdgeLinesShape(g.edges, em, fe, rev.edges);
    ReadEdgeLines(s2, g.edges, es, rev);
    assert [] + g.edges == g.edges;
    FpRunAppend(st, [TLine(g.id)], vs, rev);
    FpRunAppend(st, [TLine(g.id)] + vs, es, rev);
  }

  lemma PlainSnoc(graphs: seq<Record>)
    requires |graphs| > 0
    ensures Plain(graphs) == Plain(graphs[..|graphs| - 1]) + [FpRecord(graphs[|graphs| - 1].id, graphs[|graphs| - 1].nodes, graphs[|graphs| - 1].edges, 0)]
  {
    var init := graphs[..|graphs| - 1];
    assert forall k :: 0 <= k < |init| ==> Plain(graphs)[k] == Plain(init)[k];
  }

  lemma {:induction false} ReadWritten(graphs: seq<Record>, fn: LabelMap, fe: LabelMap, rev: RevMaps)
    requires forall k :: 0 <= k < |graphs| ==> Named(graphs[k])
    requires Sub(WriteSpec(graphs).nodeMap, fn) && Sub(WriteSpec(graphs).edgeMap, fe)
    requires Restores(rev.nodes, fn) && Restores(rev.edges, fe)
    ensures FpRun(FpStart, WriteSpec(graphs).lines, rev).Some?
    ensures FpRun(FpStart, WriteSpec(graphs).lines, rev).value.support == 0
    ensures FpClosed(FpRun(FpStart, WriteSpec(graphs).lines, rev).value) == Plain(graphs)
  {
    if |graphs| > 0 {
      var init := graphs[..|graphs| - 1];
      var g := graphs[|graphs| - 1];
      var before := WriteSpec(init);
      var block := GraphLines(g, before.nodeMap, before.edgeMap);
      WriteGrows(graphs);
      SubTransitive(before.nodeMap, WriteSpec(graphs).nodeMap, fn);
      SubTransitive(before.edgeMap, WriteSpec(graphs).edgeMap, fe);
      ReadWritten(init, fn, fe, rev);
      var mid := FpRun(FpStart, before.lines, rev).value;
      ReadBlock(mid, g, before.nodeMap, before.edgeMap, fn, fe, rev);
      FpRunAppend(FpStart, before.lines, block.lines, rev);
      PlainSnoc(graphs);
    }
  }

  /** `parse_gspan_fp` on the file `write_gspan` wrote, with the map file it
      saved, returns the same graphs (ids, node labels, edges in order) with
      support 0, whenever no label is itself an integer. */
  lemma GspanRoundTrip(graphs: seq<Record>)
    requires forall k :: 0 <= k < |graphs| ==> Named(graphs[k])
    ensures Injective(WriteSpec(graphs).nodeMap.ids) && Injective(WriteSpec(graphs).edgeMap.ids)
    ensures ParseFpSpec(WriteSpec(graphs).lines,
      RevMaps(Inverse(WriteSpec(graphs).nodeMap.ids), Inverse(WriteSpec(graphs).edgeMap.ids))) == Some(Plain(graphs))
  {
    var w := WriteSpec(graphs);
    WriteGrows(graphs);
    var rev := RevMaps(Inverse(w.nodeMap.ids), Inverse(w.edgeMap.ids));
    ReadWritten(graphs, w.nodeMap, w.edgeMap, rev);
  }

  /** Why `GspanRoundTrip` asks for labels that are not integers: the label
      `"1"` is written as itself, which is also the id the first named label
      gets, so the two `v` lines are the same. */
  lemma IntegerLabelCollides()
    ensures GetLbl("1", GetLbl("x", Fresh).1).0 == GetLbl("x", Fresh).0 == 1
    ensures VLine(0, GetLbl("x", Fresh).0) == "v 0 1"
  {
    assert ParseInt("1") == Some(1) by {
      ParseIntOfIntToString(1);
      assert IntToString(1) == "1";
    }
    assert !IsDigit('x');
  }
}
