/** The bounded path enumeration shared by `mine_chunk` (hw1/q3/miner.py) and
    `process_graph_signatures` (A1/q3/vectorizer.py): from every start node,
    an explicit-stack depth-first search over simple paths of at most
    `maxLen` edges, recording each popped path's signature under its edge
    count. */
module Paths {
  import opened Text
  import opened Graphs
  import opened Signatures

  /** One stack entry `(curr, path)`. */
  datatype Frame = Frame(curr: NodeId, path: seq<NodeId>)

  /** `p` is a simple path of `g` with at most `maxLen` edges. */
  ghost predicate BoundedSimple(g: Graph, maxLen: nat, p: seq<NodeId>) {
    IsPath(g, p) && IsSimple(p) && |p| <= maxLen + 1
  }

  /** Some simple path of `len <= maxLen` edges has signature `sig`. */
  ghost predicate HasPath(g: Graph, maxLen: nat, len: nat, sig: string) {
    exists p :: BoundedSimple(g, maxLen, p) && |p| == len + 1 && PathSignature(g, p) == sig
  }

  predicate IsPrefix(a: seq<NodeId>, p: seq<NodeId>) {
    |a| <= |p| && p[..|a|] == a
  }

  /** A well-formed stack entry of the search from `s`. */
  ghost predicate FrameOk(g: Graph, maxLen: nat, s: NodeId, f: Frame) {
    BoundedSimple(g, maxLen, f.path) && f.path[0] == s && f.curr == f.path[|f.path| - 1]
  }

  ghost predicate FramesOk(g: Graph, maxLen: nat, s: NodeId, stack: seq<Frame>) {
    forall k :: 0 <= k < |stack| ==> FrameOk(g, maxLen, s, stack[k])
  }

  lemma FramesPop(g: Graph, maxLen: nat, s: NodeId, stack: seq<Frame>)
    requires FramesOk(g, maxLen, s, stack) && |stack| > 0
    ensures FramesOk(g, maxLen, s, stack[..|stack| - 1]) && FrameOk(g, maxLen, s, stack[|stack| - 1])
  {
  }

  lemma FramesPush(g: Graph, maxLen: nat, s: NodeId, stack: seq<Frame>, f: Frame)
    requires FramesOk(g, maxLen, s, stack) && FrameOk(g, maxLen, s, f)
    ensures FramesOk(g, maxLen, s, stack + [f])
  {
  }

  ghost predicate Recorded(found: set<(nat, string)>, g: Graph, p: seq<NodeId>)
    requires IsPath(g, p)
  {
    (|p| - 1, PathSignature(g, p)) in found
  }

  ghost predicate OnStack(stack: seq<Frame>, p: seq<NodeId>) {
    exists k :: 0 <= k < |stack| && IsPrefix(stack[k].path, p)
  }

  /** Every recorded pair is the edge count and signature of a bounded simple path. */
  ghost predicate Sound(found: set<(nat, string)>, g: Graph, maxLen: nat) {
    forall x :: x in found ==> HasPath(g, maxLen, x.0, x.1)
  }

  // ---------------------------------------------------------------------------
  // Termination measure: a frame whose path still has room for h more nodes
  // weighs (B+1)^h, where B bounds the number of neighbours of any node.
  // ---------------------------------------------------------------------------

  function Pow(b: nat, e: nat): (r: nat)
    ensures r >= 1 || b == 0
  {
    if e == 0 then 1 else b * Pow(b, e - 1)
  }

  function FrameWeight(b: nat, maxLen: nat, f: Frame): nat {
    if |f.path| <= maxLen + 1 then Pow(b + 1, maxLen + 1 - |f.path|) else 0
  }

  function Weight(b: nat, maxLen: nat, stack: seq<Frame>): nat {
    if |stack| == 0 then 0
    else Weight(b, maxLen, stack[..|stack| - 1]) + FrameWeight(b, maxLen, stack[|stack| - 1])
  }

  lemma WeightPush(b: nat, maxLen: nat, stack: seq<Frame>, f: Frame)
    ensures Weight(b, maxLen, stack + [f]) == Weight(b, maxLen, stack) + FrameWeight(b, maxLen, f)
  {
    assert (stack + [f])[..|stack|] == stack;
  }

  /** The children of `path` pushed on top of `stack`. */
  ghost predicate Children(stack: seq<Frame>, stack': seq<Frame>, path: seq<NodeId>) {
    && |stack| <= |stack'|
    && stack'[..|stack|] == stack
    && forall k :: |stack| <= k < |stack'| ==> stack'[k].path == path + [stack'[k].curr]
  }

  /** Each child frame weighs as much as a path one node longer than `path`. */
  lemma {:induction false} ChildrenWeight(b: nat, maxLen: nat, stack: seq<Frame>, stack': seq<Frame>, path: seq<NodeId>)
    requires Children(stack, stack', path)
    ensures Weight(b, maxLen, stack') == Weight(b, maxLen, stack) + (|stack'| - |stack|) * FrameWeight(b, maxLen, Frame(0, path + [0]))
    decreases |stack'|
  {
    if |stack'| > |stack| {
      var shorter := stack'[..|stack'| - 1];
      assert shorter[..|stack|] == stack;
      ChildrenWeight(b, maxLen, stack, shorter, path);
      var c := FrameWeight(b, maxLen, Frame(0, path + [0]));
      assert FrameWeight(b, maxLen, stack'[|stack'| - 1]) == c;
      assert (|shorter| - |stack| + 1) * c == (|shorter| - |stack|) * c + c;
    } else {
      assert stack' == stack'[..|stack|];
    }
  }

  /** Replacing a frame by at most `b` frames one node longer loses weight. */
  lemma ChildrenLighter(b: nat, maxLen: nat, f: Frame, children: nat)
    requires |f.path| <= maxLen && children <= b
    ensures children * FrameWeight(b, maxLen, Frame(0, f.path + [0])) < FrameWeight(b, maxLen, f)
  {
    var h := maxLen + 1 - |f.path|;
    var c := Pow(b + 1, h - 1);
    assert FrameWeight(b, maxLen, f) == (b + 1) * c;
    assert children * c <= b * c;
  }

  /** Popping a frame without pushing anything loses weight. */
  lemma LeafLighter(b: nat, maxLen: nat, base: seq<Frame>, top: Frame)
    requires |top.path| <= maxLen + 1
    ensures Weight(b, maxLen, base) < Weight(b, maxLen, base + [top])
  {
    WeightPush(b, maxLen, base, top);
  }

  /** Popping a frame and pushing at most `b` children loses weight. */
  lemma InnerLighter(b: nat, maxLen: nat, base: seq<Frame>, top: Frame, stack: seq<Frame>)
    requires |top.path| <= maxLen && Children(base, stack, top.path) && |stack| - |base| <= b
    ensures Weight(b, maxLen, stack) < Weight(b, maxLen, base + [top])
  {
    WeightPush(b, maxLen, base, top);
    ChildrenWeight(b, maxLen, base, stack, top.path);
    ChildrenLighter(b, maxLen, top, |stack| - |base|);
  }

  // ---------------------------------------------------------------------------
  // Path facts used by the search
  // ---------------------------------------------------------------------------

  lemma ExtendPath(g: Graph, maxLen: nat, path: seq<NodeId>, n: NodeId)
    requires BoundedSimple(g, maxLen, path) && |path| <= maxLen
    requires n in Neighbors(g, path[|path| - 1]) && n !in path
    ensures BoundedSimple(g, maxLen, path + [n])
  {
    var q := path + [n];
    forall i | 0 <= i < |q| - 1
      ensures Adjacent(g, q[i], q[i + 1])
    {
      if i < |path| - 1 {
        assert q[i] == path[i] && q[i + 1] == path[i + 1];
      }
    }
  }

  /** A longer bounded simple path through `path` continues with a neighbour
      of its last node that is not on `path`. */
  lemma NextStep(g: Graph, maxLen: nat, path: seq<NodeId>, p: seq<NodeId>)
    requires BoundedSimple(g, maxLen, p) && |path| > 0 && IsPrefix(path, p) && |p| > |path|
    ensures p[|path|] in Neighbors(g, path[|path| - 1])
    ensures p[|path|] !in path
    ensures IsPrefix(path + [p[|path|]], p)
  {
    var n := |path|;
    assert path[n - 1] == p[n - 1];
    assert p[..n + 1] == p[..n] + [p[n]];
  }

  /** Recording the signature of a bounded simple path keeps the record sound. */
  lemma RecordPath(found: set<(nat, string)>, g: Graph, maxLen: nat, p: seq<NodeId>, sig: string)
    requires Sound(found, g, maxLen) && BoundedSimple(g, maxLen, p) && sig == PathSignature(g, p)
    ensures Sound(found + {(|p| - 1, sig)}, g, maxLen)
  {
    assert HasPath(g, maxLen, |p| - 1, sig);
  }

  // ---------------------------------------------------------------------------
  // Coverage: every bounded simple path from the start node is either recorded
  // or still reachable from a stack entry (or, while the neighbours of a popped
  // path are being pushed, continues through a neighbour not yet visited).
  // ---------------------------------------------------------------------------

  ghost predicate Covers(found: set<(nat, string)>, stack: seq<Frame>, g: Graph, maxLen: nat, s: NodeId) {
    forall p :: BoundedSimple(g, maxLen, p) && p[0] == s ==> Recorded(found, g, p) || OnStack(stack, p)
  }

  ghost predicate Through(path: seq<NodeId>, rest: set<NodeId>, p: seq<NodeId>) {
    IsPrefix(path, p) && |p| > |path| && p[|path|] in rest
  }

  ghost predicate CoversPending(found: set<(nat, string)>, stack: seq<Frame>, path: seq<NodeId>, rest: set<NodeId>,
                                g: Graph, maxLen: nat, s: NodeId) {
    forall p :: BoundedSimple(g, maxLen, p) && p[0] == s ==>
      Recorded(found, g, p) || OnStack(stack, p) || Through(path, rest, p)
  }

  lemma RecordedGrows(found: set<(nat, string)>, found': set<(nat, string)>, g: Graph, p: seq<NodeId>)
    requires IsPath(g, p) && found <= found' && Recorded(found, g, p)
    ensures Recorded(found', g, p)
  {
  }

  /** Popping a path that may not grow: everything it covered is now recorded. */
  lemma PopLeaf(found: set<(nat, string)>, found': set<(nat, string)>, stack: seq<Frame>, top: Frame,
                g: Graph, maxLen: nat, s: NodeId)
    requires Covers(found, stack + [top], g, maxLen, s) && found <= found'
    requires IsPath(g, top.path) && Recorded(found', g, top.path) && |top.path| > maxLen
    ensures Covers(found', stack, g, maxLen, s)
  {
    forall p | BoundedSimple(g, maxLen, p) && p[0] == s
      ensures Recorded(found', g, p) || OnStack(stack, p)
    {
      if Recorded(found, g, p) {
        RecordedGrows(found, found', g, p);
      } else {
        var k :| 0 <= k < |stack| + 1 && IsPrefix((stack + [top])[k].path, p);
        if k == |stack| {
          assert p == top.path;
        } else {
          assert (stack + [top])[k] == stack[k];
        }
      }
    }
  }

  /** Popping a path that may grow: what it covered is recorded or continues
      through one of its last node's neighbours. */
  lemma PopInner(found: set<(nat, string)>, found': set<(nat, string)>, stack: seq<Frame>, top: Frame,
                 g: Graph, maxLen: nat, s: NodeId)
    requires Covers(found, stack + [top], g, maxLen, s) && found <= found'
    requires IsPath(g, top.path) && Recorded(found', g, top.path)
    ensures CoversPending(found', stack, top.path, Neighbors(g, top.path[|top.path| - 1]), g, maxLen, s)
  {
    forall p | BoundedSimple(g, maxLen, p) && p[0] == s
      ensures Recorded(found', g, p) || OnStack(stack, p)
           || Through(top.path, Neighbors(g, top.path[|top.path| - 1]), p)
    {
      if Recorded(found, g, p) {
        RecordedGrows(found, found', g, p);
      } else {
        var k :| 0 <= k < |stack| + 1 && IsPrefix((stack + [top])[k].path, p);
        if k == |stack| {
          if p != top.path {
            NextStep(g, maxLen, top.path, p);
          }
        } else {
          assert (stack + [top])[k] == stack[k];
        }
      }
    }
  }

  /** Visiting one neighbour: pushing it (when it is not on the path) takes
      over the paths that continue through it. */
  lemma VisitNeighbor(found: set<(nat, string)>, before: seq<Frame>, stack: seq<Frame>, path: seq<NodeId>,
                      rest: set<NodeId>, n: NodeId, g: Graph, maxLen: nat, s: NodeId)
    requires CoversPending(found, before, path, rest, g, maxLen, s) && n in rest && |path| > 0
    requires n in path ==> stack == before
    requires n !in path ==> stack == before + [Frame(n, path + [n])]
    ensures CoversPending(found, stack, path, rest - {n}, g, maxLen, s)
  {
    forall p | BoundedSimple(g, maxLen, p) && p[0] == s
      ensures Recorded(found, g, p) || OnStack(stack, p) || Through(path, rest - {n}, p)
    {
      if !Recorded(found, g, p) && !Through(path, rest - {n}, p) {
        if OnStack(before, p) {
          var k :| 0 <= k < |before| && IsPrefix(before[k].path, p);
          assert stack[k] == before[k];
        } else {
          NextStep(g, maxLen, path, p);
          assert IsPrefix(stack[|stack| - 1].path, p);
        }
      }
    }
  }

  // ---------------------------------------------------------------------------
  // The search
  // ---------------------------------------------------------------------------

  /** `found_paths[path_len].add(get_canonical_path(path, G))` */
  method RecordSignature(g: Graph, maxLen: nat, found0: set<(nat, string)>, path: seq<NodeId>)
    returns (found: set<(nat, string)>)
    requires Sound(found0, g, maxLen) && BoundedSimple(g, maxLen, path)
    ensures found == found0 + {(|path| - 1, PathSignature(g, path))}
    ensures Sound(found, g, maxLen)
  {
    var sig := CanonicalPath(g, path);
    RecordPath(found0, g, maxLen, path, sig);
    found := found0 + {(|path| - 1, sig)};
  }

  /** Pushing the frame of one more unvisited neighbour keeps the pushed
      frames children of `path`, each for a neighbour already picked. */
  lemma ChildPush(stack0: seq<Frame>, stack: seq<Frame>, path: seq<NodeId>, x: NodeId, rest: set<NodeId>, nbrs: set<NodeId>)
    requires Children(stack0, stack, path) && x in rest && rest <= nbrs && x !in path
    requires forall k :: |stack0| <= k < |stack| ==> stack[k].curr in nbrs - rest && stack[k].curr !in path
    ensures var stack' := stack + [Frame(x, path + [x])];
      && Children(stack0, stack', path)
      && (forall k :: |stack0| <= k < |stack'| ==> stack'[k].curr in nbrs - (rest - {x}) && stack'[k].curr !in path)
  {
    var stack' := stack + [Frame(x, path + [x])];
    assert stack'[..|stack0|] == stack[..|stack0|];
    forall k | |stack0| <= k < |stack'|
      ensures stack'[k].path == path + [stack'[k].curr]
      ensures stack'[k].curr in nbrs - (rest - {x}) && stack'[k].curr !in path
    {
      if k < |stack| {
        assert stack'[k] == stack[k];
      }
    }
  }

  /** `for neighbor in G.neighbors(curr): if neighbor not in path:
      stack.append((neighbor, path + [neighbor]))`: pushes one frame for each
      neighbour of the path's last node that the path does not visit yet. */
  method PushUnvisited(g: Graph, maxLen: nat, s: NodeId, found: set<(nat, string)>, stack0: seq<Frame>, path: seq<NodeId>)
    returns (stack: seq<Frame>)
    requires FramesOk(g, maxLen, s, stack0) && BoundedSimple(g, maxLen, path) && path[0] == s && |path| <= maxLen
    requires CoversPending(found, stack0, path, Neighbors(g, path[|path| - 1]), g, maxLen, s)
    ensures Children(stack0, stack, path) && |stack| - |stack0| <= |Neighbors(g, path[|path| - 1])|
    ensures forall k :: |stack0| <= k < |stack| ==> stack[k].curr in Neighbors(g, path[|path| - 1]) && stack[k].curr !in path
    ensures FramesOk(g, maxLen, s, stack)
    ensures Covers(found, stack, g, maxLen, s)
  {
    var curr := path[|path| - 1];
    var rest := Neighbors(g, curr);
    stack := stack0;
    while rest != {}
      invariant rest <= Neighbors(g, curr)
      invariant Children(stack0, stack, path) && |stack| - |stack0| + |rest| <= |Neighbors(g, curr)|
      invariant forall k :: |stack0| <= k < |stack| ==> stack[k].curr in Neighbors(g, curr) - rest && stack[k].curr !in path
      invariant FramesOk(g, maxLen, s, stack)
      invariant CoversPending(found, stack, path, rest, g, maxLen, s)
      decreases |rest|
    {
      var neighbor := Pick(rest);
      ghost var before := stack;
      if neighbor !in path {
        ExtendPath(g, maxLen, path, neighbor);
        FramesPush(g, maxLen, s, stack, Frame(neighbor, path + [neighbor]));
        ChildPush(stack0, stack, path, neighbor, rest, Neighbors(g, curr));
        stack := stack + [Frame(neighbor, path + [neighbor])];
      }
      VisitNeighbor(found, before, stack, path, rest, neighbor, g, maxLen, s);
      rest := rest - {neighbor};
    }
  }

  /** One iteration of `while stack:`: pop `(curr, path)`, record its
      signature, and unless the path already has `maxLen` edges push its
      unvisited neighbours. */
  method Step(g: Graph, maxLen: nat, s: NodeId, found0: set<(nat, string)>, stack0: seq<Frame>)
    returns (found: set<(nat, string)>, stack: seq<Frame>)
    requires |stack0| > 0 && Sound(found0, g, maxLen) && FramesOk(g, maxLen, s, stack0)
    requires Covers(found0, stack0, g, maxLen, s)
    ensures found0 <= found && Sound(found, g, maxLen) && FramesOk(g, maxLen, s, stack)
    ensures Covers(found, stack, g, maxLen, s)
    ensures Weight(|g.labels|, maxLen, stack) < Weight(|g.labels|, maxLen, stack0)
  {
    var b := |g.labels|;
    var top := stack0[|stack0| - 1];
    var curr, path := top.curr, top.path;
    FramesPop(g, maxLen, s, stack0);
    stack := stack0[..|stack0| - 1];
    assert stack0 == stack + [top];
    ghost var base := stack;
    found := RecordSignature(g, maxLen, found0, path);
    if |path| - 1 >= maxLen {
      PopLeaf(found0, found, stack, top, g, maxLen, s);
      LeafLighter(b, maxLen, base, top);
      return;
    }
    PopInner(found0, found, stack, top, g, maxLen, s);
    NeighborsBound(g, curr);
    stack := PushUnvisited(g, maxLen, s, found, stack, path);
    InnerLighter(b, maxLen, base, top, stack);
  }

  /** The `while stack:` loop for one `start_node`: it adds to `found0` the
      signature of every simple path from `s` with at most `maxLen` edges,
      and nothing else. */
  method ExploreFrom(g: Graph, maxLen: nat, s: NodeId, found0: set<(nat, string)>)
    returns (found: set<(nat, string)>)
    requires s in g.labels && Sound(found0, g, maxLen)
    ensures found0 <= found && Sound(found, g, maxLen)
    ensures forall p :: BoundedSimple(g, maxLen, p) && p[0] == s ==> Recorded(found, g, p)
  {
    found := found0;
    var stack := [Frame(s, [s])];
    assert IsPath(g, [s]);
    forall p | BoundedSimple(g, maxLen, p) && p[0] == s
      ensures OnStack(stack, p)
    {
      assert IsPrefix(stack[0].path, p);
    }
    while |stack| > 0
      invariant found0 <= found && Sound(found, g, maxLen)
      invariant FramesOk(g, maxLen, s, stack)
      invariant Covers(found, stack, g, maxLen, s)
      decreases Weight(|g.labels|, maxLen, stack)
    {
      found, stack := Step(g, maxLen, s, found, stack);
    }
  }

  ghost predicate RecordedFrom(found: set<(nat, string)>, g: Graph, maxLen: nat, starts: set<NodeId>) {
    forall p :: BoundedSimple(g, maxLen, p) && p[0] in starts ==> Recorded(found, g, p)
  }

  /** The path part of `mine_chunk` / `process_graph_signatures` for one graph:
      the pairs (edge count, signature) of all simple paths of at most
      `maxLen` edges, from every start node. `None` when some node has no
      label: the loop over `G.nodes()` takes that node as a start node at
      the latest, and reading its label raises `KeyError`, which discards
      everything found so far. */
  method PathSignatures(g: Graph, maxLen: nat) returns (found: Option<set<(nat, string)>>)
    ensures found.None? <==> !AllLabelled(g)
    ensures found.Some? ==> forall len: nat, sig :: (len, sig) in found.value <==> HasPath(g, maxLen, len, sig)
  {
    if !AllLabelled(g) {
      return None;
    }
    var sigs: set<(nat, string)> := {};
    var todo := g.labels.Keys;
    ghost var done: set<NodeId> := {};
    while todo != {}
      invariant done + todo == g.labels.Keys
      invariant Sound(sigs, g, maxLen)
      invariant RecordedFrom(sigs, g, maxLen, done)
      decreases |todo|
    {
      var start := Pick(todo);
      ghost var found1 := sigs;
      sigs := ExploreFrom(g, maxLen, start, sigs);
      forall p | BoundedSimple(g, maxLen, p) && p[0] in done + {start}
        ensures Recorded(sigs, g, p)
      {
        if p[0] != start {
          RecordedGrows(found1, sigs, g, p);
        }
      }
      todo := todo - {start};
      done := done + {start};
    }
    forall len: nat, sig | HasPath(g, maxLen, len, sig)
      ensures (len, sig) in sigs
    {
      var p :| BoundedSimple(g, maxLen, p) && |p| == len + 1 && PathSignature(g, p) == sig;
      assert Recorded(sigs, g, p);
    }
    found := Some(sigs);
  }

  /** Every node contributes its own label as the signature of its single-node path. */
  lemma SingleNodeFound(g: Graph, maxLen: nat, n: NodeId)
    requires n in g.labels
    ensures HasPath(g, maxLen, 0, g.labels[n])
  {
    SingleNodeSignature(g, n);
    assert BoundedSimple(g, maxLen, [n]);
  }

  /** Paths are found under their own edge count, which never exceeds `maxLen`,
      and a path and its reversal are found under the same signature. */
  lemma FoundBounds(g: Graph, maxLen: nat, len: nat, sig: string)
    requires HasPath(g, maxLen, len, sig)
    ensures len <= maxLen
    ensures exists p :: (BoundedSimple(g, maxLen, p) && |p| == len + 1 && IsPath(g, Reverse(p))
                         && PathSignature(g, Reverse(p)) == sig)
  {
    var p :| BoundedSimple(g, maxLen, p) && |p| == len + 1 && PathSignature(g, p) == sig;
    SignatureOfReverse(g, p);
  }
}
