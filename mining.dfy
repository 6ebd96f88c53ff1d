/** Frequent-substructure counting of hw1/q3/miner.py: `mine_chunk` over one
    chunk of graphs, the split of the database into chunks, and the merge of
    the per-chunk counters into global ones. Per graph, every path signature
    and every ring hash counts once, so a count is the number of graphs of
    the chunk (or the database) that contain the substructure. */
module Miner {
  import opened Text
  import opened Graphs
  import opened Signatures
  import opened Paths
  import opened Counters

  // ---------------------------------------------------------------------------
  // The cycle finder and the Weisfeiler-Lehman hash are left uninterpreted:
  // `cycles(G)` says what `nx.simple_cycles(G.to_directed())` yields, and
  // `wl(H)` stands for `weisfeiler_lehman_graph_hash(H, node_attr='label',
  // iterations=1)`.
  // ---------------------------------------------------------------------------

  /** The cycles `simple_cycles` yields, in order, and whether it then raised
      instead of finishing. */
  datatype CycleRun = CycleRun(cycles: seq<seq<NodeId>>, raised: bool)

  /** Every yielded cycle runs through labelled nodes of the graph. */
  predicate RunFits(g: Graph, run: CycleRun) {
    forall j :: 0 <= j < |run.cycles| ==> LabelledRing(g, run.cycles[j])
  }

  predicate AllFit(chunk: seq<Graph>, cycles: Graph -> CycleRun) {
    forall g :: g in chunk ==> RunFits(g, cycles(g))
  }

  /** `3 <= len(ring_nodes) <= 12` */
  predicate RingSized(ring: seq<NodeId>) {
    3 <= |ring| <= 12
  }

  /** The hashes of the properly sized rings among the first `n` yielded
      cycles, gathered in the order the cycles come. */
  function RingHashesUpTo(g: Graph, run: CycleRun, wl: Graph -> string, n: nat): set<string>
    requires RunFits(g, run) && n <= |run.cycles|
  {
    if n == 0 then {}
    else
      var ring := run.cycles[n - 1];
      RingHashesUpTo(g, run, wl, n - 1) + (if RingSized(ring) then {wl(HollowRing(g, ring))} else {})
  }

  /** A hash is found exactly when some properly sized cycle among the first
      `n` has a hollow ring with that hash. */
  lemma {:induction false} RingHashesMembers(g: Graph, run: CycleRun, wl: Graph -> string, n: nat, h: string)
    requires RunFits(g, run) && n <= |run.cycles|
    ensures h in RingHashesUpTo(g, run, wl, n) <==>
      exists j :: 0 <= j < n && RingSized(run.cycles[j]) && h == wl(HollowRing(g, run.cycles[j]))
  {
    if n > 0 {
      var ring := run.cycles[n - 1];
      RingHashesMembers(g, run, wl, n - 1, h);
      if h in RingHashesUpTo(g, run, wl, n) && h !in RingHashesUpTo(g, run, wl, n - 1) {
        assert RingSized(ring) && h == wl(HollowRing(g, ring));
      }
      if exists j :: 0 <= j < n && RingSized(run.cycles[j]) && h == wl(HollowRing(g, run.cycles[j])) {
        var j :| 0 <= j < n && RingSized(run.cycles[j]) && h == wl(HollowRing(g, run.cycles[j]));
        if j < n - 1 {
          assert h in RingHashesUpTo(g, run, wl, n - 1);
        }
      }
    }
  }

  /** `found_rings` once the cycle loop has stopped, normally or by raising. */
  function RingHashes(g: Graph, run: CycleRun, wl: Graph -> string): set<string>
    requires RunFits(g, run)
  {
    RingHashesUpTo(g, run, wl, |run.cycles|)
  }

  /** The hashes a graph adds to `ring_counts`: none when the search raised,
      because the counting loop sits inside the same `try`. */
  function CountedRings(g: Graph, run: CycleRun, wl: Graph -> string): set<string>
    requires RunFits(g, run)
  {
    if run.raised then {} else RingHashes(g, run, wl)
  }

  // ---------------------------------------------------------------------------
  // Supports: the number of graphs that contain a substructure
  // ---------------------------------------------------------------------------

  ghost function PathSupport(chunk: seq<Graph>, maxLen: nat, len: nat, sig: string): (n: nat)
    ensures n <= |chunk|
  {
    if |chunk| == 0 then 0
    else PathSupport(chunk[..|chunk| - 1], maxLen, len, sig)
         + (if HasPath(chunk[|chunk| - 1], maxLen, len, sig) then 1 else 0)
  }

  function RingSupport(chunk: seq<Graph>, cycles: Graph -> CycleRun, wl: Graph -> string, h: string): (n: nat)
    requires AllFit(chunk, cycles)
    ensures n <= |chunk|
  {
    if |chunk| == 0 then 0
    else RingSupport(chunk[..|chunk| - 1], cycles, wl, h)
         + (if h in CountedRings(chunk[|chunk| - 1], cycles(chunk[|chunk| - 1]), wl) then 1 else 0)
  }

  /** Supports add up over consecutive parts of the database. */
  lemma {:induction false} PathSupportAppend(a: seq<Graph>, b: seq<Graph>, maxLen: nat, len: nat, sig: string)
    ensures PathSupport(a + b, maxLen, len, sig) == PathSupport(a, maxLen, len, sig) + PathSupport(b, maxLen, len, sig)
    decreases |b|
  {
    if |b| == 0 {
      assert a + b == a;
    } else {
      assert (a + b)[..|a + b| - 1] == a + b[..|b| - 1];
      PathSupportAppend(a, b[..|b| - 1], maxLen, len, sig);
    }
  }

  lemma {:induction false} RingSupportAppend(a: seq<Graph>, b: seq<Graph>, cycles: Graph -> CycleRun, wl: Graph -> string, h: string)
    requires AllFit(a, cycles) && AllFit(b, cycles)
    ensures AllFit(a + b, cycles)
    ensures RingSupport(a + b, cycles, wl, h) == RingSupport(a, cycles, wl, h) + RingSupport(b, cycles, wl, h)
    decreases |b|
  {
    if |b| == 0 {
      assert a + b == a;
    } else {
      assert (a + b)[..|a + b| - 1] == a + b[..|b| - 1];
      RingSupportAppend(a, b[..|b| - 1], cycles, wl, h);
    }
  }

  // ---------------------------------------------------------------------------
  // Ring prototypes: the first hollow ring seen for each hash is kept
  // ---------------------------------------------------------------------------

  /** `ring_protos` after the cycle loop of one graph, over its first `n` cycles. */
  function GraphProtos(acc: map<string, Graph>, g: Graph, run: CycleRun, wl: Graph -> string, n: nat): map<string, Graph>
    requires RunFits(g, run) && n <= |run.cycles|
  {
    if n == 0 then acc
    else
      var before := GraphProtos(acc, g, run, wl, n - 1);
      var ring := run.cycles[n - 1];
      if RingSized(ring) && wl(HollowRing(g, ring)) !in before
      then before[wl(HollowRing(g, ring)) := HollowRing(g, ring)]
      else before
  }

  /** `ring_protos` after a whole chunk. */
  function ChunkProtos(chunk: seq<Graph>, cycles: Graph -> CycleRun, wl: Graph -> string): map<string, Graph>
    requires AllFit(chunk, cycles)
  {
    if |chunk| == 0 then map[]
    else
      var last := chunk[|chunk| - 1];
      GraphProtos(ChunkProtos(chunk[..|chunk| - 1], cycles, wl), last, cycles(last), wl, |cycles(last).cycles|)
  }

  /** A prototype, once stored, is never replaced within a chunk. */
  lemma {:induction false} GraphProtosKeep(acc: map<string, Graph>, g: Graph, run: CycleRun, wl: Graph -> string, n: nat)
    requires RunFits(g, run) && n <= |run.cycles|
    ensures forall h :: h in acc ==> h in GraphProtos(acc, g, run, wl, n) && GraphProtos(acc, g, run, wl, n)[h] == acc[h]
  {
    if n > 0 {
      GraphProtosKeep(acc, g, run, wl, n - 1);
    }
  }

  /** Every hash found in a graph has a prototype. */
  lemma {:induction false} GraphProtosCover(acc: map<string, Graph>, g: Graph, run: CycleRun, wl: Graph -> string, n: nat)
    requires RunFits(g, run) && n <= |run.cycles|
    ensures RingHashesUpTo(g, run, wl, n) <= GraphProtos(acc, g, run, wl, n).Keys
  {
    if n > 0 {
      GraphProtosCover(acc, g, run, wl, n - 1);
      var ring := run.cycles[n - 1];
      if RingSized(ring) {
        assert wl(HollowRing(g, ring)) in GraphProtos(acc, g, run, wl, n);
      }
    }
  }

  /** Every prototype is the hollow ring of a properly sized cycle that hashes to its key. */
  ghost predicate ProtoOf(g: Graph, run: CycleRun, wl: Graph -> string, h: string, proto: Graph)
    requires RunFits(g, run)
  {
    exists j :: 0 <= j < |run.cycles| && RingSized(run.cycles[j])
      && proto == HollowRing(g, run.cycles[j]) && wl(proto) == h
  }

  lemma {:induction false} GraphProtosOrigin(acc: map<string, Graph>, g: Graph, run: CycleRun, wl: Graph -> string, n: nat)
    requires RunFits(g, run) && n <= |run.cycles|
    ensures forall h :: h in GraphProtos(acc, g, run, wl, n) && h !in acc ==> ProtoOf(g, run, wl, h, GraphProtos(acc, g, run, wl, n)[h])
  {
    if n > 0 {
      GraphProtosOrigin(acc, g, run, wl, n - 1);
    }
  }

  /** The first prototype stored for a hash survives the rest of the chunk. */
  lemma {:induction false} ChunkProtosFirstWins(a: seq<Graph>, b: seq<Graph>, cycles: Graph -> CycleRun, wl: Graph -> string, h: string)
    requires AllFit(a, cycles) && AllFit(a + b, cycles) && h in ChunkProtos(a, cycles, wl)
    ensures h in ChunkProtos(a + b, cycles, wl) && ChunkProtos(a + b, cycles, wl)[h] == ChunkProtos(a, cycles, wl)[h]
    decreases |b|
  {
    if |b| == 0 {
      assert a + b == a;
    } else {
      var ab := a + b;
      assert ab[..|ab| - 1] == a + b[..|b| - 1];
      ChunkProtosFirstWins(a, b[..|b| - 1], cycles, wl, h);
      var last := ab[|ab| - 1];
      GraphProtosKeep(ChunkProtos(ab[..|ab| - 1], cycles, wl), last, cycles(last), wl, |cycles(last).cycles|);
    }
  }

  /** Every prototype of a chunk is the hollow ring of a cycle of one of its graphs. */
  lemma {:induction false} ChunkProtosOrigin(chunk: seq<Graph>, cycles: Graph -> CycleRun, wl: Graph -> string, h: string)
    requires AllFit(chunk, cycles) && h in ChunkProtos(chunk, cycles, wl)
    ensures exists i :: 0 <= i < |chunk| && ProtoOf(chunk[i], cycles(chunk[i]), wl, h, ChunkProtos(chunk, cycles, wl)[h])
    decreases |chunk|
  {
    var init := chunk[..|chunk| - 1];
    var last := chunk[|chunk| - 1];
    var before := ChunkProtos(init, cycles, wl);
    GraphProtosKeep(before, last, cycles(last), wl, |cycles(last).cycles|);
    if h in before {
      ChunkProtosOrigin(init, cycles, wl, h);
      var i :| 0 <= i < |init| && ProtoOf(init[i], cycles(init[i]), wl, h, before[h]);
      assert chunk[i] == init[i];
    } else {
      GraphProtosOrigin(before, last, cycles(last), wl, |cycles(last).cycles|);
      assert chunk[|chunk| - 1] == last;
    }
  }

  // ---------------------------------------------------------------------------
  // mine_chunk
  // ---------------------------------------------------------------------------

  /** What one worker returns: `path_counts` (one counter per edge count
      0..maxLen), `ring_counts` and `ring_protos`. */
  datatype ChunkResult = ChunkResult(paths: seq<Counter>, rings: Counter, protos: map<string, Graph>)

  /** The cycle loop of `mine_chunk` for one graph (inside its `try`). */
  method GraphRings(g: Graph, run: CycleRun, wl: Graph -> string, protos0: map<string, Graph>)
    returns (found: set<string>, protos: map<string, Graph>)
    requires RunFits(g, run)
    ensures found == RingHashes(g, run, wl)
    ensures protos == GraphProtos(protos0, g, run, wl, |run.cycles|)
  {
    found := {};
    protos := protos0;
    for j := 0 to |run.cycles|
      invariant found == RingHashesUpTo(g, run, wl, j)
      invariant protos == GraphProtos(protos0, g, run, wl, j)
      invariant found <= protos.Keys
    {
      var ring := run.cycles[j];
      if 3 <= |ring| <= 12 {
        var sub := BuildHollowRing(g, ring);
        var h := wl(sub);
        if h !in found {
          found := found + {h};
          if h !in protos {
            var proto := BuildHollowRing(g, ring);
            protos := protos[h := proto];
          }
        }
      }
    }
  }

  /** `for length ...: for sig in found_paths[length]: path_counts[length][sig] += 1` */
  method CountPaths(counts0: seq<Counter>, found: set<(nat, string)>) returns (counts: seq<Counter>)
    requires forall x :: x in found ==> x.0 < |counts0|
    requires forall l :: 0 <= l < |counts0| ==> Distinct(counts0[l])
    ensures |counts| == |counts0|
    ensures forall l :: 0 <= l < |counts| ==> Distinct(counts[l])
    ensures forall l, sig :: 0 <= l < |counts| ==>
      Get(counts[l], sig) == Get(counts0[l], sig) + (if (l, sig) in found then 1 else 0)
  {
    counts := counts0;
    for length := 0 to |counts0|
      invariant |counts| == |counts0|
      invariant forall l :: 0 <= l < |counts| ==> Distinct(counts[l])
      invariant forall l, sig :: 0 <= l < length ==>
        Get(counts[l], sig) == Get(counts0[l], sig) + (if (l, sig) in found then 1 else 0)
      invariant forall l :: length <= l < |counts| ==> counts[l] == counts0[l]
    {
      var sigs := set x | x in found && x.0 == length :: x.1;
      var counter := counts[length];
      while sigs != {}
        invariant Distinct(counter)
        invariant forall sig ::
          Get(counter, sig) == Get(counts0[length], sig) + (if (length, sig) in found && sig !in sigs then 1 else 0)
        invariant forall sig :: sig in sigs ==> (length, sig) in found
        decreases |sigs|
      {
        var sig := Pick(sigs);
        CountOne(counter, counts0[length], found, length, sigs, sig);
        counter := Add(counter, sig, 1);
        sigs := sigs - {sig};
      }
      counts := counts[length := counter];
    }
  }

  /** Counting one more signature of the pending set `sigs`. */
  lemma CountOne(counter: Counter, c0: Counter, found: set<(nat, string)>, length: nat, sigs: set<string>, sig: string)
    requires Distinct(counter) && sig in sigs
    requires forall s :: Get(counter, s) == Get(c0, s) + (if (length, s) in found && s !in sigs then 1 else 0)
    requires forall s :: s in sigs ==> (length, s) in found
    ensures Distinct(Add(counter, sig, 1))
    ensures forall s :: Get(Add(counter, sig, 1), s) == Get(c0, s) + (if (length, s) in found && s !in sigs - {sig} then 1 else 0)
  {
    AddEffect(counter, sig, 1);
  }

  lemma CountRingOne(counts: Counter, counts0: Counter, found: set<string>, rest: set<string>, h: string)
    requires h in rest && rest <= found && Distinct(counts) && Keys(counts) == Keys(counts0) + (found - rest)
    requires forall x :: Get(counts, x) == Get(counts0, x) + (if x in found && x !in rest then 1 else 0)
    ensures Distinct(Add(counts, h, 1)) && Keys(Add(counts, h, 1)) == Keys(counts0) + (found - (rest - {h}))
    ensures forall x :: Get(Add(counts, h, 1), x) == Get(counts0, x) + (if x in found && x !in rest - {h} then 1 else 0)
  {
    AddEffect(counts, h, 1);
    assert found - (rest - {h}) == (found - rest) + {h};
  }

  /** `for h in found_rings: ring_counts[h] += 1` */
  method CountRings(counts0: Counter, found: set<string>) returns (counts: Counter)
    requires Distinct(counts0)
    ensures Distinct(counts) && Keys(counts) == Keys(counts0) + found
    ensures forall h :: Get(counts, h) == Get(counts0, h) + (if h in found then 1 else 0)
  {
    counts := counts0;
    var rest := found;
    while rest != {}
      invariant rest <= found && Distinct(counts) && Keys(counts) == Keys(counts0) + (found - rest)
      invariant forall h :: Get(counts, h) == Get(counts0, h) + (if h in found && h !in rest then 1 else 0)
      decreases |rest|
    {
      var h := Pick(rest);
      CountRingOne(counts, counts0, found, rest, h);
      counts := Add(counts, h, 1);
      rest := rest - {h};
    }
  }

  function EmptyCounters(n: nat): (r: seq<Counter>)
    ensures |r| == n && forall l :: 0 <= l < n ==> r[l] == []
  {
    seq(n, _ => [])
  }

  /** `mine_chunk(graphs_chunk, max_length)`: each graph counts once for every
      path signature (per edge count) and every ring hash it contains; ring
      counts of a graph whose cycle search raised are dropped, but the
      prototypes it stored before raising stay. */
  method MineChunk(chunk: seq<Graph>, maxLen: nat, cycles: Graph -> CycleRun, wl: Graph -> string)
    returns (result: Option<ChunkResult>)
    requires AllFit(chunk, cycles)
    ensures result.None? <==> exists g :: g in chunk && !AllLabelled(g)
    ensures result.Some? ==>
      var r := result.value;
      && |r.paths| == maxLen + 1
      && (forall l :: 0 <= l <= maxLen ==> Distinct(r.paths[l]))
      && (forall l, sig :: 0 <= l <= maxLen ==> Get(r.paths[l], sig) == PathSupport(chunk, maxLen, l, sig))
      && Distinct(r.rings)
      && (forall h :: Get(r.rings, h) == RingSupport(chunk, cycles, wl, h))
      && r.protos == ChunkProtos(chunk, cycles, wl)
      && Keys(r.rings) <= r.protos.Keys
  {
    var pathCounts := EmptyCounters(maxLen + 1);
    var ringCounts: Counter := [];
    var ringProtos: map<string, Graph> := map[];
    for i := 0 to |chunk|
      invariant |pathCounts| == maxLen + 1
      invariant forall l :: 0 <= l <= maxLen ==> Distinct(pathCounts[l])
      invariant forall l, sig :: 0 <= l <= maxLen ==> Get(pathCounts[l], sig) == PathSupport(chunk[..i], maxLen, l, sig)
      invariant AllFit(chunk[..i], cycles)
      invariant forall j :: 0 <= j < i ==> AllLabelled(chunk[j])
      invariant Distinct(ringCounts)
      invariant forall h :: Get(ringCounts, h) == RingSupport(chunk[..i], cycles, wl, h)
      invariant ringProtos == ChunkProtos(chunk[..i], cycles, wl)
      invariant Keys(ringCounts) <= ringProtos.Keys
    {
      assert chunk[..i + 1] == chunk[..i] + [chunk[i]];
      var ok;
      ok, pathCounts, ringCounts, ringProtos := MineGraph(chunk[..i], chunk[i], maxLen, cycles, wl, pathCounts, ringCounts, ringProtos);
      if !ok {
        return None;
      }
    }
    assert chunk[..|chunk|] == chunk;
    result := Some(ChunkResult(pathCounts, ringCounts, ringProtos));
  }

  /** One iteration of `mine_chunk`'s loop: the counters and prototypes of
      the graphs `done` become those of `done + [g]`, unless reading a label
      of `g` raises. */
  method MineGraph(done: seq<Graph>, g: Graph, maxLen: nat, cycles: Graph -> CycleRun, wl: Graph -> string,
                   pathCounts: seq<Counter>, ringCounts: Counter, ringProtos: map<string, Graph>)
    returns (ok: bool, pathCounts': seq<Counter>, ringCounts': Counter, ringProtos': map<string, Graph>)
    requires AllFit(done + [g], cycles)
    requires |pathCounts| == maxLen + 1
    requires forall l :: 0 <= l <= maxLen ==> Distinct(pathCounts[l])
    requires forall l, sig :: 0 <= l <= maxLen ==> Get(pathCounts[l], sig) == PathSupport(done, maxLen, l, sig)
    requires AllFit(done, cycles)
    requires Distinct(ringCounts)
    requires forall h :: Get(ringCounts, h) == RingSupport(done, cycles, wl, h)
    requires ringProtos == ChunkProtos(done, cycles, wl)
    requires Keys(ringCounts) <= ringProtos.Keys
    ensures ok <==> AllLabelled(g)
    ensures ok ==>
      && |pathCounts'| == maxLen + 1
      && (forall l :: 0 <= l <= maxLen ==> Distinct(pathCounts'[l]))
      && (forall l, sig :: 0 <= l <= maxLen ==> Get(pathCounts'[l], sig) == PathSupport(done + [g], maxLen, l, sig))
      && Distinct(ringCounts')
      && (forall h :: Get(ringCounts', h) == RingSupport(done + [g], cycles, wl, h))
      && ringProtos' == ChunkProtos(done + [g], cycles, wl)
      && Keys(ringCounts') <= ringProtos'.Keys
  {
    pathCounts', ringCounts', ringProtos' := pathCounts, ringCounts, ringProtos;
    var found := PathSignatures(g, maxLen);
    if found.None? {
      return false, pathCounts', ringCounts', ringProtos';
    }
    assert (done + [g])[..|done|] == done && (done + [g])[|done|] == g;
    pathCounts' := CountPaths(pathCounts, found.value);
    var run := cycles(g);
    var foundRings, protos := GraphRings(g, run, wl, ringProtos);
    GraphProtosCover(ringProtos, g, run, wl, |run.cycles|);
    GraphProtosKeep(ringProtos, g, run, wl, |run.cycles|);
    ringProtos' := protos;
    if !run.raised {
      ringCounts' := CountRings(ringCounts, foundRings);
    }
    ok := true;
  }

  // ---------------------------------------------------------------------------
  // Chunking: `chunk_size = max(10, total_graphs // (n_cores * 4))` and
  // `[db_graphs[i:i + chunk_size] for i in range(0, total_graphs, chunk_size)]`
  // ---------------------------------------------------------------------------

  function ChunkSize(total: nat, cores: nat): (size: nat)
    requires cores >= 1
    ensures size >= 10 && size >= total / (cores * 4)
  {
    if total / (cores * 4) > 10 then total / (cores * 4) else 10
  }

  function Chunks(db: seq<Graph>, size: nat): seq<seq<Graph>>
    requires size >= 1
    decreases |db|
  {
    if |db| == 0 then []
    else if |db| <= size then [db]
    else [db[..size]] + Chunks(db[size..], size)
  }

  function Flatten(chunks: seq<seq<Graph>>): seq<Graph> {
    if |chunks| == 0 then [] else Flatten(chunks[..|chunks| - 1]) + chunks[|chunks| - 1]
  }

  lemma {:induction false} FlattenCons(c: seq<Graph>, rest: seq<seq<Graph>>)
    ensures Flatten([c] + rest) == c + Flatten(rest)
    decreases |rest|
  {
    if |rest| == 0 {
      assert [c] + rest == [c];
      assert Flatten([c][..0]) == [];
    } else {
      var all := [c] + rest;
      assert all[..|all| - 1] == [c] + rest[..|rest| - 1];
      FlattenCons(c, rest[..|rest| - 1]);
    }
  }

  /** The chunks are non-empty, hold at most `size` graphs each, all but the
      last hold exactly `size`, and together they are the database in order. */
  lemma {:induction false} ChunksPartition(db: seq<Graph>, size: nat)
    requires size >= 1
    ensures Flatten(Chunks(db, size)) == db
    ensures forall i :: 0 <= i < |Chunks(db, size)| ==> 1 <= |Chunks(db, size)[i]| <= size
    ensures forall i :: 0 <= i < |Chunks(db, size)| - 1 ==> |Chunks(db, size)[i]| == size
    decreases |db|
  {
    if |db| == 0 {
    } else if |db| <= size {
      assert Flatten([db]) == Flatten([db][..0]) + db;
    } else {
      ChunksPartition(db[size..], size);
      FlattenCons(db[..size], Chunks(db[size..], size));
      assert db[..size] + db[size..] == db;
    }
  }

  /** A graph of any chunk is a graph of the database. */
  lemma {:induction false} FlattenMember(chunks: seq<seq<Graph>>, i: nat, g: Graph)
    requires i < |chunks| && g in chunks[i]
    ensures g in Flatten(chunks)
  {
    if i < |chunks| - 1 {
      assert chunks[..|chunks| - 1][i] == chunks[i];
      FlattenMember(chunks[..|chunks| - 1], i, g);
    }
  }

  lemma {:induction false} FlattenOrigin(chunks: seq<seq<Graph>>, g: Graph)
    requires g in Flatten(chunks)
    ensures exists i :: 0 <= i < |chunks| && g in chunks[i]
  {
    var init := chunks[..|chunks| - 1];
    if g !in chunks[|chunks| - 1] {
      FlattenOrigin(init, g);
      var i :| 0 <= i < |init| && g in init[i];
      assert chunks[i] == init[i];
    }
  }

  // ---------------------------------------------------------------------------
  // Merging the workers' results in the order `imap_unordered` delivers them
  // ---------------------------------------------------------------------------

  /** The sum of `f` over a sequence of chunk results. */
  function SumOf(rs: seq<ChunkResult>, f: ChunkResult -> nat): nat {
    if |rs| == 0 then 0 else SumOf(rs[..|rs| - 1], f) + f(rs[|rs| - 1])
  }

  lemma {:induction false} SumOfAppend(a: seq<ChunkResult>, b: seq<ChunkResult>, f: ChunkResult -> nat)
    ensures SumOf(a + b, f) == SumOf(a, f) + SumOf(b, f)
    decreases |b|
  {
    if |b| == 0 {
      assert a + b == a;
    } else {
      assert (a + b)[..|a + b| - 1] == a + b[..|b| - 1];
      SumOfAppend(a, b[..|b| - 1], f);
    }
  }

  lemma SplitAt<T>(s: seq<T>, k: nat)
    requires k < |s|
    ensures s == s[..k] + ([s[k]] + s[k + 1..])
  {
  }

  /** Taking one element out of a sequence takes it out of its multiset. */
  lemma RemoveAt<T>(s: seq<T>, k: nat)
    requires k < |s|
    ensures multiset(s[..k] + s[k + 1..]) == multiset(s) - multiset{s[k]}
  {
    assert s == s[..k] + [s[k]] + s[k + 1..];
  }

  /** Sums do not depend on the order of the results. */
  lemma {:induction false} SumOfPermutation(a: seq<ChunkResult>, b: seq<ChunkResult>, f: ChunkResult -> nat)
    requires multiset(a) == multiset(b)
    ensures SumOf(a, f) == SumOf(b, f)
    decreases |a|
  {
    if |a| == 0 {
      assert |b| == |multiset(b)| == 0;
    } else {
      var x := a[|a| - 1];
      assert x in multiset(a);
      var k :| 0 <= k < |b| && b[k] == x;
      var b' := b[..k] + b[k + 1..];
      RemoveBoth(a, b, k);
      SumOfPermutation(a[..|a| - 1], b', f);
      SumOfRemove(b, k, f);
    }
  }

  /** Taking the last element of `a` and a matching element of `b` out keeps
      the two multisets equal. */
  lemma RemoveBoth(a: seq<ChunkResult>, b: seq<ChunkResult>, k: nat)
    requires multiset(a) == multiset(b) && |a| > 0 && k < |b| && b[k] == a[|a| - 1]
    ensures multiset(a[..|a| - 1]) == multiset(b[..k] + b[k + 1..])
  {
    RemoveAt(a, |a| - 1);
    RemoveAt(b, k);
    assert a[..|a| - 1] + a[|a|..] == a[..|a| - 1];
  }

  /** The sum without one element, plus that element. */
  lemma SumOfRemove(b: seq<ChunkResult>, k: nat, f: ChunkResult -> nat)
    requires k < |b|
    ensures SumOf(b, f) == SumOf(b[..k] + b[k + 1..], f) + f(b[k])
  {
    var x, p, q := b[k], b[..k], b[k + 1..];
    calc {
      SumOf(b, f);
      { SplitAt(b, k); }
      SumOf(p + ([x] + q), f);
      { SumOfAppend(p, [x] + q, f); }
      SumOf(p, f) + SumOf([x] + q, f);
      { SumOfAppend([x], q, f); SumOfSingle(x, f); }
      SumOf(p, f) + f(x) + SumOf(q, f);
      { SumOfAppend(p, q, f); }
      SumOf(p + q, f) + f(x);
    }
  }

  lemma SumOfSingle(x: ChunkResult, f: ChunkResult -> nat)
    ensures SumOf([x], f) == f(x)
  {
    assert [x][..0] == [];
  }

  /** `p_counts[length][sig]` */
  function PathCount(r: ChunkResult, len: nat, sig: string): nat {
    if len < |r.paths| then Get(r.paths[len], sig) else 0
  }

  /** `r_counts[h]` */
  function RingCount(r: ChunkResult, h: string): nat {
    Get(r.rings, h)
  }

  function MergedProtos(rs: seq<ChunkResult>): map<string, Graph> {
    if |rs| == 0 then map[] else MergedProtos(rs[..|rs| - 1]) + rs[|rs| - 1].protos
  }

  /** `global_ring_protos.update(r_protos)`: a hash has a prototype exactly
      when some result carried one, and it keeps the prototype of the last
      result that carried it. */
  lemma {:induction false} MergedProtosKeys(rs: seq<ChunkResult>, h: string)
    ensures h in MergedProtos(rs) <==> exists i :: 0 <= i < |rs| && h in rs[i].protos
  {
    if |rs| > 0 {
      var init := rs[..|rs| - 1];
      MergedProtosKeys(init, h);
      if h in MergedProtos(init) {
        var i :| 0 <= i < |init| && h in init[i].protos;
        assert rs[i] == init[i];
      }
      if exists i :: 0 <= i < |rs| && h in rs[i].protos {
        var i :| 0 <= i < |rs| && h in rs[i].protos;
        if i < |rs| - 1 {
          assert init[i] == rs[i];
        }
      }
    }
  }

  lemma {:induction false} MergedProtosLastWins(rs: seq<ChunkResult>, h: string, i: nat)
    requires i < |rs| && h in rs[i].protos
    requires forall j :: i < j < |rs| ==> h !in rs[j].protos
    ensures h in MergedProtos(rs) && MergedProtos(rs)[h] == rs[i].protos[h]
  {
    if i < |rs| - 1 {
      var init := rs[..|rs| - 1];
      assert init[i] == rs[i];
      MergedProtosLastWins(init, h, i);
    }
  }

  /** Every merged prototype is one that some result carried. */
  lemma {:induction false} MergedProtosOrigin(rs: seq<ChunkResult>, h: string)
    requires h in MergedProtos(rs)
    ensures exists i :: 0 <= i < |rs| && h in rs[i].protos && MergedProtos(rs)[h] == rs[i].protos[h]
  {
    var init := rs[..|rs| - 1];
    if h !in rs[|rs| - 1].protos {
      MergedProtosOrigin(init, h);
      var i :| 0 <= i < |init| && h in init[i].protos && MergedProtos(init)[h] == init[i].protos[h];
      assert rs[i] == init[i];
    }
  }

  /** `for length in p_counts: global_paths[length].update(p_counts[length])` */
  method MergePaths(global0: seq<Counter>, part: seq<Counter>) returns (global: seq<Counter>)
    requires |part| == |global0|
    requires forall l :: 0 <= l < |global0| ==> Distinct(global0[l])
    ensures |global| == |global0|
    ensures forall l :: 0 <= l < |global| ==> Distinct(global[l])
    ensures forall l, sig :: 0 <= l < |global| ==> Get(global[l], sig) == Get(global0[l], sig) + Get(part[l], sig)
  {
    global := global0;
    for length := 0 to |part|
      invariant |global| == |global0|
      invariant forall l :: 0 <= l < |global| ==> Distinct(global[l])
      invariant forall l, sig :: 0 <= l < length ==> Get(global[l], sig) == Get(global0[l], sig) + Get(part[l], sig)
      invariant forall l :: length <= l < |global| ==> global[l] == global0[l]
    {
      forall sig ensures Get(Update(global[length], part[length]), sig) == Get(global[length], sig) + Get(part[length], sig) {
        GetUpdate(global[length], part[length], sig);
      }
      DistinctUpdate(global[length], part[length]);
      global := global[length := Update(global[length], part[length])];
    }
  }

  /** The merge loop of `main`: global counts are the sums of the chunk counts,
      and every counted ring hash has a prototype. */
  method MergeResults(maxLen: nat, completed: seq<ChunkResult>)
    returns (paths: seq<Counter>, rings: Counter, protos: map<string, Graph>)
    requires forall i :: 0 <= i < |completed| ==> |completed[i].paths| == maxLen + 1
    requires forall i :: 0 <= i < |completed| ==> Keys(completed[i].rings) <= completed[i].protos.Keys
    ensures |paths| == maxLen + 1
    ensures forall l :: 0 <= l <= maxLen ==> Distinct(paths[l])
    ensures forall l: nat, sig :: l <= maxLen ==> Get(paths[l], sig) == SumOf(completed, r => PathCount(r, l, sig))
    ensures Distinct(rings)
    ensures forall h :: Get(rings, h) == SumOf(completed, r => RingCount(r, h))
    ensures protos == MergedProtos(completed)
    ensures Keys(rings) <= protos.Keys
  {
    paths := EmptyCounters(maxLen + 1);
    rings := [];
    protos := map[];
    for i := 0 to |completed|
      invariant |paths| == maxLen + 1
      invariant forall l :: 0 <= l <= maxLen ==> Distinct(paths[l])
      invariant forall l: nat, sig :: l <= maxLen ==> Get(paths[l], sig) == SumOf(completed[..i], r => PathCount(r, l, sig))
      invariant Distinct(rings)
      invariant forall h :: Get(rings, h) == SumOf(completed[..i], r => RingCount(r, h))
      invariant protos == MergedProtos(completed[..i])
      invariant Keys(rings) <= protos.Keys
    {
      var r := completed[i];
      assert completed[..i + 1][..i] == completed[..i] && completed[..i + 1][i] == r;
      paths := MergePaths(paths, r.paths);
      forall h ensures Get(Update(rings, r.rings), h) == Get(rings, h) + Get(r.rings, h) {
        GetUpdate(rings, r.rings, h);
      }
      DistinctUpdate(rings, r.rings);
      KeysUpdate(rings, r.rings);
      rings := Update(rings, r.rings);
      protos := protos + r.protos;
    }
    assert completed[..|completed|] == completed;
  }

  // ---------------------------------------------------------------------------
  // The whole mining phase of `main`
  // ---------------------------------------------------------------------------

  function Range(n: nat): (r: seq<nat>)
    ensures |r| == n && forall i :: 0 <= i < n ==> r[i] == i
  {
    seq(n, i => i)
  }

  /** The results listed in the order of `order`. */
  function Arrange(results: seq<ChunkResult>, order: seq<nat>): (r: seq<ChunkResult>)
    requires IndicesBelow(order, |results|)
    ensures |r| == |order|
  {
    if |order| == 0 then [] else Arrange(results, order[..|order| - 1]) + [results[order[|order| - 1]]]
  }

  lemma {:induction false} ArrangeAt(results: seq<ChunkResult>, order: seq<nat>, j: nat)
    requires IndicesBelow(order, |results|) && j < |order|
    ensures Arrange(results, order)[j] == results[order[j]]
  {
    if j < |order| - 1 {
      ArrangeAt(results, order[..|order| - 1], j);
    }
  }

  predicate IndicesBelow(ids: seq<nat>, n: nat) {
    forall j :: 0 <= j < |ids| ==> ids[j] < n
  }

  lemma IndicesBelowPermutation(order: seq<nat>, ids: seq<nat>, n: nat)
    requires multiset(order) == multiset(ids) && IndicesBelow(ids, n)
    ensures IndicesBelow(order, n)
  {
    forall j | 0 <= j < |order| ensures order[j] < n {
      assert order[j] in multiset(ids);
    }
  }

  lemma ArrangeSplit(results: seq<ChunkResult>, pre: seq<nat>, x: nat, post: seq<nat>)
    requires IndicesBelow(pre, |results|) && x < |results| && IndicesBelow(post, |results|)
    ensures IndicesBelow(pre + ([x] + post), |results|)
    ensures Arrange(results, pre + ([x] + post)) == Arrange(results, pre) + ([results[x]] + Arrange(results, post))
  {
    ArrangeAppend(results, [x], post);
    assert Arrange(results, [x]) == [results[x]];
    ArrangeAppend(results, pre, [x] + post);
  }

  /** Leaving one index out leaves its result out. */
  lemma ArrangeRemove(results: seq<ChunkResult>, ids: seq<nat>, k: nat)
    requires IndicesBelow(ids, |results|) && k < |ids|
    ensures IndicesBelow(ids[..k] + ids[k + 1..], |results|)
    ensures multiset(Arrange(results, ids))
      == multiset(Arrange(results, ids[..k] + ids[k + 1..])) + multiset{results[ids[k]]}
  {
    var pre, post := ids[..k], ids[k + 1..];
    assert IndicesBelow(pre, |results|) && IndicesBelow(post, |results|);
    SplitAt(ids, k);
    ArrangeSplit(results, pre, ids[k], post);
    ArrangeAppend(results, pre, post);
  }

  /** Listing the results in any permutation of their indices permutes them. */
  lemma {:induction false} ArrangePermutation(results: seq<ChunkResult>, order: seq<nat>, ids: seq<nat>)
    requires multiset(order) == multiset(ids) && IndicesBelow(ids, |results|)
    ensures IndicesBelow(order, |results|)
    ensures multiset(Arrange(results, order)) == multiset(Arrange(results, ids))
    decreases |order|
  {
    IndicesBelowPermutation(order, ids, |results|);
    if |order| == 0 {
      assert |ids| == |multiset(ids)| == 0;
    } else {
      var x := order[|order| - 1];
      var o' := order[..|order| - 1];
      assert x in multiset(ids);
      var k :| 0 <= k < |ids| && ids[k] == x;
      RemoveAt(order, |order| - 1);
      RemoveAt(ids, k);
      assert order[..|order| - 1] + order[|order|..] == o';
      ArrangeRemove(results, ids, k);
      ArrangePermutation(results, o', ids[..k] + ids[k + 1..]);
    }
  }

  lemma {:induction false} ArrangeAppend(results: seq<ChunkResult>, a: seq<nat>, b: seq<nat>)
    requires IndicesBelow(a, |results|) && IndicesBelow(b, |results|)
    ensures IndicesBelow(a + b, |results|)
    ensures Arrange(results, a + b) == Arrange(results, a) + Arrange(results, b)
    decreases |b|
  {
    if |b| == 0 {
      assert a + b == a;
    } else {
      var b' := b[..|b| - 1];
      assert (a + b)[..|a + b| - 1] == a + b';
      ArrangeAppend(results, a, b');
    }
  }

  /** Chunk totals add up to the supports in the whole database. */
  lemma {:induction false} TotalsAreSupports(chunks: seq<seq<Graph>>, results: seq<ChunkResult>, maxLen: nat,
                                             cycles: Graph -> CycleRun, wl: Graph -> string, len: nat, sig: string, h: string)
    requires |chunks| == |results|
    requires forall i :: 0 <= i < |chunks| ==> AllFit(chunks[i], cycles)
    requires forall i :: 0 <= i < |chunks| ==> PathCount(results[i], len, sig) == PathSupport(chunks[i], maxLen, len, sig)
    requires forall i :: 0 <= i < |chunks| ==> Get(results[i].rings, h) == RingSupport(chunks[i], cycles, wl, h)
    ensures AllFit(Flatten(chunks), cycles)
    ensures SumOf(results, r => PathCount(r, len, sig)) == PathSupport(Flatten(chunks), maxLen, len, sig)
    ensures SumOf(results, r => RingCount(r, h)) == RingSupport(Flatten(chunks), cycles, wl, h)
    decreases |chunks|
  {
    if |chunks| > 0 {
      var n := |chunks| - 1;
      TotalsAreSupports(chunks[..n], results[..n], maxLen, cycles, wl, len, sig, h);
      PathSupportAppend(Flatten(chunks[..n]), chunks[n], maxLen, len, sig);
      RingSupportAppend(Flatten(chunks[..n]), chunks[n], cycles, wl, h);
    }
  }

  /** `pool.imap_unordered(worker, chunks)`: one `mine_chunk` call per chunk,
      listed here in chunk order. `ok` is false when some worker raised,
      which `main` does not catch. */
  method MineChunks(chunks: seq<seq<Graph>>, maxLen: nat, cycles: Graph -> CycleRun, wl: Graph -> string)
    returns (results: seq<ChunkResult>, ok: bool)
    requires AllFit(Flatten(chunks), cycles)
    ensures ok <==> forall g :: g in Flatten(chunks) ==> AllLabelled(g)
    ensures ok ==> |results| == |chunks|
    ensures ok ==> forall j :: 0 <= j < |chunks| ==> AllFit(chunks[j], cycles) && ChunkMined(chunks[j], results[j], maxLen, cycles, wl)
  {
    results := [];
    for i := 0 to |chunks|
      invariant |results| == i
      invariant forall j :: 0 <= j < i ==> AllFit(chunks[j], cycles) && ChunkMined(chunks[j], results[j], maxLen, cycles, wl)
      invariant forall j, g :: 0 <= j < i && g in chunks[j] ==> AllLabelled(g)
    {
      assert AllFit(chunks[i], cycles) by {
        forall g | g in chunks[i] ensures RunFits(g, cycles(g)) {
          FlattenMember(chunks, i, g);
        }
      }
      var r := MineChunk(chunks[i], maxLen, cycles, wl);
      if r.None? {
        var g :| g in chunks[i] && !AllLabelled(g);
        FlattenMember(chunks, i, g);
        return results, false;
      }
      results := results + [r.value];
    }
    forall g | g in Flatten(chunks) ensures AllLabelled(g) {
      FlattenOrigin(chunks, g);
    }
    ok := true;
  }

  /** Every merged prototype is a hollow ring of some graph of the database. */
  lemma MergedProtosFromDatabase(chunks: seq<seq<Graph>>, results: seq<ChunkResult>, order: seq<nat>,
                                 maxLen: nat, cycles: Graph -> CycleRun, wl: Graph -> string, h: string)
    requires |results| == |chunks|
    requires forall j :: 0 <= j < |chunks| ==> AllFit(chunks[j], cycles) && ChunkMined(chunks[j], results[j], maxLen, cycles, wl)
    requires IndicesBelow(order, |results|)
    requires h in MergedProtos(Arrange(results, order))
    ensures exists g :: g in Flatten(chunks) && RunFits(g, cycles(g)) && ProtoOf(g, cycles(g), wl, h, MergedProtos(Arrange(results, order))[h])
  {
    var completed := Arrange(results, order);
    MergedProtosOrigin(completed, h);
    var i :| 0 <= i < |completed| && h in completed[i].protos && MergedProtos(completed)[h] == completed[i].protos[h];
    var c := order[i];
    ArrangeAt(results, order, i);
    ChunkProtosOrigin(chunks[c], cycles, wl, h);
    var k :| 0 <= k < |chunks[c]| && ProtoOf(chunks[c][k], cycles(chunks[c][k]), wl, h, ChunkProtos(chunks[c], cycles, wl)[h]);
    FlattenMember(chunks, c, chunks[c][k]);
  }

  lemma {:induction false} ArrangeRange(results: seq<ChunkResult>, n: nat)
    requires n <= |results|
    ensures IndicesBelow(Range(n), |results|) && Arrange(results, Range(n)) == results[..n]
  {
    if n > 0 {
      assert Range(n)[..n - 1] == Range(n - 1);
      ArrangeRange(results, n - 1);
      assert results[..n] == results[..n - 1] + [results[n - 1]];
    }
  }

  /** The workers' results, in any completion order, meet what the merge needs. */
  lemma ArrangedShapes(results: seq<ChunkResult>, order: seq<nat>, maxLen: nat)
    requires IndicesBelow(order, |results|)
    requires forall j :: 0 <= j < |results| ==> |results[j].paths| == maxLen + 1 && Keys(results[j].rings) <= results[j].protos.Keys
    ensures forall i :: 0 <= i < |order| ==> |Arrange(results, order)[i].paths| == maxLen + 1
    ensures forall i :: 0 <= i < |order| ==> Keys(Arrange(results, order)[i].rings) <= Arrange(results, order)[i].protos.Keys
  {
    forall i | 0 <= i < |order| ensures Arrange(results, order)[i] == results[order[i]] {
      ArrangeAt(results, order, i);
    }
  }

  /** Global totals, summed in any completion order, are database supports. */
  lemma DatabaseTotals(db: seq<Graph>, chunks: seq<seq<Graph>>, results: seq<ChunkResult>, order: seq<nat>,
                       maxLen: nat, cycles: Graph -> CycleRun, wl: Graph -> string, len: nat, sig: string, h: string)
    requires Flatten(chunks) == db && |results| == |chunks| && len <= maxLen
    requires forall j :: 0 <= j < |chunks| ==> AllFit(chunks[j], cycles) && ChunkMined(chunks[j], results[j], maxLen, cycles, wl)
    requires multiset(order) == multiset(Range(|chunks|))
    ensures IndicesBelow(order, |results|) && AllFit(db, cycles)
    ensures SumOf(Arrange(results, order), r => PathCount(r, len, sig)) == PathSupport(db, maxLen, len, sig)
    ensures SumOf(Arrange(results, order), r => RingCount(r, h)) == RingSupport(db, cycles, wl, h)
  {
    ArrangeRange(results, |results|);
    assert results[..|results|] == results;
    ArrangePermutation(results, order, Range(|chunks|));
    SumOfPermutation(Arrange(results, order), results, r => PathCount(r, len, sig));
    SumOfPermutation(Arrange(results, order), results, r => RingCount(r, h));
    TotalsAreSupports(chunks, results, maxLen, cycles, wl, len, sig, h);
  }

  /** Mining the database chunk by chunk and merging the results in any
      completion order yields, for every substructure, the number of graphs of
      the database that contain it; every counted ring hash has a prototype,
      which is a hollow ring of some graph with that hash. */
  method MineDatabase(db: seq<Graph>, maxLen: nat, cores: nat, cycles: Graph -> CycleRun, wl: Graph -> string, order: seq<nat>)
    returns (paths: seq<Counter>, rings: Counter, protos: map<string, Graph>, ok: bool)
    requires cores >= 1 && AllFit(db, cycles)
    requires multiset(order) == multiset(Range(|Chunks(db, ChunkSize(|db|, cores))|))
    ensures ok <==> forall g :: g in db ==> AllLabelled(g)
    ensures ok ==> |paths| == maxLen + 1
    ensures ok ==> forall l :: 0 <= l <= maxLen ==> Distinct(paths[l])
    ensures ok ==> forall l: nat, sig :: l <= maxLen ==> Get(paths[l], sig) == PathSupport(db, maxLen, l, sig)
    ensures ok ==> Distinct(rings)
    ensures ok ==> forall h :: Get(rings, h) == RingSupport(db, cycles, wl, h)
    ensures ok ==> Keys(rings) <= protos.Keys
    ensures ok ==> forall h :: h in protos ==> exists g :: g in db && ProtoOf(g, cycles(g), wl, h, protos[h])
  {
    var size := ChunkSize(|db|, cores);
    var chunks := Chunks(db, size);
    ChunksPartition(db, size);
    var results;
    results, ok := MineChunks(chunks, maxLen, cycles, wl);
    if !ok {
      return [], [], map[], false;
    }
    DatabaseTotals(db, chunks, results, order, maxLen, cycles, wl, 0, "", "");
    var completed := Arrange(results, order);
    ArrangedShapes(results, order, maxLen);
    paths, rings, protos := MergeResults(maxLen, completed);
    forall l: nat, sig | l <= maxLen ensures Get(paths[l], sig) == PathSupport(db, maxLen, l, sig) {
      DatabaseTotals(db, chunks, results, order, maxLen, cycles, wl, l, sig, "");
    }
    forall h ensures Get(rings, h) == RingSupport(db, cycles, wl, h) {
      DatabaseTotals(db, chunks, results, order, maxLen, cycles, wl, 0, "", h);
    }
    forall h | h in protos ensures exists g :: g in db && ProtoOf(g, cycles(g), wl, h, protos[h]) {
      MergedProtosFromDatabase(chunks, results, order, maxLen, cycles, wl, h);
    }
  }

  /** What `MineChunk` guarantees about one chunk's result. */
  ghost predicate ChunkMined(chunk: seq<Graph>, r: ChunkResult, maxLen: nat, cycles: Graph -> CycleRun, wl: Graph -> string)
    requires AllFit(chunk, cycles)
  {
    && |r.paths| == maxLen + 1
    && (forall l: nat, sig :: l <= maxLen ==> PathCount(r, l, sig) == PathSupport(chunk, maxLen, l, sig))
    && (forall h :: Get(r.rings, h) == RingSupport(chunk, cycles, wl, h))
    && r.protos == ChunkProtos(chunk, cycles, wl)
    && Keys(r.rings) <= r.protos.Keys
  }
}
