/** Feature selection at the end of hw1/q3/miner.py: the candidates whose
    support lies within `[min_count, max_count]` (rings first, then paths by
    edge count, each in counter order), a stable sort by descending support,
    the top-k prefix, and the `# SIG:` header written for each feature. */
module Selection {
  import opened Text
  import opened Graphs
  import opened Counters

  const RING: string := "RING"
  const PATH: string := "PATH"

  /** `(count, ptype, sig, proto)`; paths carry no prototype. */
  datatype Candidate = Candidate(count: nat, kind: string, sig: string, proto: Option<Graph>)

  /** Every ring hash has a stored prototype (`global_ring_protos[h]` succeeds). */
  predicate ProtosFor(rings: Counter, protos: map<string, Graph>) {
    forall i :: 0 <= i < |rings| ==> rings[i].key in protos
  }

  // ---------------------------------------------------------------------------
  // The candidate list
  // ---------------------------------------------------------------------------

  function RingCandidates(rings: Counter, protos: map<string, Graph>, lo: int, hi: int): seq<Candidate>
    requires ProtosFor(rings, protos)
  {
    if |rings| == 0 then []
    else
      var e := rings[|rings| - 1];
      RingCandidates(rings[..|rings| - 1], protos, lo, hi)
        + (if lo <= e.count <= hi then [Candidate(e.count, RING, e.key, Some(protos[e.key]))] else [])
  }

  function PathCandidatesOf(c: Counter, lo: int, hi: int): seq<Candidate> {
    if |c| == 0 then []
    else
      var e := c[|c| - 1];
      PathCandidatesOf(c[..|c| - 1], lo, hi) + (if lo <= e.count <= hi then [Candidate(e.count, PATH, e.key, None)] else [])
  }

  function PathCandidates(paths: seq<Counter>, lo: int, hi: int): seq<Candidate> {
    if |paths| == 0 then [] else PathCandidates(paths[..|paths| - 1], lo, hi) + PathCandidatesOf(paths[|paths| - 1], lo, hi)
  }

  /** `all_candidates` before sorting. */
  function AllCandidates(rings: Counter, protos: map<string, Graph>, paths: seq<Counter>, lo: int, hi: int): seq<Candidate>
    requires ProtosFor(rings, protos)
  {
    RingCandidates(rings, protos, lo, hi) + PathCandidates(paths, lo, hi)
  }

  /** The ring candidate `e` yields, when its support is in range. */
  predicate RingPick(e: Entry, protos: map<string, Graph>, lo: int, hi: int, x: Candidate) {
    lo <= e.count <= hi && e.key in protos && x == Candidate(e.count, RING, e.key, Some(protos[e.key]))
  }

  /** The path candidate `e` yields, when its support is in range. */
  predicate PathPick(e: Entry, lo: int, hi: int, x: Candidate) {
    lo <= e.count <= hi && x == Candidate(e.count, PATH, e.key, None)
  }

  /** A ring candidate is exactly a counted ring whose support is in range,
      paired with its prototype. */
  lemma {:induction false} RingCandidatesExact(rings: Counter, protos: map<string, Graph>, lo: int, hi: int, x: Candidate)
    requires ProtosFor(rings, protos)
    ensures x in RingCandidates(rings, protos, lo, hi) <==>
      exists i :: 0 <= i < |rings| && RingPick(rings[i], protos, lo, hi, x)
  {
    if |rings| > 0 {
      var init := rings[..|rings| - 1];
      var e := rings[|rings| - 1];
      RingCandidatesExact(init, protos, lo, hi, x);
      if x in RingCandidates(rings, protos, lo, hi) {
        if x in RingCandidates(init, protos, lo, hi) {
          var i :| 0 <= i < |init| && RingPick(init[i], protos, lo, hi, x);
          assert rings[i] == init[i];
        } else {
          assert RingPick(rings[|rings| - 1], protos, lo, hi, x);
        }
      }
      if exists i :: 0 <= i < |rings| && RingPick(rings[i], protos, lo, hi, x) {
        var i :| 0 <= i < |rings| && RingPick(rings[i], protos, lo, hi, x);
        if i < |init| {
          assert RingPick(init[i], protos, lo, hi, x);
        }
      }
    }
  }

  lemma {:induction false} PathCandidatesOfExact(c: Counter, lo: int, hi: int, x: Candidate)
    ensures x in PathCandidatesOf(c, lo, hi) <==> exists i :: 0 <= i < |c| && PathPick(c[i], lo, hi, x)
  {
    if |c| > 0 {
      var init := c[..|c| - 1];
      PathCandidatesOfExact(init, lo, hi, x);
      if x in PathCandidatesOf(c, lo, hi) {
        if x in PathCandidatesOf(init, lo, hi) {
          var i :| 0 <= i < |init| && PathPick(init[i], lo, hi, x);
          assert c[i] == init[i];
        } else {
          assert PathPick(c[|c| - 1], lo, hi, x);
        }
      }
      if exists i :: 0 <= i < |c| && PathPick(c[i], lo, hi, x) {
        var i :| 0 <= i < |c| && PathPick(c[i], lo, hi, x);
        if i < |init| {
          assert PathPick(init[i], lo, hi, x);
        }
      }
    }
  }

  /** A path candidate is exactly a path signature of some edge count whose
      support is in range. */
  lemma {:induction false} PathCandidatesExact(paths: seq<Counter>, lo: int, hi: int, x: Candidate)
    ensures x in PathCandidates(paths, lo, hi) <==>
      exists l, i :: 0 <= l < |paths| && 0 <= i < |paths[l]| && PathPick(paths[l][i], lo, hi, x)
  {
    if |paths| > 0 {
      var init := paths[..|paths| - 1];
      var last := paths[|paths| - 1];
      PathCandidatesExact(init, lo, hi, x);
      PathCandidatesOfExact(last, lo, hi, x);
      if x in PathCandidates(paths, lo, hi) {
        if x in PathCandidates(init, lo, hi) {
          var l, i :| 0 <= l < |init| && 0 <= i < |init[l]| && PathPick(init[l][i], lo, hi, x);
          assert paths[l] == init[l];
        } else {
          var i :| 0 <= i < |last| && PathPick(last[i], lo, hi, x);
          assert PathPick(paths[|paths| - 1][i], lo, hi, x);
        }
      }
      if exists l, i :: 0 <= l < |paths| && 0 <= i < |paths[l]| && PathPick(paths[l][i], lo, hi, x) {
        var l, i :| 0 <= l < |paths| && 0 <= i < |paths[l]| && PathPick(paths[l][i], lo, hi, x);
        if l < |init| {
          assert paths[l] == init[l];
          assert PathPick(init[l][i], lo, hi, x);
        }
      }
    }
  }

  /** All ring candidates come before all path candidates. */
  lemma {:induction false} CandidateKinds(rings: Counter, protos: map<string, Graph>, paths: seq<Counter>, lo: int, hi: int)
    requires ProtosFor(rings, protos)
    ensures var all := AllCandidates(rings, protos, paths, lo, hi);
      var n := |RingCandidates(rings, protos, lo, hi)|;
      (forall i :: 0 <= i < n ==> all[i].kind == RING && all[i].proto.Some?)
      && (forall i :: n <= i < |all| ==> all[i].kind == PATH && all[i].proto == None)
  {
    var rc := RingCandidates(rings, protos, lo, hi);
    var pc := PathCandidates(paths, lo, hi);
    forall i | 0 <= i < |rc| ensures rc[i].kind == RING && rc[i].proto.Some? {
      RingCandidatesExact(rings, protos, lo, hi, rc[i]);
    }
    forall i | 0 <= i < |pc| ensures pc[i].kind == PATH && pc[i].proto == None {
      PathCandidatesExact(paths, lo, hi, pc[i]);
    }
    assert forall i :: |rc| <= i < |rc + pc| ==> (rc + pc)[i] == pc[i - |rc|];
  }

  /** The candidate-building loops of `main`. */
  method CollectCandidates(rings: Counter, protos: map<string, Graph>, paths: seq<Counter>, lo: int, hi: int)
    returns (all: seq<Candidate>)
    requires ProtosFor(rings, protos)
    ensures all == AllCandidates(rings, protos, paths, lo, hi)
    ensures forall x :: x in all ==> lo <= x.count <= hi
  {
    all := [];
    for i := 0 to |rings|
      invariant all == RingCandidates(rings[..i], protos, lo, hi)
    {
      assert rings[..i + 1][..i] == rings[..i];
      var e := rings[i];
      if lo <= e.count <= hi {
        all := all + [Candidate(e.count, RING, e.key, Some(protos[e.key]))];
      }
    }
    assert rings[..|rings|] == rings;
    for length := 0 to |paths|
      invariant all == RingCandidates(rings, protos, lo, hi) + PathCandidates(paths[..length], lo, hi)
    {
      assert paths[..length + 1][..length] == paths[..length];
      var c := paths[length];
      var more := [];
      for i := 0 to |c|
        invariant more == PathCandidatesOf(c[..i], lo, hi)
      {
        assert c[..i + 1][..i] == c[..i];
        var e := c[i];
        if lo <= e.count <= hi {
          more := more + [Candidate(e.count, PATH, e.key, None)];
        }
      }
      assert c[..|c|] == c;
      all := all + more;
    }
    assert paths[..|paths|] == paths;
    AllInRange(rings, protos, paths, lo, hi);
  }

  /** Every candidate has a support inside the `[min_sup, max_sup]` band. */
  lemma AllInRange(rings: Counter, protos: map<string, Graph>, paths: seq<Counter>, lo: int, hi: int)
    requires ProtosFor(rings, protos)
    ensures forall x :: x in AllCandidates(rings, protos, paths, lo, hi) ==> lo <= x.count <= hi
  {
    forall x | x in AllCandidates(rings, protos, paths, lo, hi) ensures lo <= x.count <= hi {
      RingCandidatesExact(rings, protos, lo, hi, x);
      PathCandidatesExact(paths, lo, hi, x);
    }
  }

  // ---------------------------------------------------------------------------
  // `all_candidates.sort(key=lambda x: x[0], reverse=True)`: a stable sort
  // ---------------------------------------------------------------------------

  /** Places `x` before the first element whose count does not exceed its own. */
  function Insert(x: Candidate, s: seq<Candidate>): (r: seq<Candidate>)
    ensures |r| == |s| + 1
  {
    if |s| == 0 || s[0].count <= x.count then [x] + s else [s[0]] + Insert(x, s[1..])
  }

  function SortDesc(s: seq<Candidate>): (r: seq<Candidate>)
    ensures |r| == |s|
  {
    if |s| == 0 then [] else Insert(s[0], SortDesc(s[1..]))
  }

  predicate NonIncreasing(s: seq<Candidate>) {
    forall i, j :: 0 <= i < j < |s| ==> s[i].count >= s[j].count
  }

  /** The candidates with support `n`, in order. */
  function WithCount(s: seq<Candidate>, n: nat): seq<Candidate> {
    if |s| == 0 then [] else (if s[0].count == n then [s[0]] else []) + WithCount(s[1..], n)
  }

  lemma {:induction false} InsertMultiset(x: Candidate, s: seq<Candidate>)
    ensures multiset(Insert(x, s)) == multiset(s) + multiset{x}
  {
    if |s| > 0 && s[0].count > x.count {
      InsertMultiset(x, s[1..]);
      assert s == [s[0]] + s[1..];
    }
  }

  lemma {:induction false} InsertSorted(x: Candidate, s: seq<Candidate>)
    requires NonIncreasing(s)
    ensures NonIncreasing(Insert(x, s))
  {
    if |s| > 0 && s[0].count > x.count {
      var t := s[1..];
      InsertSorted(x, t);
      InsertMultiset(x, t);
      var r := Insert(x, s);
      assert r == [s[0]] + Insert(x, t);
      forall j | 0 < j < |r| ensures r[0].count >= r[j].count {
        var y := r[j];
        assert y == Insert(x, t)[j - 1];
        assert y in multiset(Insert(x, t));
        if y != x {
          assert y in multiset(t);
          var m :| 0 <= m < |t| && t[m] == y;
          assert s[m + 1] == y;
        }
      }
    }
  }

  lemma {:induction false} InsertWithCount(x: Candidate, s: seq<Candidate>, n: nat)
    ensures WithCount(Insert(x, s), n) == (if x.count == n then [x] else []) + WithCount(s, n)
  {
    var xs := if x.count == n then [x] else [];
    if |s| == 0 || s[0].count <= x.count {
      assert ([x] + s)[1..] == s;
    } else {
      var t := s[1..];
      var hs := if s[0].count == n then [s[0]] else [];
      // `s[0]` and `x` have different supports, so at most one of them is kept
      assert hs + xs == xs + hs;
      calc {
        WithCount(Insert(x, s), n);
        { assert ([s[0]] + Insert(x, t))[1..] == Insert(x, t); }
        hs + WithCount(Insert(x, t), n);
        { InsertWithCount(x, t, n); }
        hs + (xs + WithCount(t, n));
        xs + (hs + WithCount(t, n));
        xs + WithCount(s, n);
      }
    }
  }

  /** The sort orders by non-increasing support, keeps every candidate, and is
      stable: among equal supports the original order survives. */
  lemma {:induction false} SortDescFacts(s: seq<Candidate>)
    ensures NonIncreasing(SortDesc(s))
    ensures multiset(SortDesc(s)) == multiset(s)
    ensures forall n: nat :: WithCount(SortDesc(s), n) == WithCount(s, n)
  {
    if |s| > 0 {
      SortDescFacts(s[1..]);
      InsertSorted(s[0], SortDesc(s[1..]));
      InsertMultiset(s[0], SortDesc(s[1..]));
      assert s == [s[0]] + s[1..];
      forall n: nat ensures WithCount(SortDesc(s), n) == WithCount(s, n) {
        InsertWithCount(s[0], SortDesc(s[1..]), n);
      }
    }
  }

  lemma {:induction false} WithCountAppend(a: seq<Candidate>, b: seq<Candidate>, n: nat)
    ensures WithCount(a + b, n) == WithCount(a, n) + WithCount(b, n)
  {
    if |a| > 0 {
      assert (a + b)[1..] == a[1..] + b;
      WithCountAppend(a[1..], b, n);
    } else {
      assert a + b == b;
    }
  }

  /** Among candidates of equal support, the sorted list keeps rings (in
      counter order) before paths (by edge count, then counter order). */
  lemma SortedTies(rings: Counter, protos: map<string, Graph>, paths: seq<Counter>, lo: int, hi: int, n: nat)
    requires ProtosFor(rings, protos)
    ensures WithCount(SortDesc(AllCandidates(rings, protos, paths, lo, hi)), n)
      == WithCount(RingCandidates(rings, protos, lo, hi), n) + WithCount(PathCandidates(paths, lo, hi), n)
  {
    SortDescFacts(AllCandidates(rings, protos, paths, lo, hi));
    WithCountAppend(RingCandidates(rings, protos, lo, hi), PathCandidates(paths, lo, hi), n);
  }

  // ---------------------------------------------------------------------------
  // `top_k = all_candidates[:args.k]`
  // ---------------------------------------------------------------------------

  /** Python's `s[:k]`, where a negative `k` drops the last `-k` elements. */
  function TakePrefix(s: seq<Candidate>, k: int): (r: seq<Candidate>)
    ensures k >= 0 ==> |r| == (if k <= |s| then k else |s|)
    ensures k < 0 ==> |r| == (if |s| + k >= 0 then |s| + k else 0)
    ensures r <= s
  {
    if k >= 0 then (if k <= |s| then s[..k] else s)
    else if |s| + k >= 0 then s[..|s| + k] else []
  }

  /** The ranking step of `main`. */
  method SelectTopK(rings: Counter, protos: map<string, Graph>, paths: seq<Counter>, lo: int, hi: int, k: int)
    returns (top: seq<Candidate>)
    requires ProtosFor(rings, protos)
    ensures top == TakePrefix(SortDesc(AllCandidates(rings, protos, paths, lo, hi)), k)
  {
    var all := CollectCandidates(rings, protos, paths, lo, hi);
    var sorted := SortDesc(all);
    top := TakePrefix(sorted, k);
  }

  /** The selected features have in-range supports, come in non-increasing
      support order, number `min(k, #candidates)` for `k >= 0`, and no
      candidate left out has a higher support than one kept. */
  lemma TopKFacts(rings: Counter, protos: map<string, Graph>, paths: seq<Counter>, lo: int, hi: int, k: int)
    requires ProtosFor(rings, protos)
    ensures var all := AllCandidates(rings, protos, paths, lo, hi);
      var sorted := SortDesc(all);
      var top := TakePrefix(sorted, k);
      && NonIncreasing(top)
      && (forall x :: x in top ==> lo <= x.count <= hi && x in all)
      && (k >= 0 ==> |top| == (if k <= |all| then k else |all|))
      && (forall i, j :: 0 <= i < |top| <= j < |sorted| ==> sorted[j].count <= top[i].count)
  {
    var all := AllCandidates(rings, protos, paths, lo, hi);
    var sorted := SortDesc(all);
    var top := TakePrefix(sorted, k);
    SortDescFacts(all);
    AllInRange(rings, protos, paths, lo, hi);
    forall x | x in top ensures x in all {
      assert x in sorted;
      assert x in multiset(sorted);
    }
  }

  // ---------------------------------------------------------------------------
  // `f"# SIG: {ptype}::{sig} (Supp: {count})"`
  // ---------------------------------------------------------------------------

  function SigLine(c: Candidate): (line: string)
    ensures StartsWith(line, "# SIG: ")
  {
    "# SIG: " + c.kind + "::" + c.sig + " (Supp: " + NatToString(c.count) + ")"
  }
}
