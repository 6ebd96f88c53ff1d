/** A1/q3/generate_candidates.py: the filter step on feature count vectors.
    A database graph stays a candidate for a query when each of its feature
    counts is at least the query's. */
module CandidateGen {
  import opened Text
  import Search

  type CountVector = seq<int>

  /** `np.all(vec_q <= row)` */
  predicate Dominates(d: CountVector, q: CountVector)
    requires |d| == |q|
  {
    forall i :: 0 <= i < |q| ==> q[i] <= d[i]
  }

  predicate Width(db: seq<CountVector>, k: nat) {
    forall j :: 0 <= j < |db| ==> |db[j]| == k
  }

  /** `mask = np.all(vec_q <= m_db, axis=1)` */
  function DominanceMask(q: CountVector, db: seq<CountVector>): (mask: seq<bool>)
    requires Width(db, |q|)
    ensures |mask| == |db|
    ensures forall j :: 0 <= j < |db| ==> (mask[j] <==> Dominates(db[j], q))
  {
    seq(|db|, j requires 0 <= j < |db| => Dominates(db[j], q))
  }

  /** `np.where(mask)[0]` */
  function Candidates(q: CountVector, db: seq<CountVector>): seq<nat>
    requires Width(db, |q|)
  {
    Search.Where(DominanceMask(q, db))
  }

  /** The candidates are exactly the dominating rows, in increasing order. */
  lemma CandidatesExact(q: CountVector, db: seq<CountVector>)
    requires Width(db, |q|)
    ensures Search.StrictlyAscending(Candidates(q, db))
    ensures forall i :: 0 <= i < |Candidates(q, db)| ==> Candidates(q, db)[i] < |db|
    ensures forall j :: 0 <= j < |db| ==> (j in Candidates(q, db) <==> Dominates(db[j], q))
  {
    Search.WhereExact(DominanceMask(q, db));
  }

  /** A row equal to the query is a candidate. */
  lemma DominatesReflexive(q: CountVector)
    ensures Dominates(q, q)
  {
  }

  /** A zero query keeps every row whose counts are not negative, which
      every count vector is. */
  lemma ZeroQueryKeepsAll(q: CountVector, db: seq<CountVector>)
    requires Width(db, |q|) && forall i :: 0 <= i < |q| ==> q[i] == 0
    requires forall j, i :: 0 <= j < |db| && 0 <= i < |q| ==> db[j][i] >= 0
    ensures Candidates(q, db) == seq(|db|, j => j)
  {
    Search.WhereAllTrue(DominanceMask(q, db));
  }

  /** A larger query keeps only rows a smaller one kept. */
  lemma CandidatesAntitone(q: CountVector, q': CountVector, db: seq<CountVector>)
    requires |q| == |q'| && Width(db, |q|)
    requires forall i :: 0 <= i < |q| ==> q[i] <= q'[i]
    ensures forall j :: j in Candidates(q', db) ==> j in Candidates(q, db)
  {
    CandidatesExact(q, db);
    CandidatesExact(q', db);
  }

  /** A row with larger counts keeps every query the smaller row covered. */
  lemma DominatesMonotone(d: CountVector, d': CountVector, q: CountVector)
    requires |d| == |q| && |d'| == |q| && Dominates(d, q)
    requires forall i :: 0 <= i < |q| ==> d[i] <= d'[i]
    ensures Dominates(d', q)
  {
  }

  predicate ZeroOne(v: CountVector) {
    forall i :: 0 <= i < |v| ==> v[i] == 0 || v[i] == 1
  }

  /** A 0/1 vector as the booleans q3/search.py reads from it. */
  function Bits(v: CountVector): (b: Search.BitVector)
    ensures |b| == |v| && forall i :: 0 <= i < |v| ==> (b[i] <==> v[i] != 0)
  {
    seq(|v|, i requires 0 <= i < |v| => v[i] != 0)
  }

  /** On 0/1 vectors the count filter and the bit filter keep the same rows. */
  lemma DominanceIsContainment(q: CountVector, db: seq<CountVector>)
    requires Width(db, |q|) && ZeroOne(q) && forall j :: 0 <= j < |db| ==> ZeroOne(db[j])
    ensures Search.Width(seq(|db|, j requires 0 <= j < |db| => Bits(db[j])), |q|)
    ensures Candidates(q, db) == Search.Candidates(Bits(q), seq(|db|, j requires 0 <= j < |db| => Bits(db[j])))
  {
    var bdb := seq(|db|, j requires 0 <= j < |db| => Bits(db[j]));
    var bq := Bits(q);
    forall j | 0 <= j < |db| ensures DominanceMask(q, db)[j] == Search.ValidMask(bq, bdb)[j] {
      Search.MismatchFreeIsCovers(bq, bdb[j]);
      if Search.Covers(bdb[j], bq) {
        forall i | 0 <= i < |q| ensures q[i] <= db[j][i] {
          assert bq[i] ==> bdb[j][i];
        }
      } else {
        var i :| 0 <= i < |q| && bq[i] && !bdb[j][i];
        assert q[i] == 1 && db[j][i] == 0;
      }
    }
    assert DominanceMask(q, db) == Search.ValidMask(bq, bdb);
  }

  /** The per-query loop of `main`: one `q # i` / `c # ...` pair per query in
      query order, and `all_candidate_counts`. */
  method GenerateCandidates(db: seq<CountVector>, queries: seq<CountVector>)
    returns (out: seq<string>, counts: seq<nat>)
    requires forall i :: 0 <= i < |queries| ==> Width(db, |queries[i]|)
    ensures |out| == 2 * |queries| && |counts| == |queries|
    ensures forall i :: 0 <= i < |queries| ==>
      out[2 * i] == Search.QueryLine(i) && out[2 * i + 1] == Search.CandidateLine(Candidates(queries[i], db))
    ensures forall i :: 0 <= i < |queries| ==> counts[i] == |Candidates(queries[i], db)|
  {
    out, counts := [], [];
    for i := 0 to |queries|
      invariant |out| == 2 * i && |counts| == i
      invariant forall k :: 0 <= k < i ==>
        out[2 * k] == Search.QueryLine(k) && out[2 * k + 1] == Search.CandidateLine(Candidates(queries[k], db))
      invariant forall k :: 0 <= k < i ==> counts[k] == |Candidates(queries[k], db)|
    {
      var cands := Candidates(queries[i], db);
      ghost var prev := out;
      out := out + [Search.QueryLine(i), Search.CandidateLine(cands)];
      counts := counts + [|cands|];
      forall k | 0 <= k < i + 1
        ensures out[2 * k] == Search.QueryLine(k)
        ensures out[2 * k + 1] == Search.CandidateLine(Candidates(queries[k], db))
      {
        if k < i {
          assert out[2 * k] == prev[2 * k] && out[2 * k + 1] == prev[2 * k + 1];
        }
      }
    }
  }

  /** A candidate count never exceeds the number of database rows. */
  lemma CountBound(q: CountVector, db: seq<CountVector>)
    requires Width(db, |q|)
    ensures |Candidates(q, db)| <= |db|
  {
    WhereLength(DominanceMask(q, db));
  }

  lemma {:induction false} WhereLength(mask: seq<bool>)
    ensures |Search.Where(mask)| <= |mask|
  {
    if |mask| > 0 {
      WhereLength(mask[..|mask| - 1]);
    }
  }
}
