/** q3/search.py: the filter step of subgraph search on feature bit vectors.
    A database graph stays a candidate for a query when it has every feature
    the query has, because a subgraph's features are features of the graph. */
module Search {
  import opened Text

  type BitVector = seq<bool>

  // ---------------------------------------------------------------------------
  // `load_vectors_to_numpy`
  // ---------------------------------------------------------------------------

  /** `[int(x) for x in tokens]` read as booleans (`dtype=bool`): a token is
      true exactly when its integer value is non-zero; `None` stands for the
      `ValueError` on a token that is not an integer. */
  function ParseBits(tokens: seq<string>): (r: Option<BitVector>)
    ensures r.Some? <==> forall i :: 0 <= i < |tokens| ==> ParseInt(tokens[i]).Some?
    ensures r.Some? ==> (|r.value| == |tokens|
      && forall i :: 0 <= i < |tokens| ==> r.value[i] == (ParseInt(tokens[i]).value != 0))
  {
    if |tokens| == 0 then Some([])
    else
      match (ParseBits(tokens[..|tokens| - 1]), ParseInt(tokens[|tokens| - 1]))
      case (Some(bits), Some(v)) => Some(bits + [v != 0])
      case _ => None
  }

  /** Every row has the same width, so `np.array` builds a matrix. */
  predicate Rectangular(rows: seq<BitVector>) {
    forall i, j :: 0 <= i < |rows| && 0 <= j < |rows| ==> |rows[i]| == |rows[j]|
  }

  predicate Blank(line: string) {
    Strip(line) == ""
  }

  /** The rows read from the non-blank lines, in order; `None` when a token
      is not an integer. */
  function ReadRows(lines: seq<string>): Option<seq<BitVector>> {
    if |lines| == 0 then Some([])
    else
      var before := ReadRows(lines[..|lines| - 1]);
      var line := lines[|lines| - 1];
      if Blank(line) then before
      else match (before, ParseBits(Words(Strip(line))))
        case (Some(rows), Some(bits)) => Some(rows + [bits])
        case _ => None
  }

  /** The rows as a boolean matrix; `None` also when the rows are ragged,
      which `np.array(data, dtype=bool)` rejects. */
  function LoadSpec(lines: seq<string>): Option<seq<BitVector>> {
    match ReadRows(lines)
    case Some(rows) => if Rectangular(rows) then Some(rows) else None
    case None => None
  }

  method LoadVectors(lines: seq<string>) returns (matrix: Option<seq<BitVector>>)
    ensures matrix == LoadSpec(lines)
  {
    var data: seq<BitVector> := [];
    for i := 0 to |lines|
      invariant ReadRows(lines[..i]) == Some(data)
    {
      assert lines[..i + 1][..i] == lines[..i];
      var line := Strip(lines[i]);
      if line != "" {
        var bits := ParseBits(Words(line));
        if bits.None? {
          ReadRowsFail(lines, i + 1);
          return None;
        }
        data := data + [bits.value];
      }
    }
    assert lines[..|lines|] == lines;
    if !Rectangular(data) {
      return None;
    }
    return Some(data);
  }

  lemma {:induction false} ReadRowsFail(lines: seq<string>, n: nat)
    requires n <= |lines| && ReadRows(lines[..n]) == None
    ensures ReadRows(lines) == None
    decreases |lines| - n
  {
    if n < |lines| {
      assert lines[..n + 1][..n] == lines[..n];
      ReadRowsFail(lines, n + 1);
    } else {
      assert lines[..n] == lines;
    }
  }

  /** The non-blank lines, in order. */
  function NonBlank(lines: seq<string>): (r: seq<string>)
    ensures forall j :: 0 <= j < |r| ==> !Blank(r[j])
  {
    if |lines| == 0 then []
    else NonBlank(lines[..|lines| - 1]) + (if Blank(lines[|lines| - 1]) then [] else [lines[|lines| - 1]])
  }

  /** Row j is the j-th non-blank line read as bits. */
  lemma {:induction false} ReadRowsOrder(lines: seq<string>)
    ensures ReadRows(lines).Some? <==>
      forall j :: 0 <= j < |NonBlank(lines)| ==> ParseBits(Words(Strip(NonBlank(lines)[j]))).Some?
    ensures ReadRows(lines).Some? ==>
      |ReadRows(lines).value| == |NonBlank(lines)|
      && forall j :: 0 <= j < |NonBlank(lines)| ==> Some(ReadRows(lines).value[j]) == ParseBits(Words(Strip(NonBlank(lines)[j])))
  {
    if |lines| > 0 {
      var init := lines[..|lines| - 1];
      var line := lines[|lines| - 1];
      ReadRowsOrder(init);
      var nb, nb0 := NonBlank(lines), NonBlank(init);
      if !Blank(line) {
        assert nb == nb0 + [line];
        forall j | 0 <= j < |nb0| ensures nb[j] == nb0[j] {
        }
        if ReadRows(lines).Some? {
          assert ReadRows(init).Some? && ParseBits(Words(Strip(line))).Some?;
        }
        if forall j :: 0 <= j < |nb| ==> ParseBits(Words(Strip(nb[j]))).Some? {
          assert ParseBits(Words(Strip(nb[|nb| - 1]))).Some?;
        }
      } else {
        assert nb == nb0;
      }
    }
  }

  // ---------------------------------------------------------------------------
  // `search_worker_numpy`
  // ---------------------------------------------------------------------------

  /** Row `d` has every feature of query `q`. */
  predicate Covers(d: BitVector, q: BitVector)
    requires |d| == |q|
  {
    forall i :: 0 <= i < |q| ==> q[i] ==> d[i]
  }

  /** `q_vec & (~row)` */
  function Mismatch(q: BitVector, d: BitVector): (m: BitVector)
    requires |d| == |q|
    ensures |m| == |q|
  {
    seq(|q|, i requires 0 <= i < |q| => q[i] && !d[i])
  }

  /** `any()` */
  function Any(bits: BitVector): bool {
    if |bits| == 0 then false else Any(bits[..|bits| - 1]) || bits[|bits| - 1]
  }

  lemma {:induction false} AnyExact(bits: BitVector)
    ensures Any(bits) <==> exists i :: 0 <= i < |bits| && bits[i]
  {
    if |bits| > 0 {
      var init := bits[..|bits| - 1];
      AnyExact(init);
      if exists i :: 0 <= i < |init| && init[i] {
        var i :| 0 <= i < |init| && init[i];
        assert bits[i];
      }
      if exists i :: 0 <= i < |bits| && bits[i] {
        var i :| 0 <= i < |bits| && bits[i];
        if i < |init| {
          assert init[i];
        }
      }
    }
  }

  /** The numpy test `~mismatch.any()` is exactly containment. */
  lemma MismatchFreeIsCovers(q: BitVector, d: BitVector)
    requires |d| == |q|
    ensures !Any(Mismatch(q, d)) <==> Covers(d, q)
  {
    AnyExact(Mismatch(q, d));
    if !Covers(d, q) {
      var i :| 0 <= i < |q| && q[i] && !d[i];
      assert Mismatch(q, d)[i];
    }
  }

  predicate Width(db: seq<BitVector>, k: nat) {
    forall j :: 0 <= j < |db| ==> |db[j]| == k
  }

  /** `valid_mask`: one entry per database row. */
  function ValidMask(q: BitVector, db: seq<BitVector>): (mask: seq<bool>)
    requires Width(db, |q|)
    ensures |mask| == |db|
  {
    seq(|db|, j requires 0 <= j < |db| => !Any(Mismatch(q, db[j])))
  }

  /** `np.where(mask)[0]` */
  function Where(mask: seq<bool>): seq<nat> {
    if |mask| == 0 then [] else Where(mask[..|mask| - 1]) + (if mask[|mask| - 1] then [|mask| - 1] else [])
  }

  predicate StrictlyAscending(s: seq<nat>) {
    forall i, j :: 0 <= i < j < |s| ==> s[i] < s[j]
  }

  /** `where` lists exactly the true positions, in increasing order. */
  lemma {:induction false} WhereExact(mask: seq<bool>)
    ensures StrictlyAscending(Where(mask))
    ensures forall i :: 0 <= i < |Where(mask)| ==> Where(mask)[i] < |mask|
    ensures forall j :: 0 <= j < |mask| ==> (j in Where(mask) <==> mask[j])
  {
    if |mask| > 0 {
      var n := |mask| - 1;
      var init := mask[..n];
      var w0, w := Where(init), Where(mask);
      WhereExact(init);
      if mask[n] {
        assert w == w0 + [n];
        forall a, b | 0 <= a < b < |w| ensures w[a] < w[b] {
          assert w[a] == w0[a];
        }
        forall j | 0 <= j < |mask| ensures j in w <==> mask[j] {
          if j < n {
            assert mask[j] == init[j];
            assert j in w <==> j in w0;
          }
        }
      } else {
        assert w == w0;
        forall j | 0 <= j < |mask| ensures j in w <==> mask[j] {
          if j < n {
            assert mask[j] == init[j];
          }
        }
      }
    }
  }

  /** The candidates of one query. */
  function Candidates(q: BitVector, db: seq<BitVector>): seq<nat>
    requires Width(db, |q|)
  {
    Where(ValidMask(q, db))
  }

  /** The candidates of a query are exactly the rows that cover it, in
      increasing order. */
  lemma CandidatesExact(q: BitVector, db: seq<BitVector>)
    requires Width(db, |q|)
    ensures StrictlyAscending(Candidates(q, db))
    ensures forall i :: 0 <= i < |Candidates(q, db)| ==> Candidates(q, db)[i] < |db|
    ensures forall j :: 0 <= j < |db| ==> (j in Candidates(q, db) <==> Covers(db[j], q))
  {
    WhereExact(ValidMask(q, db));
    forall j | 0 <= j < |db| ensures ValidMask(q, db)[j] <==> Covers(db[j], q) {
      MismatchFreeIsCovers(q, db[j]);
    }
  }

  /** A row always covers itself. */
  lemma CoversReflexive(q: BitVector)
    ensures Covers(q, q)
  {
  }

  /** A query without features keeps every row, in order. */
  lemma EmptyQueryKeepsAll(q: BitVector, db: seq<BitVector>)
    requires Width(db, |q|) && forall i :: 0 <= i < |q| ==> !q[i]
    ensures Candidates(q, db) == seq(|db|, j => j)
  {
    forall j | 0 <= j < |db| ensures ValidMask(q, db)[j] {
      MismatchFreeIsCovers(q, db[j]);
    }
    WhereAllTrue(ValidMask(q, db));
  }

  /** With every position true, `where` lists every index. */
  lemma {:induction false} WhereAllTrue(mask: seq<bool>)
    requires forall j :: 0 <= j < |mask| ==> mask[j]
    ensures Where(mask) == seq(|mask|, j => j)
  {
    if |mask| > 0 {
      WhereAllTrue(mask[..|mask| - 1]);
    }
  }

  /** A row with more features keeps every query it covered. */
  lemma CoversMonotone(d: BitVector, d': BitVector, q: BitVector)
    requires |d| == |q| && |d'| == |q| && Covers(d, q)
    requires forall i :: 0 <= i < |q| ==> d[i] ==> d'[i]
    ensures Covers(d', q)
  {
  }

  /** A query with more features keeps only rows a smaller query kept. */
  lemma CandidatesAntitone(q: BitVector, q': BitVector, db: seq<BitVector>)
    requires |q| == |q'| && Width(db, |q|)
    requires forall i :: 0 <= i < |q| ==> q[i] ==> q'[i]
    ensures forall j :: j in Candidates(q', db) ==> j in Candidates(q, db)
  {
    CandidatesExact(q, db);
    CandidatesExact(q', db);
  }

  // ---------------------------------------------------------------------------
  // `main`: one `q # i` / `c # ...` pair per query, in query order
  // ---------------------------------------------------------------------------

  function Numbers(s: seq<nat>): (r: seq<string>)
    ensures |r| == |s| && forall i :: 0 <= i < |s| ==> r[i] == NatToString(s[i])
  {
    if |s| == 0 then [] else Numbers(s[..|s| - 1]) + [NatToString(s[|s| - 1])]
  }

  /** `f"c # {' '.join(map(str, candidates))}"` */
  function CandidateLine(cands: seq<nat>): string {
    "c # " + Join(Numbers(cands), " ")
  }

  function QueryLine(i: nat): string {
    "q # " + NatToString(i)
  }

  /** The search and the writing loop of `main`; `pool.map` returns results
      in query order, so the sort by query index leaves them as they are. */
  method RunSearch(db: seq<BitVector>, queries: seq<BitVector>) returns (out: seq<string>)
    requires forall i :: 0 <= i < |queries| ==> Width(db, |queries[i]|)
    ensures |out| == 2 * |queries|
    ensures forall i :: 0 <= i < |queries| ==>
      out[2 * i] == QueryLine(i) && out[2 * i + 1] == CandidateLine(Candidates(queries[i], db))
  {
    out := [];
    for i := 0 to |queries|
      invariant |out| == 2 * i
      invariant forall k :: 0 <= k < i ==>
        out[2 * k] == QueryLine(k) && out[2 * k + 1] == CandidateLine(Candidates(queries[k], db))
    {
      var cands := Candidates(queries[i], db);
      out := out + [QueryLine(i), CandidateLine(cands)];
    }
  }

  /** A candidate line splits into `c`, `#` and the candidate indices. */
  lemma CandidateLineTokens(cands: seq<nat>)
    ensures Words(CandidateLine(cands)) == ["c", "#"] + Numbers(cands)
  {
    var ns := Numbers(cands);
    var j := Join(ns, " ");
    calc {
      Words(CandidateLine(cands));
      { assert CandidateLine(cands) == "c" + " " + ("#" + " " + j); }
      Words("c" + " " + ("#" + " " + j));
      { WordsAfterToken("c", "#" + " " + j); }
      ["c"] + Words("#" + " " + j);
      { WordsAfterToken("#", j); }
      ["c"] + (["#"] + Words(j));
      { NumbersAreTokens(cands); WordsOfJoin(ns); }
      ["c"] + (["#"] + ns);
      ["c", "#"] + ns;
    }
  }

  lemma NumbersAreTokens(cands: seq<nat>)
    ensures forall i :: 0 <= i < |cands| ==> IsToken(Numbers(cands)[i])
  {
    forall i | 0 <= i < |cands| ensures IsToken(Numbers(cands)[i]) {
      assert Numbers(cands)[i] == NatToString(cands[i]);
    }
  }
}
