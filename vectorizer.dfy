/** A1/q3/vectorizer.py: reads the `# SIG: K::S (Supp: n)` headers of a
    feature file into patterns, and turns every database graph into one line
    of space-separated bits, bit i telling whether the graph contains
    pattern i (a path signature of at most 8 edges, or a ring hash). */
module Vectorizer {
  import opened Text
  import opened Graphs
  import opened Signatures
  import opened Paths
  import opened Miner
  import opened Selection

  /** `(ptype, psig)` */
  datatype Pattern = Pattern(kind: string, sig: string)

  /** `GLOBAL_MAX_LEN` as the pool initialiser sets it. */
  const VectorMaxLen: nat := 8

  // ---------------------------------------------------------------------------
  // One graph: `process_graph_signatures`
  // ---------------------------------------------------------------------------

  /** Whether graph `g` holds the substructure a pattern names; a kind other
      than PATH or RING is never held. */
  ghost predicate Holds(p: Pattern, g: Graph, maxLen: nat, run: CycleRun, wl: Graph -> string)
    requires RunFits(g, run)
  {
    || (p.kind == PATH && exists len: nat :: HasPath(g, maxLen, len, p.sig))
    || (p.kind == RING && p.sig in RingHashes(g, run, wl))
  }

  ghost function ExpectedBits(g: Graph, patterns: seq<Pattern>, maxLen: nat, run: CycleRun, wl: Graph -> string): (bits: seq<string>)
    requires RunFits(g, run)
    ensures |bits| == |patterns|
  {
    seq(|patterns|, i requires 0 <= i < |patterns| => if Holds(patterns[i], g, maxLen, run, wl) then "1" else "0")
  }

  /** `local_path_sigs`: the signatures recorded by the path search, whatever
      their length; `None` where the search raises. */
  method LocalPathSigs(g: Graph, maxLen: nat) returns (sigs: Option<set<string>>)
    ensures sigs.None? <==> !AllLabelled(g)
    ensures sigs.Some? ==> forall sig :: sig in sigs.value <==> exists len: nat :: HasPath(g, maxLen, len, sig)
  {
    var found := PathSignatures(g, maxLen);
    if found.None? {
      return None;
    }
    var all := set x | x in found.value :: x.1;
    forall sig | sig in all ensures exists len: nat :: HasPath(g, maxLen, len, sig) {
      var x :| x in found.value && x.1 == sig;
      assert HasPath(g, maxLen, x.0, sig);
    }
    forall sig | exists len: nat :: HasPath(g, maxLen, len, sig) ensures sig in all {
      var len: nat :| HasPath(g, maxLen, len, sig);
      assert (len, sig) in found.value;
    }
    sigs := Some(all);
  }

  /** `local_ring_sigs`: ring hashes found before the cycle search stopped,
      kept even when it stopped by raising. */
  method LocalRingSigs(g: Graph, run: CycleRun, wl: Graph -> string) returns (sigs: set<string>)
    requires RunFits(g, run)
    ensures sigs == RingHashes(g, run, wl)
  {
    sigs := {};
    for j := 0 to |run.cycles|
      invariant sigs == RingHashesUpTo(g, run, wl, j)
    {
      var ring := run.cycles[j];
      if 3 <= |ring| <= 12 {
        var sub := BuildHollowRing(g, ring);
        sigs := sigs + {wl(sub)};
      }
    }
  }

  /** A pattern matches when its kind's set holds its signature. */
  predicate Matches(p: Pattern, pathSigs: set<string>, ringSigs: set<string>) {
    (p.kind == PATH && p.sig in pathSigs) || (p.kind == RING && p.sig in ringSigs)
  }

  /** The bit-vector loop: one `'0'`/`'1'` per pattern, in pattern order. */
  method BitVector(patterns: seq<Pattern>, pathSigs: set<string>, ringSigs: set<string>) returns (bits: seq<string>)
    ensures |bits| == |patterns|
    ensures forall i :: 0 <= i < |patterns| ==>
      bits[i] == (if Matches(patterns[i], pathSigs, ringSigs) then "1" else "0")
  {
    bits := [];
    for i := 0 to |patterns|
      invariant |bits| == i
      invariant forall j :: 0 <= j < i ==>
        bits[j] == (if Matches(patterns[j], pathSigs, ringSigs) then "1" else "0")
    {
      var p := patterns[i];
      if p.kind == PATH {
        bits := bits + [if p.sig in pathSigs then "1" else "0"];
      } else if p.kind == RING {
        bits := bits + [if p.sig in ringSigs then "1" else "0"];
      } else {
        bits := bits + ["0"];
      }
    }
  }

  /** `process_graph_signatures`: the graph's vector line; `None` where the
      path search raises, before the ring search and the bit vector. */
  method ProcessGraph(g: Graph, patterns: seq<Pattern>, maxLen: nat, run: CycleRun, wl: Graph -> string)
    returns (line: Option<string>)
    requires RunFits(g, run)
    ensures line.None? <==> !AllLabelled(g)
    ensures line.Some? ==> line.value == Join(ExpectedBits(g, patterns, maxLen, run, wl), " ")
  {
    var pathSigs := LocalPathSigs(g, maxLen);
    if pathSigs.None? {
      return None;
    }
    var ringSigs := LocalRingSigs(g, run, wl);
    var bits := BitVector(patterns, pathSigs.value, ringSigs);
    assert bits == ExpectedBits(g, patterns, maxLen, run, wl);
    line := Some(Join(bits, " "));
  }

  /** A vector line splits into exactly one `'0'`/`'1'` token per pattern,
      token i being `'1'` exactly when the graph holds pattern i. */
  lemma VectorTokens(g: Graph, patterns: seq<Pattern>, maxLen: nat, run: CycleRun, wl: Graph -> string)
    requires RunFits(g, run)
    ensures var tokens := Words(Join(ExpectedBits(g, patterns, maxLen, run, wl), " "));
      && |tokens| == |patterns|
      && (forall i :: 0 <= i < |patterns| ==> tokens[i] == "0" || tokens[i] == "1")
      && (forall i :: 0 <= i < |patterns| ==> (tokens[i] == "1" <==> Holds(patterns[i], g, maxLen, run, wl)))
  {
    var bits := ExpectedBits(g, patterns, maxLen, run, wl);
    forall i | 0 <= i < |bits| ensures IsToken(bits[i]) {
      assert bits[i] == "0" || bits[i] == "1";
    }
    WordsOfJoin(bits);
  }

  /** `main`'s pool loop: `imap` keeps task order, so line i is graph i's
      vector. The first graph whose worker raises stops the loop: the lines
      written before it stay in the file, and `ok` is false. */
  method VectorizeAll(db: seq<Graph>, patterns: seq<Pattern>, cycles: Graph -> CycleRun, wl: Graph -> string)
    returns (lines: seq<string>, ok: bool)
    requires AllFit(db, cycles)
    ensures ok <==> forall i :: 0 <= i < |db| ==> AllLabelled(db[i])
    ensures ok ==> |lines| == |db|
    ensures !ok ==> |lines| < |db| && !AllLabelled(db[|lines|])
    ensures forall i :: 0 <= i < |lines| ==>
      AllLabelled(db[i]) && lines[i] == Join(ExpectedBits(db[i], patterns, VectorMaxLen, cycles(db[i]), wl), " ")
  {
    lines := [];
    for i := 0 to |db|
      invariant |lines| == i
      invariant forall j :: 0 <= j < i ==>
        AllLabelled(db[j]) && lines[j] == Join(ExpectedBits(db[j], patterns, VectorMaxLen, cycles(db[j]), wl), " ")
    {
      var line := ProcessGraph(db[i], patterns, VectorMaxLen, cycles(db[i]), wl);
      if line.None? {
        return lines, false;
      }
      lines := lines + [line.value];
    }
    ok := true;
  }

  // ---------------------------------------------------------------------------
  // The pattern file: `# SIG:` headers
  // ---------------------------------------------------------------------------

  predicate IsSigLine(line: string) {
    StartsWith(line, "# SIG:")
  }

  /** One header: the third space-separated field of the stripped line, cut
      before ` (Supp:`, split at the first `::`. `None` stands for the
      `IndexError` raised when the third field or the `::` is missing. */
  function ParseSigLine(line: string): (r: Option<Pattern>)
    ensures r.Some? ==> |r.value.kind| + 2 + |r.value.sig| <= |line|
    ensures r.Some? ==> exists i :: OccursAt(Strip(line), r.value.kind + "::" + r.value.sig, i)
    ensures |SplitTwice(Strip(line), " ")| < 3 ==> r.None?
  {
    var stripped := Strip(line);
    var fields := SplitTwice(stripped, " ");
    if |fields| < 3 then None
    else
      var content := fields[2];
      var at := |fields[0]| + |fields[1]| + 2;
      ThirdPart(stripped, fields[0], fields[1], content, " ");
      var body := if Contains(content, " (Supp:") then SplitOnce(content, " (Supp:")[0] else content;
      var parts := SplitOnce(body, "::");
      if |parts| < 2 then None
      else
        assert StartsWith(content, body);
        PrefixOfSuffix(stripped, at, body);
        Some(Pattern(parts[0], parts[1]))
  }

  /** `sorted_sigs` after reading `lines`; `None` if some header raised. */
  function SigPatterns(lines: seq<string>): Option<seq<Pattern>> {
    if |lines| == 0 then Some([])
    else
      var before := SigPatterns(lines[..|lines| - 1]);
      var line := lines[|lines| - 1];
      if !IsSigLine(line) then before
      else match (before, ParseSigLine(line))
        case (Some(ps), Some(p)) => Some(ps + [p])
        case _ => None
  }

  /** The header-reading loop of `main`. */
  method ReadPatterns(lines: seq<string>) returns (patterns: Option<seq<Pattern>>)
    ensures patterns == SigPatterns(lines)
  {
    var sorted: seq<Pattern> := [];
    for i := 0 to |lines|
      invariant SigPatterns(lines[..i]) == Some(sorted)
    {
      assert lines[..i + 1][..i] == lines[..i];
      var line := lines[i];
      if IsSigLine(line) {
        var parsed := ParseSigLine(line);
        if parsed.None? {
          assert SigPatterns(lines[..i + 1]) == None;
          SigPatternsFail(lines, i + 1);
          return None;
        }
        sorted := sorted + [parsed.value];
      }
    }
    assert lines[..|lines|] == lines;
    return Some(sorted);
  }

  /** Once a header has raised, reading further lines cannot recover. */
  lemma {:induction false} SigPatternsFail(lines: seq<string>, n: nat)
    requires n <= |lines| && SigPatterns(lines[..n]) == None
    ensures SigPatterns(lines) == None
    decreases |lines| - n
  {
    if n < |lines| {
      assert lines[..n + 1][..n] == lines[..n];
      SigPatternsFail(lines, n + 1);
    } else {
      assert lines[..n] == lines;
    }
  }

  /** The header lines of a file, in file order. */
  function SigLinesOf(lines: seq<string>): (r: seq<string>)
    ensures forall j :: 0 <= j < |r| ==> IsSigLine(r[j])
  {
    if |lines| == 0 then []
    else SigLinesOf(lines[..|lines| - 1]) + (if IsSigLine(lines[|lines| - 1]) then [lines[|lines| - 1]] else [])
  }

  lemma AllParseSnoc(hs: seq<string>, line: string)
    ensures (forall j :: 0 <= j < |hs + [line]| ==> ParseSigLine((hs + [line])[j]).Some?)
      <==> (forall j :: 0 <= j < |hs| ==> ParseSigLine(hs[j]).Some?) && ParseSigLine(line).Some?
  {
    var both := hs + [line];
    if forall j :: 0 <= j < |both| ==> ParseSigLine(both[j]).Some? {
      forall j | 0 <= j < |hs| ensures ParseSigLine(hs[j]).Some? {
        assert both[j] == hs[j];
      }
      assert both[|hs|] == line;
    }
  }

  lemma PatternsSnoc(ps: seq<Pattern>, hs: seq<string>, p: Pattern, line: string)
    requires |ps| == |hs| && forall j :: 0 <= j < |hs| ==> Some(ps[j]) == ParseSigLine(hs[j])
    requires Some(p) == ParseSigLine(line)
    ensures forall j :: 0 <= j < |hs| + 1 ==> Some((ps + [p])[j]) == ParseSigLine((hs + [line])[j])
  {
  }

  /** Only header lines yield patterns, one each and in file order; reading
      succeeds exactly when every header parses. */
  lemma {:induction false} SigPatternsOrder(lines: seq<string>)
    ensures SigPatterns(lines).Some? <==> forall j :: 0 <= j < |SigLinesOf(lines)| ==> ParseSigLine(SigLinesOf(lines)[j]).Some?
    ensures SigPatterns(lines).Some? ==>
      |SigPatterns(lines).value| == |SigLinesOf(lines)|
      && forall j :: 0 <= j < |SigLinesOf(lines)| ==> Some(SigPatterns(lines).value[j]) == ParseSigLine(SigLinesOf(lines)[j])
  {
    if |lines| > 0 {
      var init := lines[..|lines| - 1];
      var line := lines[|lines| - 1];
      SigPatternsOrder(init);
      var hs, hs0 := SigLinesOf(lines), SigLinesOf(init);
      var ps, ps0, q := SigPatterns(lines), SigPatterns(init), ParseSigLine(line);
      if IsSigLine(line) {
        assert hs == hs0 + [line];
        AllParseSnoc(hs0, line);
        if ps0.Some? && q.Some? {
          assert ps == Some(ps0.value + [q.value]);
          PatternsSnoc(ps0.value, hs0, q.value, line);
        } else {
          assert ps == None;
        }
      } else {
        assert hs == hs0 && ps == ps0;
      }
    }
  }

  // ---------------------------------------------------------------------------
  // Round trip with the miner's header writer
  // ---------------------------------------------------------------------------

  /** A feature the header can carry without loss: a kind free of colons,
      and no ` (Supp:` inside `kind::sig` to be taken for the support. */
  predicate Writable(c: Candidate) {
    NoChar(c.kind, ':') && !Contains(c.kind + "::" + c.sig, " (Supp:")
  }

  /** `("# SIG: " + rest).split(" ", 2)` */
  lemma SplitHeader(rest: string)
    ensures SplitTwice("# SIG: " + rest, " ") == ["#", "SIG:", rest]
  {
    var line := "# SIG: " + rest;
    assert line[1..2] == " " && line[..1] == "#";
    assert !OccursAt(line, " ", 0) by {
      assert line[0..1] == "#";
    }
    FindFirst(line, " ", 1);
    var tail := line[2..];
    assert tail == "SIG: " + rest;
    assert tail[4..5] == " " && tail[..4] == "SIG:";
    forall j | 0 <= j < 4 ensures !OccursAt(tail, " ", j) {
      assert tail[j..j + 1][0] == tail[j];
    }
    FindFirst(tail, " ", 4);
    assert tail[5..] == rest;
  }

  /** The first ` (Supp:` of a header is the one the writer put there when
      the body holds none: an occurrence starting inside the body would have
      to match its space against a character of the body or of ` (Supp:`
      past its first. */
  lemma CutSupport(body: string, n: string)
    requires !Contains(body, " (Supp:")
    ensures Contains(body + " (Supp: " + n + ")", " (Supp:")
    ensures SplitOnce(body + " (Supp: " + n + ")", " (Supp:")[0] == body
  {
    var pat := " (Supp:";
    var rest := body + " (Supp: " + n + ")";
    forall j | 0 <= j < |body| ensures !OccursAt(rest, pat, j) {
      if j + 7 <= |body| {
        assert !OccursAt(body, pat, j);
        assert rest[j..j + 7] == body[j..j + 7];
      } else if j + 7 <= |rest| {
        assert rest[j..j + 7][|body| - j] == rest[|body|] == ' ';
      }
    }
    assert rest[|body|..|body| + 7] == pat;
    FindFirst(rest, pat, |body|);
  }

  /** `(kind + "::" + sig).split("::", 1)` when the kind has no colon. */
  lemma SplitKind(kind: string, sig: string)
    requires NoChar(kind, ':')
    ensures SplitOnce(kind + "::" + sig, "::") == [kind, sig]
  {
    var body := kind + "::" + sig;
    forall j | 0 <= j < |kind| ensures !OccursAt(body, "::", j) {
      assert body[j] == kind[j];
      if j + 2 <= |body| {
        assert body[j..j + 2][0] == body[j];
      }
    }
    assert body[|kind|..|kind| + 2] == "::";
    FindFirst(body, "::", |kind|);
    assert body[..|kind|] == kind && body[|kind| + 2..] == sig;
  }

  /** Parsing the miner's `# SIG:` header gives back the kind and signature. */
  lemma ParseSigLineOfSigLine(c: Candidate)
    requires Writable(c)
    ensures IsSigLine(SigLine(c))
    ensures ParseSigLine(SigLine(c)) == Some(Pattern(c.kind, c.sig))
  {
    var n := NatToString(c.count);
    var body := c.kind + "::" + c.sig;
    var rest := body + " (Supp: " + n + ")";
    var line := SigLine(c);
    assert line == "# SIG: " + rest;
    assert line[..6] == "# SIG:";
    StripUnpadded(line);
    SplitHeader(rest);
    CutSupport(body, n);
    SplitKind(c.kind, c.sig);
  }

  /** The `(ptype, psig)` pairs of the selected features. */
  function PatternsOf(top: seq<Candidate>): (ps: seq<Pattern>)
    ensures |ps| == |top| && forall i :: 0 <= i < |top| ==> ps[i] == Pattern(top[i].kind, top[i].sig)
  {
    if |top| == 0 then [] else PatternsOf(top[..|top| - 1]) + [Pattern(top[|top| - 1].kind, top[|top| - 1].sig)]
  }

  /** A feature file as the miner writes it: each selected feature's header
      followed by its graph block. */
  function FeatureFile(top: seq<Candidate>, blocks: seq<seq<string>>): seq<string>
    requires |blocks| == |top|
  {
    if |top| == 0 then []
    else FeatureFile(top[..|top| - 1], blocks[..|top| - 1]) + [SigLine(top[|top| - 1])] + blocks[|top| - 1]
  }

  lemma {:induction false} SigPatternsPlain(before: seq<string>, block: seq<string>)
    requires forall j :: 0 <= j < |block| ==> !IsSigLine(block[j])
    ensures SigPatterns(before + block) == SigPatterns(before)
    decreases |block|
  {
    if |block| == 0 {
      assert before + block == before;
    } else {
      var all := before + block;
      assert all[..|all| - 1] == before + block[..|block| - 1];
      SigPatternsPlain(before, block[..|block| - 1]);
    }
  }

  /** Reading back a feature file whose graph blocks hold no header lines
      yields the selected features' kinds and signatures, in order. */
  lemma {:induction false} FeatureFileRoundTrip(top: seq<Candidate>, blocks: seq<seq<string>>)
    requires |blocks| == |top|
    requires forall i :: 0 <= i < |top| ==> Writable(top[i])
    requires forall i, j :: 0 <= i < |blocks| && 0 <= j < |blocks[i]| ==> !IsSigLine(blocks[i][j])
    ensures SigPatterns(FeatureFile(top, blocks)) == Some(PatternsOf(top))
  {
    if |top| > 0 {
      var n := |top| - 1;
      FeatureFileRoundTrip(top[..n], blocks[..n]);
      var head := FeatureFile(top[..n], blocks[..n]) + [SigLine(top[n])];
      SigPatternsPlain(head, blocks[n]);
      ParseSigLineOfSigLine(top[n]);
      assert head[..|head| - 1] == FeatureFile(top[..n], blocks[..n]);
    }
  }
}
