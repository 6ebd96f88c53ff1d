/** q3/preprocess.py: split a graph file into groups of lines at `t #`
    headers, drop every group whose text was already seen, and renumber the
    headers of the groups that remain with consecutive ids. The md5 digest
    of a group stands for the group's concatenated text: two groups get the
    same digest exactly when their concatenations are equal. */
module Preprocess {
  import opened Text

  predicate IsHeader(line: string) {
    StartsWith(line, "t #")
  }

  /** The stripped non-blank lines, in order. */
  function Cleaned(lines: seq<string>): seq<string> {
    if |lines| == 0 then []
    else
      var line := Strip(lines[|lines| - 1]);
      Cleaned(lines[..|lines| - 1]) + (if line == "" then [] else [line])
  }

  /** The groups of the main loop: a `t #` line opens a new group and every
      other stripped non-blank line joins the current one (the first line of
      the file opens a group even when it is not a header). */
  function Groups(lines: seq<string>): (gs: seq<seq<string>>)
    ensures forall k :: 0 <= k < |gs| ==> |gs[k]| > 0
  {
    if |lines| == 0 then []
    else
      var gs := Groups(lines[..|lines| - 1]);
      var line := Strip(lines[|lines| - 1]);
      if line == "" then gs
      else if IsHeader(line) || |gs| == 0 then gs + [[line]]
      else gs[..|gs| - 1] + [gs[|gs| - 1] + [line]]
  }

  /** The groups after one more line of the file. */
  lemma GroupsSnoc(lines: seq<string>, i: nat)
    requires i < |lines|
    ensures var gs := Groups(lines[..i]);
      var line := Strip(lines[i]);
      Groups(lines[..i + 1])
        == if line == "" then gs
           else if IsHeader(line) || |gs| == 0 then gs + [[line]]
           else gs[..|gs| - 1] + [gs[|gs| - 1] + [line]]
  {
    assert lines[..i + 1][..i] == lines[..i];
  }

  /** What one more line does to the groups, in terms of the loop's
      finished groups `done` and its open group `current`. */
  lemma GroupsStep(lines: seq<string>, i: nat, done: seq<seq<string>>, current: seq<string>)
    requires i < |lines|
    requires Groups(lines[..i]) == if current == [] then done else done + [current]
    requires current == [] ==> done == []
    ensures var line := Strip(lines[i]);
      && (line == "" ==> Groups(lines[..i + 1]) == Groups(lines[..i]))
      && (line != "" && IsHeader(line) ==> Groups(lines[..i + 1]) == Groups(lines[..i]) + [[line]])
      && (line != "" && !IsHeader(line) ==> Groups(lines[..i + 1]) == done + [current + [line]])
  {
    GroupsSnoc(lines, i);
    var gs := Groups(lines[..i]);
    var line := Strip(lines[i]);
    if line != "" && !IsHeader(line) {
      if current != [] {
        assert gs[..|gs| - 1] == done && gs[|gs| - 1] == current;
      } else {
        assert Groups(lines[..i + 1]) == [[line]];
        assert current + [line] == [line];
      }
    }
  }

  function Flatten(gs: seq<seq<string>>): seq<string> {
    if |gs| == 0 then [] else Flatten(gs[..|gs| - 1]) + gs[|gs| - 1]
  }

  /** Only the first line of a group may be a header. */
  predicate HeaderOnlyFirst(g: seq<string>) {
    forall j :: 0 < j < |g| ==> !IsHeader(g[j])
  }

  lemma {:induction false} FlattenSnoc(gs: seq<seq<string>>, g: seq<string>, line: string)
    requires |gs| > 0 && g == gs[|gs| - 1]
    ensures Flatten(gs[..|gs| - 1] + [g + [line]]) == Flatten(gs) + [line]
  {
    assert (gs[..|gs| - 1] + [g + [line]])[..|gs| - 1] == gs[..|gs| - 1];
  }

  /** Together the groups are the cleaned lines, in order. */
  lemma {:induction false} GroupsFlatten(lines: seq<string>)
    ensures Flatten(Groups(lines)) == Cleaned(lines)
  {
    if |lines| > 0 {
      var init := lines[..|lines| - 1];
      GroupsFlatten(init);
      var gs := Groups(init);
      var line := Strip(lines[|lines| - 1]);
      if line != "" && !IsHeader(line) && |gs| > 0 {
        FlattenSnoc(gs, gs[|gs| - 1], line);
      } else if line != "" {
        assert (gs + [[line]])[..|gs|] == gs;
      }
    }
  }

  /** Each group after the first starts at a header, and no group holds a
      header anywhere but in its first line. */
  lemma {:induction false} GroupsHeaders(lines: seq<string>)
    ensures forall k :: 0 < k < |Groups(lines)| ==> IsHeader(Groups(lines)[k][0])
    ensures forall k :: 0 <= k < |Groups(lines)| ==> HeaderOnlyFirst(Groups(lines)[k])
  {
    if |lines| > 0 {
      var init := lines[..|lines| - 1];
      GroupsHeaders(init);
      var gs := Groups(init);
      var line := Strip(lines[|lines| - 1]);
      if line != "" && !IsHeader(line) && |gs| > 0 {
        var g := gs[|gs| - 1] + [line];
        assert HeaderOnlyFirst(g) by {
          forall j | 0 < j < |g| ensures !IsHeader(g[j]) {
            if j < |g| - 1 {
              assert g[j] == gs[|gs| - 1][j];
            }
          }
        }
        var r := gs[..|gs| - 1] + [g];
        assert forall k :: 0 <= k < |gs| - 1 ==> r[k] == gs[k];
      }
    }
  }

  // ---------------------------------------------------------------------------
  // Deduplication
  // ---------------------------------------------------------------------------

  /** What `get_graph_digest` tells apart. */
  function Key(g: seq<string>): string {
    Concat(g)
  }

  function KeySet(gs: seq<seq<string>>): set<string> {
    set k | 0 <= k < |gs| :: Key(gs[k])
  }

  lemma KeySetSnoc(gs: seq<seq<string>>, g: seq<string>)
    ensures KeySet(gs + [g]) == KeySet(gs) + {Key(g)}
  {
    var both := gs + [g];
    forall x | x in KeySet(both) ensures x in KeySet(gs) + {Key(g)} {
      var k :| 0 <= k < |both| && x == Key(both[k]);
      if k < |gs| {
        assert both[k] == gs[k];
      }
    }
    forall x | x in KeySet(gs) ensures x in KeySet(both) {
      var k :| 0 <= k < |gs| && x == Key(gs[k]);
      assert both[k] == gs[k];
    }
    assert Key(g) == Key(both[|gs|]);
  }

  /** The groups emitted: each group whose key no earlier group had. */
  function Kept(gs: seq<seq<string>>): (r: seq<seq<string>>)
    ensures |r| <= |gs|
    ensures forall i :: 0 <= i < |r| ==> r[i] in gs
    ensures NonEmptyGroups(gs) ==> NonEmptyGroups(r)
  {
    if |gs| == 0 then []
    else
      var init := gs[..|gs| - 1];
      Kept(init) + (if Key(gs[|gs| - 1]) in KeySet(init) then [] else [gs[|gs| - 1]])
  }

  /** Appending a group with a new key keeps the keys pairwise different. */
  lemma DistinctSnoc(ks: seq<seq<string>>, g: seq<string>)
    requires forall a, b :: 0 <= a < b < |ks| ==> Key(ks[a]) != Key(ks[b])
    requires Key(g) !in KeySet(ks)
    ensures forall a, b :: 0 <= a < b < |ks + [g]| ==> Key((ks + [g])[a]) != Key((ks + [g])[b])
  {
    var both := ks + [g];
    forall a, b | 0 <= a < b < |both| ensures Key(both[a]) != Key(both[b]) {
      assert both[a] == ks[a];
      if b == |ks| {
        assert Key(ks[a]) in KeySet(ks);
      } else {
        assert both[b] == ks[b];
      }
    }
  }

  /** Exactly one group is emitted per distinct key: the emitted keys are
      pairwise different and are all the keys, so the number of emitted
      groups is the number of distinct digests. */
  lemma {:induction false} KeptDistinct(gs: seq<seq<string>>)
    ensures KeySet(Kept(gs)) == KeySet(gs)
    ensures |Kept(gs)| == |KeySet(gs)|
    ensures forall a, b :: 0 <= a < b < |Kept(gs)| ==> Key(Kept(gs)[a]) != Key(Kept(gs)[b])
  {
    if |gs| > 0 {
      var init := gs[..|gs| - 1];
      var g := gs[|gs| - 1];
      var ki := Kept(init);
      KeptDistinct(init);
      LastSplit(gs);
      KeySetSnoc(init, g);
      if Key(g) !in KeySet(init) {
        assert Kept(gs) == ki + [g];
        KeySetSnoc(ki, g);
        DistinctSnoc(ki, g);
      } else {
        assert Kept(gs) == ki;
      }
    }
  }

  /** Group `i` is the first group with its key. */
  predicate FirstOfKey(gs: seq<seq<string>>, i: nat)
    requires i < |gs|
  {
    Key(gs[i]) !in KeySet(gs[..i])
  }

  /** The positions of the groups that are first with their key, ascending. */
  function FirstPositions(gs: seq<seq<string>>): seq<nat> {
    if |gs| == 0 then []
    else FirstPositions(gs[..|gs| - 1]) + (if FirstOfKey(gs, |gs| - 1) then [|gs| - 1] else [])
  }

  lemma {:induction false} FirstPositionsAscending(gs: seq<seq<string>>)
    ensures var p := FirstPositions(gs);
      && (forall k :: 0 <= k < |p| ==> p[k] < |gs|)
      && (forall a, b :: 0 <= a < b < |p| ==> p[a] < p[b])
  {
    if |gs| > 0 {
      var n := |gs|;
      var init := gs[..n - 1];
      FirstPositionsAscending(init);
      assert forall k :: 0 <= k < |FirstPositions(init)| ==> FirstPositions(init)[k] < |init|;
      var p0 := FirstPositions(init);
      var p := FirstPositions(gs);
      assert p == p0 + (if FirstOfKey(gs, n - 1) then [n - 1] else []);
      forall k | 0 <= k < |p| ensures p[k] < n && (k < |p0| ==> p[k] == p0[k] < n - 1) && (k >= |p0| ==> p[k] == n - 1) {
        if k < |p0| {
          assert p[k] == p0[k];
        }
      }
      assert |p| <= |p0| + 1;
      forall a, b | 0 <= a < b < |p| ensures p[a] < p[b] {
        assert p[a] == p0[a];
        if b < |p0| {
          assert p[b] == p0[b];
          assert FirstPositions(init)[a] < FirstPositions(init)[b];
        } else {
          assert p[b] == n - 1;
        }
      }
    }
  }

  /** A group is emitted exactly when no earlier group has its digest, and
      the emitted groups keep their input order. */
  lemma {:induction false} KeptInOrder(gs: seq<seq<string>>)
    ensures var p := FirstPositions(gs);
      && |Kept(gs)| == |p|
      && (forall k :: 0 <= k < |p| ==> p[k] < |gs| && Kept(gs)[k] == gs[p[k]])
      && (forall a, b :: 0 <= a < b < |p| ==> p[a] < p[b])
      && (forall i :: 0 <= i < |gs| ==> (i in p <==> FirstOfKey(gs, i)))
  {
    FirstPositionsAscending(gs);
    if |gs| > 0 {
      var n := |gs|;
      var init := gs[..n - 1];
      KeptInOrder(init);
      FirstOfKeyFront(gs);
      var p0, p := FirstPositions(init), FirstPositions(gs);
      var k0, ks := Kept(init), Kept(gs);
      var first := FirstOfKey(gs, n - 1);
      assert ks == k0 + (if first then [gs[n - 1]] else []);
      assert p == p0 + (if first then [n - 1] else []);
      forall k | 0 <= k < |p|
        ensures ks[k] == gs[p[k]]
      {
        if k < |p0| {
          assert Kept(init)[k] == init[FirstPositions(init)[k]];
          assert ks[k] == k0[k] && p[k] == p0[k] && init[p0[k]] == gs[p0[k]];
        }
      }
      forall i | 0 <= i < n - 1
        ensures i in p <==> FirstOfKey(gs, i)
      {
        assert i in FirstPositions(init) <==> FirstOfKey(init, i);
        assert i in p <==> i in p0;
      }
    }
  }

  /** Whether a group is the first with its key does not depend on later groups. */
  lemma FirstOfKeyFront(gs: seq<seq<string>>)
    requires |gs| > 0
    ensures forall i :: 0 <= i < |gs| - 1 ==> FirstOfKey(gs, i) == FirstOfKey(gs[..|gs| - 1], i)
  {
    var init := gs[..|gs| - 1];
    forall i | 0 <= i < |gs| - 1 ensures FirstOfKey(gs, i) == FirstOfKey(init, i) {
      assert gs[..i] == init[..i];
      assert gs[i] == init[i];
    }
  }

  // ---------------------------------------------------------------------------
  // Renumbering
  // ---------------------------------------------------------------------------

  function HeaderLine(id: nat): string {
    "t # " + NatToString(id)
  }

  /** An emitted group as written: a header line is replaced by the new id;
      a group without a header (lines before the first `t #`) is kept as it
      is, yet still takes an id. */
  function Renumbered(g: seq<string>, id: nat): seq<string>
    requires |g| > 0
  {
    if IsHeader(g[0]) then [HeaderLine(id)] + g[1..] else g
  }

  predicate NonEmptyGroups(gs: seq<seq<string>>) {
    forall k :: 0 <= k < |gs| ==> |gs[k]| > 0
  }

  /** `output_lines`: the emitted groups, the k-th one renumbered to k. */
  function Output(ks: seq<seq<string>>): seq<string>
    requires NonEmptyGroups(ks)
  {
    if |ks| == 0 then [] else Output(ks[..|ks| - 1]) + Renumbered(ks[|ks| - 1], |ks| - 1)
  }

  function Headers(lines: seq<string>): seq<string> {
    if |lines| == 0 then []
    else Headers(lines[..|lines| - 1]) + (if IsHeader(lines[|lines| - 1]) then [lines[|lines| - 1]] else [])
  }

  function Bodies(lines: seq<string>): seq<string> {
    if |lines| == 0 then []
    else Bodies(lines[..|lines| - 1]) + (if IsHeader(lines[|lines| - 1]) then [] else [lines[|lines| - 1]])
  }

  lemma {:induction false} HeadersAppend(a: seq<string>, b: seq<string>)
    ensures Headers(a + b) == Headers(a) + Headers(b)
    ensures Bodies(a + b) == Bodies(a) + Bodies(b)
    decreases |b|
  {
    if |b| > 0 {
      assert (a + b)[..|a + b| - 1] == a + b[..|b| - 1];
      HeadersAppend(a, b[..|b| - 1]);
    } else {
      assert a + b == a;
    }
  }

  lemma {:induction false} HeadersOfGroup(g: seq<string>)
    requires |g| > 0 && IsHeader(g[0]) && HeaderOnlyFirst(g)
    ensures Headers(g) == [g[0]] && Bodies(g) == Bodies(g[1..])
    decreases |g|
  {
    if |g| == 1 {
      assert g[1..] == [];
      assert g == [] + [g[0]];
      assert Headers(g) == Headers([]) + [g[0]];
    } else {
      var init := g[..|g| - 1];
      HeadersOfGroup(init);
      assert init[1..] == g[1..][..|g| - 2];
    }
  }

  lemma NatToStringHeader(id: nat)
    ensures IsHeader(HeaderLine(id))
  {
    assert HeaderLine(id)[..3] == "t #";
  }

  /** When every emitted group starts with a header, the headers written are
      `t # 0`, `t # 1`, ... in output order, and every other line is written
      unchanged and in order. */
  lemma {:induction false} OutputRenumbers(ks: seq<seq<string>>)
    requires NonEmptyGroups(ks)
    requires forall k :: 0 <= k < |ks| ==> IsHeader(ks[k][0]) && HeaderOnlyFirst(ks[k])
    ensures Headers(Output(ks)) == seq(|ks|, k requires 0 <= k => HeaderLine(k))
    ensures Bodies(Output(ks)) == Bodies(Flatten(ks))
  {
    if |ks| > 0 {
      var init := ks[..|ks| - 1];
      var g := ks[|ks| - 1];
      var n := |ks| - 1;
      GroupsFront(ks);
      OutputRenumbers(init);
      var r := Renumbered(g, n);
      RenumberedGroup(g, n);
      calc {
        Headers(Output(ks));
        Headers(Output(init) + r);
        { HeadersAppend(Output(init), r); }
        Headers(Output(init)) + Headers(r);
        seq(n, k requires 0 <= k => HeaderLine(k)) + [HeaderLine(n)];
        { HeaderLinesSnoc(n); }
        seq(n + 1, k requires 0 <= k => HeaderLine(k));
      }
      calc {
        Bodies(Output(ks));
        { HeadersAppend(Output(init), r); }
        Bodies(Output(init)) + Bodies(r);
        Bodies(Flatten(init)) + Bodies(g);
        { HeadersAppend(Flatten(init), g); }
        Bodies(Flatten(ks));
      }
    }
  }

  /** The front of a list of well-headed groups is well headed. */
  lemma GroupsFront(ks: seq<seq<string>>)
    requires |ks| > 0 && NonEmptyGroups(ks)
    requires forall k :: 0 <= k < |ks| ==> IsHeader(ks[k][0]) && HeaderOnlyFirst(ks[k])
    ensures var init := ks[..|ks| - 1];
      && NonEmptyGroups(init)
      && forall k :: 0 <= k < |init| ==> IsHeader(init[k][0]) && HeaderOnlyFirst(init[k])
  {
    var init := ks[..|ks| - 1];
    forall k | 0 <= k < |init| ensures |init[k]| > 0 && IsHeader(init[k][0]) && HeaderOnlyFirst(init[k]) {
      assert init[k] == ks[k];
    }
  }

  /** A renumbered group keeps its single header in front, now `t # id`, and its body. */
  lemma RenumberedGroup(g: seq<string>, id: nat)
    requires |g| > 0 && IsHeader(g[0]) && HeaderOnlyFirst(g)
    ensures Headers(Renumbered(g, id)) == [HeaderLine(id)]
    ensures Bodies(Renumbered(g, id)) == Bodies(g)
  {
    var r := Renumbered(g, id);
    NatToStringHeader(id);
    HeadersOfGroup(g);
    assert r[1..] == g[1..];
    assert HeaderOnlyFirst(r) by {
      forall j | 0 < j < |r| ensures !IsHeader(r[j]) {
        assert r[j] == g[j];
      }
    }
    HeadersOfGroup(r);
  }

  lemma HeaderLinesSnoc(n: nat)
    ensures seq(n + 1, k requires 0 <= k => HeaderLine(k)) == seq(n, k requires 0 <= k => HeaderLine(k)) + [HeaderLine(n)]
  {
  }

  lemma {:induction false} KeptFrom(gs: seq<seq<string>>)
    ensures forall a :: 0 <= a < |Kept(gs)| ==> Kept(gs)[a] in gs
  {
    if |gs| > 0 {
      var init := gs[..|gs| - 1];
      KeptFrom(init);
      forall a | 0 <= a < |Kept(gs)| ensures Kept(gs)[a] in gs {
        if a < |Kept(init)| {
          assert Kept(gs)[a] == Kept(init)[a];
          assert Kept(init)[a] in init;
        }
      }
    }
  }

  lemma {:induction false} FlattenFirst(gs: seq<seq<string>>)
    requires |gs| > 0 && |gs[0]| > 0
    ensures |Flatten(gs)| > 0 && Flatten(gs)[0] == gs[0][0]
  {
    if |gs| > 1 {
      FlattenFirst(gs[..|gs| - 1]);
    } else {
      assert Flatten(gs) == Flatten([]) + gs[0];
    }
  }

  /** For a file whose first non-blank line is a `t #` header, the written
      headers are `t # 0`, `t # 1`, ... up to the number of distinct graphs,
      and the other lines of the emitted graphs are written unchanged. */
  lemma DeduplicateRenumbers(lines: seq<string>)
    requires |Cleaned(lines)| > 0 && IsHeader(Cleaned(lines)[0])
    ensures NonEmptyGroups(Kept(Groups(lines)))
    ensures Headers(Output(Kept(Groups(lines))))
      == seq(|KeySet(Groups(lines))|, k requires 0 <= k => HeaderLine(k))
    ensures Bodies(Output(Kept(Groups(lines)))) == Bodies(Flatten(Kept(Groups(lines))))
  {
    var gs := Groups(lines);
    GroupsFlatten(lines);
    GroupsHeaders(lines);
    KeptFrom(gs);
    KeptDistinct(gs);
    assert |gs| > 0;
    FlattenFirst(gs);
    var ks := Kept(gs);
    forall a | 0 <= a < |ks| ensures IsHeader(ks[a][0]) && HeaderOnlyFirst(ks[a]) {
      var k :| 0 <= k < |gs| && gs[k] == ks[a];
    }
    OutputRenumbers(ks);
  }

  // ---------------------------------------------------------------------------
  // `main`
  // ---------------------------------------------------------------------------

  /** What one more group does to the emitted groups and the output. */
  lemma KeptStep(done: seq<seq<string>>, current: seq<string>)
    requires |current| > 0 && NonEmptyGroups(done)
    ensures NonEmptyGroups(done + [current]) && NonEmptyGroups(Kept(done))
    ensures KeySet(done + [current]) == KeySet(done) + {Key(current)}
    ensures |Kept(done + [current])| == |Kept(done)| + (if Key(current) in KeySet(done) then 0 else 1)
    ensures Output(Kept(done + [current]))
      == Output(Kept(done)) + (if Key(current) in KeySet(done) then [] else Renumbered(current, |Kept(done)|))
  {
    KeySetSnoc(done, current);
    var all := done + [current];
    assert all[..|done|] == done;
    assert NonEmptyGroups(all) by {
      forall k | 0 <= k < |all| ensures |all[k]| > 0 {
        if k < |done| {
          assert all[k] == done[k];
        }
      }
    }
    if Key(current) !in KeySet(done) {
      var ks := Kept(all);
      assert ks == Kept(done) + [current];
      assert ks[..|ks| - 1] == Kept(done);
    } else {
      assert Kept(all) == Kept(done);
      assert Output(Kept(done)) + [] == Output(Kept(done));
    }
  }

  /** Overwrites the header line of a group with the new id, in place. */
  method RenumberHeader(g: seq<string>, id: nat) returns (lines: seq<string>)
    requires |g| > 0
    ensures lines == Renumbered(g, id)
  {
    lines := g;
    if IsHeader(lines[0]) {
      lines := lines[0 := HeaderLine(id)];
      assert lines == [HeaderLine(id)] + g[1..];
    }
  }

  /** Step 1 / step 3 of the loop: emit `current` unless its digest was seen. */
  method Flush(current: seq<string>, seen: set<string>, out: seq<string>, newId: nat, ghost done: seq<seq<string>>)
    returns (seen': set<string>, out': seq<string>, newId': nat)
    requires |current| > 0 && NonEmptyGroups(done)
    requires seen == KeySet(done) && out == Output(Kept(done)) && newId == |Kept(done)|
    ensures seen' == KeySet(done + [current])
    ensures out' == Output(Kept(done + [current])) && newId' == |Kept(done + [current])|
  {
    KeptStep(done, current);
    seen', out', newId' := seen, out, newId;
    var key := Key(current);
    if key !in seen {
      seen' := seen + {key};
      var lines := RenumberHeader(current, newId);
      out' := out + lines;
      newId' := newId + 1;
    }
  }

  /** The main loop over the file's lines: returns `output_lines` and the
      final `new_graph_id`, which equals the number of distinct digests. */
  method Deduplicate(lines: seq<string>) returns (out: seq<string>, newId: nat)
    ensures NonEmptyGroups(Kept(Groups(lines)))
    ensures out == Output(Kept(Groups(lines)))
    ensures newId == |Kept(Groups(lines))| == |KeySet(Groups(lines))|
  {
    var seen: set<string> := {};
    out, newId := [], 0;
    var current: seq<string> := [];
    ghost var done: seq<seq<string>> := [];
    for i := 0 to |lines|
      invariant Groups(lines[..i]) == if current == [] then done else done + [current]
      invariant current == [] ==> done == []
      invariant NonEmptyGroups(done)
      invariant seen == KeySet(done) && out == Output(Kept(done)) && newId == |Kept(done)|
    {
      GroupsStep(lines, i, done, current);
      var line := Strip(lines[i]);
      if line != "" {
        if IsHeader(line) {
          if current != [] {
            seen, out, newId := Flush(current, seen, out, newId, done);
            done := done + [current];
          }
          current := [line];
        } else {
          current := current + [line];
        }
      }
    }
    assert lines[..|lines|] == lines;
    if current != [] {
      seen, out, newId := Flush(current, seen, out, newId, done);
      done := done + [current];
    }
    KeptDistinct(done);
  }
}
