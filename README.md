# Graph filter-and-refine pipeline, modelled in Dafny

This project models the deterministic core of a graph search pipeline in
Dafny, and proves properties of that model. The pipeline has these stages:

- **Mining** (`hw1/q3/miner.py`):
  - enumerates simple paths of at most `max_length` edges in every database
    graph and writes each as a canonical string signature;
  - hashes the "hollow rings" of the graph's cycles;
  - counts, per chunk of graphs, how many graphs contain each substructure;
  - merges the chunk counters and keeps the substructures whose support lies
    in `[min_count, max_count]`;
  - ranks them by support and writes the top k as features.
- **Vectorising** (`A1/q3/vectorizer.py`) reads those features back and
  turns every graph into one line of `0`/`1` bits, one per feature.
- **Filtering** keeps, per query, the database rows that could contain it:
  - `q3/search.py` uses bit containment;
  - `A1/q3/generate_candidates.py` uses count dominance.
- **Dataset utilities:**
  - `A1/q3/utils.py`: a dataset parser that removes duplicate edges, an
    order-insensitive graph key (`Dataset.GraphHash`), and a gSpan writer/reader pair with label
    maps;
  - `q3/preprocess.py`: a line-group deduplicator that renumbers graph
    headers.

Graphs are values: a map from node id to label, and a map from unordered
node pair to an optional edge label (`Graphs.Graph`). Two networkx routines
are parameters of the model:

- the cycle finder, as a function from a graph to the cycles it yields plus
  whether it then raised (`Miner.CycleRun`);
- the Weisfeiler-Lehman hash, as a function from a graph to a string.

An edge may name a node that no `v` line labels. networkx still adds that
node, and reading its label raises `KeyError`. Mining and vectorising do not
catch it, so the model returns a failure there (`Graphs.AllLabelled` says
when it happens): `mine_chunk` and the whole mining run produce nothing, and
the vectoriser stops after the lines already written.

Files and parsers are sequences of lines. Python's `str.split()`, `strip()`
(with the full set of characters `str.isspace()` accepts as whitespace),
`int()`, `str()` and string ordering are modelled in `Text`. The
multiprocessing pools are sequential loops; where completion order can
differ, it is a permutation parameter.

Modules:
- `Text`: strings, lexicographic order, join, split, integers.
- `Graphs`: graphs.
- `Signatures`: path signatures, hollow rings, chains rebuilt from signatures.
- `Paths`: the explicit-stack DFS.
- `Counters`: `collections.Counter`.
- `Miner`: `mine_chunk`, chunking and merging.
- `Selection`: thresholds, ranking and the `# SIG:` header.
- `Vectorizer`, `Search`, `CandidateGen`, `Dataset` and `Preprocess`: one
  module per remaining source file.

Imperative source code becomes methods with loop invariants. Each method is
proved against a specification function, and the properties are lemmas
about those functions.

## Model

| member | source | states |
|---|---|---|
| Signatures.TraversalPieces | hw1/q3/miner.py:35-42 | one traversal appends, for every node, its label followed by `-edge-` unless it is the last node |
| Signatures.CanonicalPath | hw1/q3/miner.py:34-52 | the signature is the forward or the backward traversal string and is lexicographically no greater than either |
| Signatures.SignatureOfReverse | hw1/q3/miner.py:43-52 | a path and its reversal get the same signature |
| Signatures.SingleNodeSignature | hw1/q3/miner.py:36-41 | a single-node path is signed by its label alone |
| Signatures.UnlabelledEdgeSignature | hw1/q3/miner.py:40 | an edge without a label attribute is written `-0-` in both directions |
| Signatures.BuildHollowRing | hw1/q3/miner.py:54-64 | the loops build exactly the hollow-ring value |
| Signatures.HollowRingNodes | hw1/q3/miner.py:56-57 | the hollow ring has exactly the ring's nodes, with their labels from the graph |
| Signatures.HollowRingEdges | hw1/q3/miner.py:58-63 | its edges are exactly the consecutive ring pairs, the closing pair included, that are edges of the graph, each with the graph's label; the result is well formed |
| Signatures.PathTupleToGraph | hw1/q3/miner.py:145-161 | succeeds exactly when the signature splits into an odd number of tokens, and then yields the alternating node/edge chain |
| Signatures.TraversalTokens | hw1/q3/miner.py:147 | for labels without `-` or white space, splitting a traversal gives labels and edge labels alternately |
| Signatures.ChainFromSignature | hw1/q3/miner.py:145-161 | for such labels, the graph rebuilt from a path signature is that path as a chain, in one of its two directions |
| Paths.RecordSignature | hw1/q3/miner.py:80-82 | a popped path's signature is recorded under its edge count, and the record stays sound |
| Paths.PushUnvisited | hw1/q3/miner.py:84-86 | pushes one frame per neighbour not on the path, each one node longer, and keeps every pending path covered |
| Paths.Step | hw1/q3/miner.py:79-86 | one stack iteration keeps the record sound and every pending path covered, and decreases a weight measure (termination) |
| Paths.ExploreFrom | hw1/q3/miner.py:76-86 | the loop for one start node records every bounded simple path from it and nothing else |
| Paths.PathSignatures | A1/q3/vectorizer.py:67-77 | fails exactly when an edge end has no label (the `KeyError` of A1/q3/vectorizer.py:21); otherwise a pair (edge count, signature) is found exactly when some simple path of that many edges, at most the bound, has that signature |
| Paths.SingleNodeFound | A1/q3/vectorizer.py:67-73 | every node contributes its own label as a 0-edge signature |
| Paths.FoundBounds | hw1/q3/miner.py:80-83 | no found path is longer than the bound, and the reversal of the path also has the signature |
| Counters.AddEffect | hw1/q3/miner.py:89 | `c[k] += n` changes only `k`'s count, by `n`, and keeps keys distinct |
| Counters.GetAdd | hw1/q3/miner.py:100 | adding to one key leaves every other count unchanged |
| Counters.GetUpdate | hw1/q3/miner.py:135-136 | `update` adds counts key by key |
| Counters.GetEntry | hw1/q3/miner.py:163 | each entry of a distinct counter holds the count `c[k]` returns |
| Miner.RingHashesMembers | hw1/q3/miner.py:92-96 | a hash is found exactly when one of the yielded cycles of 3 to 12 nodes has a hollow ring with that hash |
| Miner.GraphRings | hw1/q3/miner.py:90-98 | the cycle loop finds the hashes of the rings of 3 to 12 nodes and stores the first prototype per hash |
| Miner.CountPaths | hw1/q3/miner.py:87-89 | adds 1 to each path signature a graph holds, once per graph |
| Miner.CountRings | hw1/q3/miner.py:99-100 | adds 1 to each ring hash a graph holds, once per graph |
| Miner.MineChunk | hw1/q3/miner.py:70-102 | fails exactly when some graph of the chunk has an unlabelled edge end (the uncaught `KeyError` of hw1/q3/miner.py:37); otherwise every path or ring count is the number of graphs in the chunk that hold the substructure, rings of a graph whose cycle search raised are not counted, and every counted hash has a prototype |
| Miner.MineGraph | hw1/q3/miner.py:74-100 | one graph either raises on an unlabelled edge end, or turns the chunk's counts and prototypes for the graphs before it into those for the graphs up to it |
| Miner.PathSupportAppend | hw1/q3/miner.py:133-136 | path supports add up over consecutive parts of the database |
| Miner.RingSupportAppend | hw1/q3/miner.py:133-136 | ring supports add up over consecutive parts of the database |
| Miner.GraphProtosKeep | hw1/q3/miner.py:97-98 | a stored prototype is never replaced within a chunk |
| Miner.GraphProtosCover | hw1/q3/miner.py:94-98 | every hash found in a graph has a prototype |
| Miner.ChunkProtosFirstWins | hw1/q3/miner.py:97-98 | the first prototype stored for a hash survives the rest of the chunk |
| Miner.ChunkProtosOrigin | hw1/q3/miner.py:98 | every prototype is the hollow ring of a cycle of a graph in the chunk |
| Miner.ChunkSize | hw1/q3/miner.py:121 | the chunk size is at least 10 and at least `total // (4 * cores)` |
| Miner.ChunksPartition | hw1/q3/miner.py:123 | chunks are non-empty, hold at most `size` graphs, all but the last exactly `size`, and concatenate back to the database |
| Miner.FlattenMember | hw1/q3/miner.py:123 | every graph of a chunk is a database graph |
| Miner.SumOfPermutation | hw1/q3/miner.py:133-136 | summed counts do not depend on the order chunks complete in |
| Miner.MergePaths | hw1/q3/miner.py:134-135 | merging one result adds its path counts per length, key by key |
| Miner.MergeResults | hw1/q3/miner.py:133-137 | the global counts are the sums of the chunk counts, and the prototype map is the ordered merge of the chunk maps |
| Miner.MergedProtosKeys | hw1/q3/miner.py:137 | a hash has a merged prototype exactly when some chunk carried one |
| Miner.MergedProtosLastWins | hw1/q3/miner.py:137 | a merged prototype is the one from the last result that carried the hash, so it depends on completion order |
| Miner.MergedProtosOrigin | hw1/q3/miner.py:137 | every merged prototype comes from some result |
| Miner.ArrangePermutation | hw1/q3/miner.py:133 | listing the results in any permutation of their indices permutes them |
| Miner.MineChunks | hw1/q3/miner.py:129-133 | fails exactly when some graph of some chunk has an unlabelled edge end; otherwise one `mine_chunk` result per chunk, each meeting `MineChunk`'s contract |
| Miner.TotalsAreSupports | hw1/q3/miner.py:133-136 | chunk totals add up to supports over the whole database |
| Miner.DatabaseTotals | hw1/q3/miner.py:121-137 | totals summed in any completion order are database supports |
| Miner.MergedProtosFromDatabase | hw1/q3/miner.py:127-137 | every merged prototype is a hollow ring of some database graph |
| Miner.MineDatabase | hw1/q3/miner.py:114-137 | fails exactly when some database graph has an unlabelled edge end; otherwise, for any completion order, each global count is the number of database graphs holding the substructure, and every counted ring hash has a prototype taken from a database graph |
| Selection.RingCandidatesExact | hw1/q3/miner.py:163-165 | a ring candidate is exactly a counted ring hash with an in-range support, paired with its prototype |
| Selection.PathCandidatesExact | hw1/q3/miner.py:166-169 | a path candidate is exactly a path signature of some length with an in-range support |
| Selection.CandidateKinds | hw1/q3/miner.py:163-169 | all ring candidates precede all path candidates |
| Selection.CollectCandidates | hw1/q3/miner.py:163-169 | the loops build the candidate list, and every candidate's support is in range |
| Selection.AllInRange | hw1/q3/miner.py:163-169 | every ring and path candidate has a support between `min_sup` and `max_sup` |
| Selection.SortDescFacts | hw1/q3/miner.py:171 | the sort is non-increasing in support, is a permutation, and is stable |
| Selection.SortedTies | hw1/q3/miner.py:163-171 | among equal supports, rings (in counter order) come before paths (by length, then counter order) |
| Selection.SelectTopK | hw1/q3/miner.py:171-172 | the ranking is the `[:k]` prefix of the stable descending sort |
| Selection.TopKFacts | hw1/q3/miner.py:171-172 | the selection is in range and non-increasing, has `min(k, #candidates)` entries for `k >= 0`, and no dropped candidate outranks a kept one |
| Vectorizer.LocalPathSigs | A1/q3/vectorizer.py:63-77 | fails exactly when an edge end has no label; otherwise a signature is collected exactly when the graph has a bounded path with it |
| Vectorizer.LocalRingSigs | A1/q3/vectorizer.py:79-85 | the ring hashes found before the search stopped, kept even when it raised |
| Vectorizer.BitVector | A1/q3/vectorizer.py:87-95 | one `1`/`0` per pattern, in order: `1` exactly for a PATH in the path set or a RING in the ring set |
| Vectorizer.ProcessGraph | A1/q3/vectorizer.py:58-97 | fails exactly when an edge end has no label; otherwise the vector line is the joined bit of each pattern for that graph |
| Vectorizer.VectorTokens | A1/q3/vectorizer.py:88-97 | the line splits into exactly one `0`/`1` token per pattern, `1` exactly when the graph holds that pattern |
| Vectorizer.VectorizeAll | A1/q3/vectorizer.py:146-155 | stops at the first graph with an unlabelled edge end, keeping the lines already written; every written line i is graph i's vector, and all graphs get one exactly when every graph is fully labelled |
| Vectorizer.ParseSigLine | A1/q3/vectorizer.py:134-138 | a parsed kind and signature, joined again by `::`, occur in the stripped header line, so a line without `::` fails; a line with fewer than three space-separated fields fails too, as Python raises `IndexError` in both cases |
| Vectorizer.ReadPatterns | A1/q3/vectorizer.py:131-138 | the header loop yields the patterns of the `# SIG:` lines, or fails |
| Vectorizer.SigPatternsOrder | A1/q3/vectorizer.py:132-138 | only `# SIG:` lines give patterns, one each in file order; reading succeeds exactly when every header parses |
| Vectorizer.SigPatternsFail | A1/q3/vectorizer.py:135-138 | once a header raises, later lines cannot recover |
| Vectorizer.ParseSigLineOfSigLine | A1/q3/vectorizer.py:134-138 | parsing the header written at hw1/q3/miner.py:178 gives back the kind and the signature whenever the kind has no colon and `kind::sig` holds no ` (Supp:` |
| Vectorizer.FeatureFileRoundTrip | A1/q3/vectorizer.py:131-138 | reading a whole feature file, whose graph blocks hold no `# SIG:` line, gives the selected features' kinds and signatures in ranking order, under the same condition on each feature |
| Search.ParseBits | q3/search.py:12 | parses exactly when every token is an integer; a bit is true exactly when its value is non-zero |
| Search.LoadVectors | q3/search.py:5-17 | the loop skips blank lines, parses each row, and fails on a bad token or (when it builds the matrix) ragged rows |
| Search.ReadRowsOrder | q3/search.py:9-13 | row j is the parse of the j-th non-blank line |
| Search.ReadRowsFail | q3/search.py:12-16 | an unparsable line makes the whole load fail |
| Search.MismatchFreeIsCovers | q3/search.py:24-25 | a row is valid exactly when no position is set in the query and clear in the row |
| Search.CandidatesExact | q3/search.py:24-28 | candidates are strictly ascending, below the row count, and exactly the rows that cover the query |
| Search.CoversReflexive | q3/search.py:24-25 | a row equal to the query is a candidate |
| Search.EmptyQueryKeepsAll | q3/search.py:24-28 | an all-false query keeps every row, in order |
| Search.CoversMonotone | q3/search.py:24-25 | setting more bits in a row keeps it a candidate |
| Search.CandidatesAntitone | q3/search.py:24-28 | a larger query keeps only rows a smaller one kept |
| Search.RunSearch | q3/search.py:46-60 | one `q # i` / `c # ...` pair per query, in query order, listing that query's candidates |
| Search.CandidateLineTokens | q3/search.py:59-60 | a candidate line splits into `c`, `#` and the candidate numbers |
| CandidateGen.DominanceMask | A1/q3/generate_candidates.py:23 | a row is in the mask exactly when it is at least the query in every feature |
| CandidateGen.CandidatesExact | A1/q3/generate_candidates.py:23-24 | candidates are strictly ascending, below the row count, and exactly the dominating rows |
| CandidateGen.DominatesReflexive | A1/q3/generate_candidates.py:23 | a row equal to the query is a candidate |
| CandidateGen.ZeroQueryKeepsAll | A1/q3/generate_candidates.py:23-24 | an all-zero query keeps every row with non-negative counts |
| CandidateGen.DominatesMonotone | A1/q3/generate_candidates.py:23 | a row with larger counts keeps every query a smaller row kept |
| CandidateGen.CandidatesAntitone | A1/q3/generate_candidates.py:23-24 | a larger query keeps only rows a smaller one kept |
| CandidateGen.DominanceIsContainment | A1/q3/generate_candidates.py:23 | on 0/1 vectors the filter keeps the same rows as the bit-containment filter of q3/search.py |
| CandidateGen.GenerateCandidates | A1/q3/generate_candidates.py:18-31 | one `q # i` / `c # ...` pair per query in index order, and `all_candidate_counts[i]` is query i's candidate count |
| CandidateGen.CountBound | A1/q3/generate_candidates.py:31 | a candidate count never exceeds the number of rows |
| Dataset.SortedKeys | A1/q3/utils.py:7 | node ids in strictly increasing order, exactly the map's keys |
| Dataset.SortedKeysCount | A1/q3/utils.py:7 | the node part lists one label per node |
| Dataset.SortTriplesSorted | A1/q3/utils.py:15 | `sorted(edges)` is ordered and a permutation |
| Dataset.SortedUnique | A1/q3/utils.py:15 | two sorted lists of the same triples are equal |
| Dataset.GraphHashCanonical | A1/q3/utils.py:3-16 | graphs with the same node labels in node-id order and the same multiset of sorted edge triples get the same key |
| Dataset.HashEdgeOrder | A1/q3/utils.py:9-16 | the graph key does not change when the edge list is permuted |
| Dataset.HashEdgeDirection | A1/q3/utils.py:11-14 | the graph key does not change when one edge's endpoints are swapped |
| Dataset.ParseDataset | A1/q3/utils.py:18-65 | the line loop equals the fold over lines, failing (exit) on a malformed or out-of-graph `v`/`e` line |
| Dataset.DatasetFoldFail | A1/q3/utils.py:61-63 | a failure at one line fails the whole parse |
| Dataset.DatasetStepEdges | A1/q3/utils.py:44-55 | an `e` line appends an edge stored with `u <= v` only for a new pair, so the first label wins |
| Dataset.ParsedGraphs | A1/q3/utils.py:32-59 | graph k has id k, there is one graph per `#`/`t` line, and every graph's edges are canonical and pairwise distinct |
| Dataset.GetLbl | A1/q3/utils.py:73-80 | an integer label maps to its value; any other label maps to its stored id or the next one; earlier ids are kept; `next_id` grows only on a new label |
| Dataset.AssignFirstSeen | A1/q3/utils.py:73-80 | from empty maps, non-integer labels get 1, 2, 3, ... in first-occurrence order, and `next_id` is one past the last |
| Dataset.GetLblDense | A1/q3/utils.py:77-79 | ids stay in `1 .. next_id-1` and distinct labels keep distinct ids |
| Dataset.WriteNodes | A1/q3/utils.py:87-90 | the node loop writes `v` lines in node-id order and threads the node map |
| Dataset.WriteEdges | A1/q3/utils.py:92-94 | the edge loop writes `e` lines in list order and threads the edge map |
| Dataset.WriteGspan | A1/q3/utils.py:67-99 | the writer's lines and saved maps equal the specification |
| Dataset.WriteGrows | A1/q3/utils.py:73-94 | the saved maps give distinct labels distinct ids, and never drop an earlier id |
| Dataset.ParseGspanFp | A1/q3/utils.py:103-167 | the reader's loop equals the fold over lines, failing where Python raises |
| Dataset.FpLine | A1/q3/utils.py:121-162 | handling one line succeeds exactly when the line-step function does, and leaves the state that function gives |
| Dataset.FpHeaderLine | A1/q3/utils.py:132-145 | a `t` line closes the open graph and opens a new one with the id and the support in force, failing exactly where the line-step function fails |
| Dataset.FpRunFail | A1/q3/utils.py:132-162 | a line that raises ends the whole read |
| Dataset.FpStepSupport | A1/q3/utils.py:132-162 | a line that sets no support keeps the supports of graphs read so far, and a graph it opens gets the support in force |
| Dataset.SupportCarried | A1/q3/utils.py:119-145 | without support-setting lines, the support is carried unchanged into every graph opened |
| Dataset.Inverse | A1/q3/utils.py:110-111 | inverting an injective label map sends each id back to its label |
| Dataset.ReadTLine | A1/q3/utils.py:132-145 | reading a written `t # id` line closes the open graph and opens an empty one with that id under the support in force |
| Dataset.ReadBlock | A1/q3/utils.py:84-94 | one written block reads back as one graph with the same id, node labels and edge list, under the support in force |
| Dataset.GspanRoundTrip | A1/q3/utils.py:84-94 | when no label is an integer, reading `write_gspan`'s output with its inverted maps gives back every graph's id, node labels and edges in order, with support 0 |
| Dataset.IntegerLabelCollides | A1/q3/utils.py:74-79 | an integer label can receive the same id as a named label, which is why the round trip excludes integer labels |
| Preprocess.Groups | q3/preprocess.py:34-59 | lines are grouped by `t #` headers; blank lines are dropped; every group is non-empty |
| Preprocess.GroupsFlatten | q3/preprocess.py:34-59 | concatenating the groups gives back the stripped non-blank lines |
| Preprocess.GroupsHeaders | q3/preprocess.py:38-59 | every group after the first starts with a header, and a header only ever starts a group |
| Preprocess.Kept | q3/preprocess.py:40-73 | emits at most as many groups as it reads, each one of the groups read, so non-empty groups stay non-empty |
| Preprocess.KeptInOrder | q3/preprocess.py:40-65 | a group is emitted exactly when no earlier group has its concatenated text, and emitted groups keep their input order |
| Preprocess.KeptDistinct | q3/preprocess.py:41-65 | the emitted groups have pairwise distinct texts and cover every distinct text, so their number is the number of distinct texts |
| Preprocess.OutputRenumbers | q3/preprocess.py:48-54 | output headers are `t # 0`, `t # 1`, ... in order, and every other line is unchanged |
| Preprocess.DeduplicateRenumbers | q3/preprocess.py:34-73 | for input starting with a header, emitted headers are numbered 0 to (distinct groups - 1) and the bodies are unchanged |
| Preprocess.Flush | q3/preprocess.py:40-54 | processing one finished group updates the seen set, the output and the id counter |
| Preprocess.RenumberHeader | q3/preprocess.py:48-51 | the first line of the group is replaced by `t # id` exactly when it is a header; the other lines are unchanged |
| Preprocess.Deduplicate | q3/preprocess.py:18-73 | the main loop emits the renumbered kept groups, and `new_graph_id` is the number of distinct group texts |

## Left out

- File I/O, encodings and argument parsing are left out. This covers the
  utf-8-sig / cp1252 fallback, `argv`, and reading or writing files. Parsers
  take a sequence of stripped or raw lines; writers return lines.
- The multiprocessing pools (`Pool`, `imap_unordered`, `imap`, `map`,
  `init_worker`) are sequential loops. The order `imap_unordered` completes
  in is a permutation parameter of `Miner.MineDatabase`.
- `nx.simple_cycles` and `weisfeiler_lehman_graph_hash` are function
  parameters. Nothing is assumed about them beyond the yielded cycles running
  through labelled nodes.
- `load_graphs_robust` (hw1/q3/miner.py) and `parse_graph_file`
  (A1/q3/vectorizer.py) are not modelled. Their behaviour rests on networkx
  `Graph` semantics: truthiness is the node count, and `add_edge` creates
  unlabelled nodes and overwrites labels. Mining and vectorising start from
  graph values.
- The feature blocks written at hw1/q3/miner.py:179-185 (`t`, `v`, `e`
  lines of each feature graph) are not modelled, because they depend on the
  orientation networkx reports for `G.edges()`. Only the `# SIG:` header is
  modelled, as `Selection.SigLine`. `Vectorizer.FeatureFileRoundTrip` takes
  those blocks as arbitrary lines without `# SIG:` headers.
- `min_count` and `max_count` are integer parameters. The float products
  `int(total_graphs * min_r)` are not modelled.
- Progress and statistics printing are not modelled. This covers
  `np.min`/`np.max`/`np.mean` in A1/q3/generate_candidates.py, which raise on
  an empty query set.
- numpy details are not modelled:
  - `np.array(data, dtype=bool)` is modelled as failing on ragged rows;
    NumPy's handling of an empty file or of one-element rows is not modelled.
  - Query widths that differ from the database width are excluded by a
    precondition of `Search.RunSearch` and `CandidateGen.GenerateCandidates`.
    numpy would broadcast or raise.
- The `.npy` inputs of A1/q3/generate_candidates.py are integer matrices;
  loading them is not modelled.
- Python's `int()` accepts surrounding white space, `_` separators and
  non-ASCII digits. The model's `Text.ParseInt` accepts only an optional sign
  followed by ASCII digits. Every place the model applies it has already
  split the line on white space.
- The label maps are passed as Dafny maps: `json.dump`/`json.load` are not
  modelled. `Dataset.Inverse` models line 110's comprehension for an
  injective map.
- Preprocess.Kept: the md5 digest of q3/preprocess.py:8 is modelled as
  equality of the concatenated text, so md5 collisions are not modelled. Two
  groups whose concatenations coincide, such as `["ab","c"]` and
  `["a","bc"]`, count as duplicates in the model and in the program alike.
- Preprocess.DeduplicateRenumbers: requires the first non-blank line to be a
  header. The program itself accepts leading lines before the first `t #`:
  they form a group without a header, which still consumes id 0 when first
  seen, so the headers then start at 1. `Preprocess.Deduplicate` models that
  case as written.
- Dataset.GspanRoundTrip: assumes no node or edge label parses as an
  integer. `Dataset.IntegerLabelCollides` shows that an integer label can
  share its id with a named label, so the read-back label differs.
- Dataset.ParseDataset: `sys.exit(1)` after any exception is modelled as a
  `None` result; the error message is not.
- Vectorizer.FeatureFileRoundTrip: treats each `# SIG:` header as one line
  of the file. A signature holding a line break would split it, but path
  signatures are built from labels that `split()` produced, and ring
  signatures are hash strings.
- Vectorizer.VectorizeAll: the lines written before a graph raises are
  returned, but how much of them reached the file before the crash (output
  buffering) is not modelled.
