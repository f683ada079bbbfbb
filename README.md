# Graph-database benchmark clients, modelled in Dafny

The benchmark drives three graph or relational stores with the same graph
data and workloads. A converter script prepares inputs for a fourth engine.

- **Nebula** (`nebula/nebula_tools.cc`, `nebula/nebula_tools.h`). Loads
  plain edge lists (`load_data`) and property graphs (`load_property_graph`)
  through nGQL statements batched 256 at a time. Runs a shuffled read/write
  workload (`read_write_test`). Runs client-side traversals (`bfs`, `sssp`)
  and label algorithms (`cdlp`, `wcc`) over the store's neighbour query.
- **Umbra** (`umbra/sql.cc`). A Postgres-protocol client. `load_db` creates
  the tables and indexes and inserts the vertices and edges; the first
  statement holds 1025 rows and every later one 1024. A failing statement is
  only reported. `test_rw_workload` times 500 shuffled reads and writes.
- **DuckDB** (`duckdb/main.cc`). `load_db` inserts vertex 0 alone, then
  256 rows per statement, and stops at the first failure.
  `test_rw_workload` times 100000 reads and 100000 writes.
- **gridgraph converter** (`gridgraph/tools/convert.py`). Numbers the
  vertices by their 1-based line in the vertex file (a key repeated on
  several lines keeps its last line's number, so numbers can skip) and
  writes each edge as two 4-byte little-endian signed integers.

## How the model is built

- **The store is an oracle.** A `Verdict` maps the statements sent so far
  and the next statement to "accepted" or "rejected".
  - A run that stops at the first error (Nebula, DuckDB) sends
    `FailFast(schedule, accept)`: the schedule up to and including the first
    rejected statement.
  - A run that only reports errors (Umbra) sends the whole schedule. Its
    error log is `Rejected(sent, accept)`.
- **Schedule, then loop.** Each loader has a *schedule*: a function giving
  every statement it sends when nothing fails. The schedule is built from
  `Lead(rows, first, n)`, the batches of a row sequence whose first batch
  holds `first` rows and every later one `n`.
  - The loader itself is a method with the source's loop, buffer and flush
    test. Its contract ties what it sent to the schedule.
  - Lemmas read the schedule back: every row is sent once, in order; the
    batch sizes; the statement text.
- **State a loop changes in place is imperative.**
  - The shuffles work on an `array` in place.
  - The loops that build statement buffers, label maps, queues and latency
    vectors are `while` loops with invariants.
  - Pure pieces are functions: the schema renderers, `split`, line parsing,
    `struct.pack`.
- **Unspecified or random values become inputs.**
  - The iteration order of an `unordered_map` is a parameter `order`, and
    each result holds whatever that order is.
  - `rand()` draws, shuffle picks and measured latencies are parameters.
  - The files are given as their lines, or as already-parsed pairs.
- **Fixed-width arithmetic is written out where it shows.**
  - C `%` on a non-negative dividend: `CRem`.
  - The 64-bit unsigned accumulator of `std::accumulate(…, 0UL)`:
    `UnsignedMean`.
  - The `int` narrowing of Umbra's read latency: `ToInt32`.
  - Python's `struct.pack('<l')` range: `Pack`.

The model follows the code wherever the code and its documentation differ.
Examples:
- property values are inserted in the order the file gives them, not rearranged to the schema's column order;
- the undirected flag of `load_data` has no effect;
- DuckDB always runs its final flush.

## Model

| member | source | states |
|---|---|---|
| Store.FirstRejection | nebula/nebula_tools.cc:539-546 | the index of the first statement the store rejects, every earlier one accepted, or None when all are accepted |
| Store.FailFastIsPrefix | nebula/nebula_tools.cc:539-546 | a fail-fast run sends a prefix of its schedule; when it stopped, its last statement is the rejected one |
| Store.Execute | nebula/nebula_tools.cc:540-545 | one `session.execute` plus error check: the statement is appended; `stopped` holds exactly when it was rejected, and the run then has sent exactly FailFast |
| Store.RejectedExactly | umbra/sql.cc:100-107 | the error log of a carry-on run lists exactly the rejected positions, each once, increasing |
| Store.Report | umbra/sql.cc:102-105 | a carry-on statement is always sent; the error log grows by its position exactly when it is rejected |
| Text.Find | nebula/nebula_tools.cc:51 | `std::string::find`: the first occurrence of the pattern, or npos when there is none |
| Text.FindFrom | nebula/nebula_tools.cc:51 | the first occurrence at or after a position, or none from there on |
| Text.FindEmptyPattern | nebula/nebula_tools.cc:51 | the empty pattern is found at index 0 |
| Text.NatToDec | nebula/nebula_tools.cc:130 | `std::to_string` of a non-negative id is a non-empty digit string |
| Text.LeadingDigits | nebula/nebula_tools.cc:73 | the longest all-digit prefix that `stoull` reads: a prefix of the input, followed by a non-digit or the end |
| Text.ParseU64OfNatToDec | nebula/nebula_tools.cc:73 | `stoull` reads back what `to_string` wrote, for every 64-bit id |
| Text.Drop2 | nebula/nebula_tools.h:50-51 | two `pop_back` calls: the result plus the two removed characters is the input |
| Text.DropSeparator | nebula/nebula_tools.h:61-62 | popping the trailing ", " of a separator-terminated buffer leaves prefix + join |
| Text.ReplaceLastSeparator | nebula/nebula_tools.cc:560 | overwriting the last ',' with ';' turns the terminated buffer into prefix + join + ";" |
| Text.DropComma | umbra/sql.cc:101 | popping the trailing ',' of a terminated buffer leaves prefix + join |
| Workload.CountOf | nebula/nebula_tools.cc:344-351 | the number of tags of one kind, equal to the multiset count |
| Workload.CRem | nebula/nebula_tools.cc:358 | C `%` of a non-negative dividend lies in [0, abs(divisor)) |
| Workload.CRemRange | umbra/sql.cc:155 | `rand() % m` with m > 0 lies in [0, m) |
| Workload.UnsignedMean | umbra/sql.cc:226-228 | the average the source prints; absent exactly when the vector is empty (a division by zero in the source) |
| Workload.MeanWithinBounds | umbra/sql.cc:226-228 | without wrap-around, the reported average lies between the smallest and the largest latency bound |
| Workload.MeanOfConstant | duckdb/main.cc:144-145 | a constant latency is reported as itself |
| Workload.BuiltCounts | nebula/nebula_tools.cc:344-351 | a reads-first tag vector holds min(readCount, n) reads and the rest writes |
| Workload.ShuffledCounts | nebula/nebula_tools.cc:352 | the shuffle keeps the number of reads and of writes |
| Workload.OpsAreReadOrWrite | nebula/nebula_tools.cc:355-374 | every tag is a read or a write |
| Workload.Runs | umbra/sql.cc:209-214 | a `for (i = 0; i < c; i++)` loop runs max(c, 0) times |
| Workload.BuildTags | umbra/sql.cc:209-214 | the two fill loops: Runs(readCount) reads, then Runs(writeCount) writes |
| Workload.TagLayout | duckdb/main.cc:111-116 | the unshuffled tag vector: position i is a read exactly when i < Runs(readCount) |
| Workload.ShuffledTags | umbra/sql.cc:209-215 | the shuffled tag vector is the swap pass over TagLayout and holds exactly Runs(readCount) reads and Runs(writeCount) writes |
| Workload.Durations | umbra/sql.cc:216-221 | the per-kind latency vector has one entry per tag of that kind |
| Workload.DurationsSplit | umbra/sql.cc:216-221 | every operation lands in exactly one of the two latency vectors |
| Shuffle.Swap | nebula/nebula_tools.cc:730-732 | exchanging two positions changes those two and nothing else |
| Shuffle.SwapPass | nebula/nebula_tools.cc:728-733 | the source's swap pass keeps the length |
| Shuffle.SwapPassPermutes | nebula/nebula_tools.cc:728-733 | the swap pass is a permutation: every value occurs as often afterwards |
| Shuffle.EveryPermutationReachable | nebula/nebula_tools.cc:728-733 | every permutation of the input is the result of the swap pass for some picks, so a property proved for all picks covers every order a library shuffle can produce |
| Shuffle.ShuffleInPlace | nebula/nebula_tools.cc:728-733 | the in-place loop over the array leaves exactly SwapPass of its old contents |
| Batching.FlattenChunks | nebula/nebula_tools.cc:138-147 | the equal-size batches concatenate back to the rows |
| Batching.ChunkSizes | nebula/nebula_tools.cc:138-147 | every batch holds 1 to n rows, all but the last exactly n |
| Batching.ChunksIsLead | nebula/nebula_tools.cc:138-147 | equal batches are Lead with a first batch of the ordinary size |
| Batching.FlattenLead | umbra/sql.cc:97-118 | Lead's batches concatenate back to the rows |
| Batching.LeadSizes | umbra/sql.cc:100 | Lead's first batch holds 1 to `first` rows (exactly `first` if more rows follow), every later one 1 to n, all but the last exactly n |
| Batching.EqualBatches | nebula/nebula_tools.cc:539-567 | batches of n rejoin to the rows, hold 1 to n items and are full except the last |
| Batching.ChunksAppend | nebula/nebula_tools.cc:138-147 | batching a prefix that ends on a boundary does not disturb the rest |
| Batching.LeadSplit | umbra/sql.cc:97-118 | Lead cut at its k-th boundary is the prefix's batches then equal batches of the rest |
| Batching.CommandsExtend | nebula/nebula_tools.cc:539-548 | a flush at the next boundary sends exactly the pending rows as one more statement |
| Batching.CommandsFinish | nebula/nebula_tools.cc:559-567 | at the end of input, the statements are those up to the last boundary plus one for the pending rows, if any |
| NebulaSchema.AttrDecls | nebula/nebula_tools.h:47-49 | one "name type" entry per attribute, in the map's iteration order |
| NebulaSchema.GetCreateSchemaQuery | nebula/nebula_tools.h:45-54 | the loop's text is "create tag/edge name (" + the declarations joined by ", " + ");", and with no attributes the pops eat " (" |
| NebulaSchema.CreateTextShape | nebula/nebula_tools.h:86-95 | the two shapes of the create statement, with and without attributes |
| NebulaSchema.CreateDeclaresEachAttribute | nebula/nebula_tools.h:47-49 | every attribute is declared with its type, whatever the iteration order |
| NebulaSchema.EnumeratesEmpty | nebula/nebula_tools.h:47 | an iteration visits nothing exactly when the map is empty |
| NebulaSchema.RowOpen | nebula/nebula_tools.h:65-66 | a row's opening text (`id:(id, ` or `src->dst:(`) has at least two characters |
| NebulaSchema.GetInsertQuery | nebula/nebula_tools.h:56-78 | the loop's text is InsertText, and for a non-empty batch with columns it is the intended statement: columns joined, rows joined, quoted values |
| NebulaSchema.AppendRow | nebula/nebula_tools.h:64-73 | the row loop body appends exactly the row's rendering |
| NebulaSchema.RowTextClean | nebula/nebula_tools.h:65-72 | each rendered row is the intended row followed by one ", " |
| NebulaSchema.InsertTextClean | nebula/nebula_tools.h:74-76 | on well-formed input the final pops remove exactly the trailing separator |
| NebulaSchema.InsertWithoutRows | nebula/nebula_tools.h:61-76 | with no rows the final pops eat "s " of " values ", producing ") value;" |
| NebulaSchema.EdgeRowWithoutValues | nebula/nebula_tools.h:106-111 | an edge row without values loses its `:(` to the two pops: `src->dst), ` |
| NebulaSchema.SchemaTablesConsistent | nebula/nebula_tools.cc:9-17 | both data sets have a vertex tag and an edge type, and each insert column list names exactly the declared attributes |
| NebulaParse.SplitSpec | nebula/nebula_tools.cc:47-57 | `split` always returns at least one piece |
| NebulaParse.Split | nebula/nebula_tools.cc:47-57 | the find/erase loop returns exactly SplitSpec |
| NebulaParse.JoinSplit | nebula/nebula_tools.cc:47-57 | joining the pieces with the delimiter gives back the input |
| NebulaParse.SplitPiecesClean | nebula/nebula_tools.cc:51-55 | no piece contains the delimiter |
| NebulaParse.SplitOfJoin | nebula/nebula_tools.cc:47-57 | splitting on a one-character delimiter undoes joining pieces that do not contain it |
| NebulaParse.EmptyDelimiterStalls | nebula/nebula_tools.cc:51-53 | with an empty delimiter `find` returns 0 and the erase removes nothing, so the loop never ends |
| NebulaParse.ParseProps | nebula/nebula_tools.cc:74-78 | on success, one key and one value per token |
| NebulaParse.ReadProperties | nebula/nebula_tools.cc:74-78 | the token loop computes ParseProps |
| NebulaParse.ParsePropertyOfToken | nebula/nebula_tools.cc:75-77 | a `k:v` token yields k and v |
| NebulaParse.ParsePropertyDropsRest | nebula/nebula_tools.cc:75-77 | text after a second ':' is dropped |
| NebulaParse.ParsePropertyNoColon | nebula/nebula_tools.cc:77 | a token without ':' is an error (kv[1] does not exist) |
| NebulaParse.ParsePropsOfFormat | nebula/nebula_tools.cc:74-78 | the tokens of written properties parse back to the same keys and values |
| NebulaParse.FormatProps | nebula/nebula_tools.cc:74-78 | the `key:value` tokens of a property list, in order |
| NebulaParse.ReadVertexLine | nebula/nebula_tools.cc:71-79 | the vertex line body computes ParseVertexLine |
| NebulaParse.ReadEdgeLine | nebula/nebula_tools.cc:90-99 | the edge line body computes ParseEdgeLine |
| NebulaParse.ReadVertexFile | nebula/nebula_tools.cc:64-80 | the vertex file loop computes ReadAll: empty lines skipped, the first bad line ends the read |
| NebulaParse.ReadEdgeFile | nebula/nebula_tools.cc:83-100 | the edge file loop computes ReadAll |
| NebulaParse.ReadPropertyGraph | nebula/nebula_tools.cc:59-101 | read_property_graph computes ReadGraph: vertex lines, then edge lines |
| NebulaParse.ReadAllErrSticks | nebula/nebula_tools.cc:64-80 | once a line fails, more lines do not change the outcome |
| NebulaParse.ReadAllOf | nebula/nebula_tools.cc:64-80 | lines that each parse to an item read back as all the items |
| NebulaParse.VertexLineRoundTrip | nebula/nebula_tools.cc:71-79 | reading a written vertex line gives back that vertex |
| NebulaParse.EdgeLineRoundTrip | nebula/nebula_tools.cc:90-99 | reading a written edge line gives back that edge |
| NebulaParse.ReadGraphRoundTrip | nebula/nebula_tools.cc:59-101 | reading the two files of a graph gives the graph back, in file order |
| NebulaParse.ReadData | nebula/nebula_tools.cc:35-45 | the pair loop computes the reference adjacency map |
| NebulaParse.AdjacencyIsIncident | nebula/nebula_tools.cc:40-43 | each key's list holds exactly its incident entries in file order, and the keys are exactly the ids some pair touches (only sources when directed) |
| NebulaParse.DirectedCounts | nebula/nebula_tools.cc:40 | directed reading: b occurs in data[a] as often as (a, b) occurs in the file |
| NebulaParse.UndirectedSymmetric | nebula/nebula_tools.cc:40-43 | undirected reading: v occurs in data[u] as often as u occurs in data[v] |
| NebulaParse.UndirectedCounts | nebula/nebula_tools.cc:40-43 | undirected reading: b occurs in data[a] once per (a, b) and once per (b, a) |
| NebulaLoad.PairsFrom | nebula/nebula_tools.cc:577-581 | the (key, entry) pairs of one key's list, in order |
| NebulaLoad.PushTuple | nebula/nebula_tools.cc:536-551 | one loop body: append a tuple and, at 256, close with ';' and send (stop on rejection), else append ','; the loop state is kept |
| NebulaLoad.FinishTuples | nebula/nebula_tools.cc:559-567 | the final flush: when tuples are pending, the last ',' becomes ';' and the statement is sent; afterwards the whole phase has been sent |
| NebulaLoad.PushVertices | nebula/nebula_tools.cc:533-558 | the vertex loop sends the schedule's vertex statements up to the last boundary, or stops exactly at FailFast |
| NebulaLoad.LoadVertices | nebula/nebula_tools.cc:531-567 | phase 1 sends exactly the vertex statements (one tuple per key, in map order), or stops at FailFast |
| NebulaLoad.LoadKeyEdges | nebula/nebula_tools.cc:579-603 | the inner loop over one key's list pushes exactly its edge tuples |
| NebulaLoad.LoadEdges | nebula/nebula_tools.cc:572-613 | phase 2 sends exactly the edge statements (one tuple per list entry, keys in map order), or stops at FailFast |
| NebulaLoad.LoadGraph | nebula/nebula_tools.cc:526-617 | loading an adjacency map sends FailFast of its schedule, and succeeds exactly when no statement is rejected |
| NebulaLoad.LoadData | nebula/nebula_tools.cc:523-617 | load_data as written: the directed map of the pairs is loaded, whatever the flag |
| NebulaLoad.EdgeListCount | nebula/nebula_tools.cc:577-581 | every entry of the map becomes exactly one edge tuple |
| NebulaLoad.EdgeListCountFrom | nebula/nebula_tools.cc:577-581 | over distinct keys, the edges of a listed key are counted once each and those of an unlisted key not at all |
| NebulaLoad.EdgesArePairs | nebula/nebula_tools.cc:525-604 | load_data inserts every pair of the file as an edge, as often as it occurs, and nothing else |
| NebulaLoad.LoadDataBatches | nebula/nebula_tools.cc:531-613 | each statement is the fixed prefix plus 1 to 256 tuples, all full but the last of a phase, and the batches rejoin to the vertex tuples then the edge tuples |
| NebulaLoad.UndirectedFlagIgnored | nebula/nebula_tools.cc:525 | with the file "1 2" and the flag set, the map read has only key 1 and the single edge 1->2 |
| NebulaLoad.LoadDataUndirected | nebula/nebula_tools.cc:523-525 | load_data with the flag passed on to the reader sends FailFast of that map's schedule |
| NebulaLoad.UndirectedEdgesBothWays | nebula/nebula_tools.cc:41-43 | with the flag honoured, (a, b) is inserted once per (a, b) and once per (b, a) of the file |
| NebulaPropertyLoad.PushRow | nebula/nebula_tools.cc:135-147 | one loop body: push the row and, at 256 rows, render, send (stop on rejection) and clear; the loop state is kept |
| NebulaPropertyLoad.FinishRows | nebula/nebula_tools.cc:154-161 | the final flush sends the remaining rows if there are any; afterwards the whole phase has been sent |
| NebulaPropertyLoad.PushRows | nebula/nebula_tools.cc:128-153 | every item's row goes through PushRow, keeping the loop state, or the run stops at FailFast |
| NebulaPropertyLoad.LoadRows | nebula/nebula_tools.cc:128-161 | a phase sends exactly its insert statements, or stops at FailFast |
| NebulaPropertyLoad.LoadPropertyGraph | nebula/nebula_tools.cc:113-209 | a file that does not parse sends nothing. For a space in both schema tables the run sends FailFast of `use`, the vertex statements and the edge statements, and succeeds exactly when none is rejected. For any other space it sends only `use`: a rejection stops it, an empty graph finishes, and a graph with a row reaches the undefined schema lookup at its first flush |
| NebulaPropertyLoad.SchedulePhases | nebula/nebula_tools.cc:117-205 | the schedule is `use space;`, then the vertex phase, then the edge phase |
| NebulaPropertyLoad.PropertyBatches | nebula/nebula_tools.cc:128-205 | each insert renders one batch of 1 to 256 rows, all full but the last of a phase, and the batches rejoin to the vertex rows then the edge rows, in file order |
| NebulaPropertyLoad.PropertyStatementsClean | nebula/nebula_tools.cc:128-205 | every insert statement sent is the intended, well-formed text |
| NebulaPropertyLoad.SchemaShapes | nebula/nebula_tools.cc:9-17 | both data sets use a tag with columns and the property_e edge type |
| NebulaPropertyLoad.CleanBatch | nebula/nebula_tools.h:56-78 | a batch the loader forms is never empty, so its statement is well formed |
| NebulaPropertyLoad.InBatch | nebula/nebula_tools.cc:128-147 | every row of a batch is a row of the input |
| NebulaWorkload.SampleVid | nebula/nebula_tools.cc:358 | `rand() % (max_vid - 1) + 1` lies in [1, max_vid - 1] when max_vid > 1, and in [1, 1 - max_vid] when max_vid <= 0 |
| NebulaWorkload.OpQueries | nebula/nebula_tools.cc:355-374 | one statement per operation, read or write as its tag says |
| NebulaWorkload.WorkloadSchedule | nebula/nebula_tools.cc:331-374 | `use`, the max-id query, then one statement per operation |
| NebulaWorkload.BuildOps | nebula/nebula_tools.cc:344-351 | position i is a read exactly when i < readCount |
| NebulaWorkload.SendOps | nebula/nebula_tools.cc:355-380 | the dispatch loop sends FailFast of the schedule |
| NebulaWorkload.RunWorkload | nebula/nebula_tools.cc:332-380 | the run sends FailFast of the schedule, and succeeds exactly when nothing is rejected |
| NebulaWorkload.ReadWriteTest | nebula/nebula_tools.cc:331-384 | the shuffled vector holds min(readCount, 2000000) reads and the rest writes, and the statements sent are FailFast of its schedule |
| NebulaWorkload.ScheduleSamplesInRange | nebula/nebula_tools.cc:358-368 | each statement reads one vertex or writes one edge, as its tag says, with ids in [1, max_vid - 1] |
| NebulaTraversal.Tag | nebula/nebula_tools.cc:704-706 | queue entries carry their depth |
| NebulaTraversal.InExpand | nebula/nebula_tools.cc:702-706 | u is pushed after a level exactly when it is an out-neighbour of one of its vertices |
| NebulaTraversal.LevelWalk | nebula/nebula_tools.cc:691-708 | a vertex at queue depth k ends a walk of k steps |
| NebulaTraversal.WalkLevel | nebula/nebula_tools.cc:691-708 | the end of a walk of k steps is at queue depth k |
| NebulaTraversal.StepWalk | nebula/nebula_tools.cc:704-706 | extending a walk by an out-neighbour is a walk one step longer |
| NebulaTraversal.LevelIsWalkEnds | nebula/nebula_tools.cc:691-708 | level k lists exactly the ends of walks of k steps |
| NebulaTraversal.EmptyLevelStays | nebula/nebula_tools.cc:694 | once a level is empty every later one is, so the queue stays dry |
| NebulaTraversal.UptoShape | nebula/nebula_tools.cc:694-707 | every expanded entry is at a depth below the limit that a walk reaches, in non-decreasing depth order |
| NebulaTraversal.BfsPop | nebula/nebula_tools.cc:695-706 | one iteration: stop at depth `depth`, else expand the entry and advance the queue state |
| NebulaTraversal.BfsFinish | nebula/nebula_tools.cc:694-701 | when the loop ends, by the depth test or a dry queue, it has expanded every level below `depth` |
| NebulaTraversal.Bfs | nebula/nebula_tools.cc:691-708 | bfs expands exactly the walks of fewer than `depth` steps, level by level |
| NebulaTraversal.BfsExpandsShortWalks | nebula/nebula_tools.cc:691-708 | (v, k) is expanded exactly when k < depth and a walk of k steps reaches v |
| NebulaTraversal.SsspQueueEmpty | nebula/nebula_tools.cc:677 | the queue runs dry exactly when the current level is empty |
| NebulaTraversal.SsspPop | nebula/nebula_tools.cc:678-687 | one iteration pops the front id and pushes its out-neighbours, keeping the level invariant |
| NebulaTraversal.Sssp | nebula/nebula_tools.cc:674-689 | the popped ids are a prefix of the level-order stream; Found exactly when the target was popped (last, once); a dry queue means every walk was followed |
| NebulaTraversal.StreamIsReachable | nebula/nebula_tools.cc:677-687 | everything popped is reached by a walk |
| NebulaTraversal.ExhaustedMeansUnreachable | nebula/nebula_tools.cc:677 | a dry queue without the target means no walk leads to it |
| NebulaTraversal.FoundMeansReachable | nebula/nebula_tools.cc:680-682 | a popped target is reached by a walk |
| NebulaLabels.Identity | nebula/nebula_tools.cc:721-724 | the start labels: exactly the listed vertices, each labelled with itself |
| NebulaLabels.LabelsOf | nebula/nebula_tools.cc:748-749 | the neighbours' labels, a missing key reading 0 |
| NebulaLabels.BestUnique | nebula/nebula_tools.cc:752-759 | "most frequent, ties to the smallest" names one label |
| NebulaLabels.NewLabelIsBest | nebula/nebula_tools.cc:752-759 | with neighbours, the adopted label is that best label |
| NebulaLabels.CountLabels | nebula/nebula_tools.cc:748-751 | the counting loop counts each neighbour label's occurrences |
| NebulaLabels.SelectLabel | nebula/nebula_tools.cc:752-759 | in any map order: the own label with no neighbours, else a label of maximal count and the smallest among them |
| NebulaLabels.SelectedIsNewLabel | nebula/nebula_tools.cc:748-759 | the selection loop settles on NewLabel of the neighbours' labels |
| NebulaLabels.UpdateVertex | nebula/nebula_tools.cc:735-763 | one vertex update computes CdlpUpdate |
| NebulaLabels.UpdateDraws | nebula/nebula_tools.cc:760-763 | an update only relabels the vertex itself, with a label some neighbour carries |
| NebulaLabels.PassOver | nebula/nebula_tools.cc:734-764 | one pass computes CdlpPass |
| NebulaLabels.PassUnchanged | nebula/nebula_tools.cc:760-765 | a pass that reports no change leaves the labels as they were |
| NebulaLabels.ShuffleAndPass | nebula/nebula_tools.cc:728-764 | the loop body swaps the list in place and then runs a pass over the new order |
| NebulaLabels.Cdlp | nebula/nebula_tools.cc:710-769 | cdlp computes CdlpFrom from the identity labels |
| NebulaLabels.CdlpResult | nebula/nebula_tools.cc:725-768 | cdlp runs 1 to 10 passes and hands out only vertex ids (or 0) as labels |
| NebulaLabels.CdlpStopsOnStablePass | nebula/nebula_tools.cc:765-767 | a run stops before the cap exactly after a pass that left the labels unchanged |
| NebulaLabels.MinScan | nebula/nebula_tools.cc:803-808 | min_val is at most the own label and every neighbour label, and equal to one of them |
| NebulaLabels.MinLabel | nebula/nebula_tools.cc:803-808 | the min_val loop computes MinScan |
| NebulaLabels.WccRound | nebula/nebula_tools.cc:789-814 | one synchronous round: keys are exactly the vertex list, each value computed from the old labels |
| NebulaLabels.WccPass | nebula/nebula_tools.cc:789-814 | the round loop computes WccRound, and changeMade holds exactly when some label differs |
| NebulaLabels.PotentialDecreases | nebula/nebula_tools.cc:786-815 | lowering some labels and raising none strictly lowers the potential |
| NebulaLabels.RoundLowers | nebula/nebula_tools.cc:803-812 | a round keeps the key set and the lower bound and raises no label |
| NebulaLabels.RoundUnchanged | nebula/nebula_tools.cc:809-814 | a round without change is the identity |
| NebulaLabels.Floor | nebula/nebula_tools.cc:782-785 | a lower bound of every id and of 0 |
| NebulaLabels.WccStep | nebula/nebula_tools.cc:786-815 | a round keeps the loop invariant, lowers the potential when it changes a label, and is the identity otherwise |
| NebulaLabels.Wcc | nebula/nebula_tools.cc:771-816 | wcc terminates with the vertex list as keys, stable under another round, each label at most its vertex id |
| NebulaLabels.StableHasNoSmallerNeighbour | nebula/nebula_tools.cc:803-812 | in a stable labelling no vertex has a neighbour with a smaller label |
| NebulaLabels.StableConstantOnWalks | nebula/nebula_tools.cc:786-815 | with a symmetric neighbour query, a stable labelling is constant along walks, one label per component |
| UmbraSql.Ids | umbra/sql.cc:98 | the vertex ids 0 .. n - 1 |
| UmbraSql.FlushTest | umbra/sql.cc:100 | `i != 0 && i % 1024 == 0` holds exactly at the last index of a batch (1025 first, then 1024) |
| UmbraSql.PushRow | umbra/sql.cc:99-107 | one iteration: append the row; at a batch end pop ',' and send (a failure is only logged); the loop state is kept |
| UmbraSql.FinishStep | umbra/sql.cc:112-118 | after the loop the buffer ends in ',' exactly when rows are pending, and those form the last statement |
| UmbraSql.FlushRest | umbra/sql.cc:112-118 | after the final flush all the phase's statements are sent and the error log is exact |
| UmbraSql.InsertVertices | umbra/sql.cc:97-118 | the vertex loop sends the vertex statements, logging failures |
| UmbraSql.LoadVertices | umbra/sql.cc:97-118 | the vertex phase sends exactly its insert statements |
| UmbraSql.InsertRows | umbra/sql.cc:130-151 | the row loop sends exactly the statements for its rows |
| UmbraSql.LoadEdges | umbra/sql.cc:130-151 | the edge phase sends exactly the edge statements, in file order |
| UmbraSql.LoadDb | umbra/sql.cc:81-152 | load_db sends every statement of its schedule whatever the store answers, and the error log is exactly the rejected positions |
| UmbraSql.VertexBatches | umbra/sql.cc:97-118 | the vertex statements carry ids 0 .. n - 1 once, increasing; the first holds up to 1025, later ones up to 1024, all full but the last |
| UmbraSql.VertexStatements | umbra/sql.cc:97-118 | the vertex statements are those of the id batches, one rendered row per id |
| UmbraSql.NoVerticesNoInsert | umbra/sql.cc:112 | with no vertices no vertex insert is sent |
| UmbraSql.EdgeBatches | umbra/sql.cc:130-151 | the edge statements carry every edge once, in file order, duplicates kept |
| UmbraSql.ToInt32 | umbra/sql.cc:163 | the int64 to `int` narrowing: in range, congruent modulo 2^32, identity on small values |
| UmbraSql.GetNeighbors | umbra/sql.cc:154-164 | one neighbour query for an id in [0, abs(max_vid)); the latency comes back narrowed |
| UmbraSql.AddEdge | umbra/sql.cc:166-184 | an insert then a delete of the same sampled edge; only the insert is timed |
| UmbraSql.Reported | umbra/sql.cc:216-221 | the latency each operation reports: a read's narrowed, a write's as measured |
| UmbraSql.DispatchOne | umbra/sql.cc:217-221 | one operation's statements are sent and its latency joins its kind's vector |
| UmbraSql.RunOps | umbra/sql.cc:216-225 | the first 500 tags are dispatched once each; the statements and the two latency vectors are as the reference says |
| UmbraSql.TagVectorSize | umbra/sql.cc:194-195 | the tag vector holds at least 500 tags, exactly 500 when read_count lies in [0, 500] |
| UmbraSql.TestRwWorkload | umbra/sql.cc:186-229 | three set-up queries then the dispatched statements; Runs(read_count) reads; the read average is UnsignedMean of the read vector, and the write average is UnsignedMean of the write vector only when there are reads, since with none the read division traps first and no write average is printed |
| DuckDbMain.VertexRows | duckdb/main.cc:35-36 | one row per id of `for (i = 0; i < vertex_count; i++)`, none when the count is not positive |
| DuckDbMain.BoundaryBetween | duckdb/main.cc:37 | between two boundaries a row count is a boundary exactly at the lower one |
| DuckDbMain.VertexFlushTest | duckdb/main.cc:37 | `i % 256 == 0` is the boundary test for batches 1, 256, 256, … |
| DuckDbMain.EdgeFlushTest | duckdb/main.cc:69-70 | `size % 256 == 0` after the increment is the boundary test for equal batches of 256 |
| DuckDbMain.PushRow | duckdb/main.cc:35-46 | one iteration: append the row; when the flush test holds pop ", " and send (stop on rejection); the loop state is kept |
| DuckDbMain.FinishStep | duckdb/main.cc:48-56 | after the loop the buffer holds pending rows exactly when the count is off a boundary; as written it is flushed anyway |
| DuckDbMain.FlushRest | duckdb/main.cc:48-56 | the final flush as written: always sent |
| DuckDbMain.FlushPending | duckdb/main.cc:48-56 | the final flush as intended: sent only when rows are pending |
| DuckDbMain.InsertVertices | duckdb/main.cc:34-47 | the vertex loop keeps the loop state, or stops at FailFast |
| DuckDbMain.InsertEdges | duckdb/main.cc:63-83 | the edge loop keeps the loop state, or stops at FailFast |
| DuckDbMain.LoadVertices | duckdb/main.cc:34-56 | the vertex phase as written sends its statements and the unconditional flush |
| DuckDbMain.LoadEdges | duckdb/main.cc:63-92 | the edge phase as written sends its statements and the unconditional flush |
| DuckDbMain.LoadVerticesFixed | duckdb/main.cc:34-56 | the vertex phase as intended sends exactly one statement per batch |
| DuckDbMain.LoadEdgesFixed | duckdb/main.cc:63-92 | the edge phase as intended sends exactly one statement per batch |
| DuckDbMain.LoadDb | duckdb/main.cc:18-105 | load_db as written sends FailFast of its schedule, and succeeds exactly when nothing is rejected |
| DuckDbMain.LoadDbFixed | duckdb/main.cc:18-105 | load_db with guarded final flushes sends FailFast of the intended schedule |
| DuckDbMain.InsertionsCarryRows | duckdb/main.cc:34-92 | the intended statements are one per non-empty batch, and the batches rejoin to the rows |
| DuckDbMain.AsWrittenExtraStatement | duckdb/main.cc:48-56 | as written a loop sends one statement more than its batches exactly when nothing is pending, and that statement is no insert of any batch |
| DuckDbMain.VertexEmptyFlush | duckdb/main.cc:35-48 | the vertex loop ends with nothing pending exactly when vertex_count <= 1 or vertex_count - 1 is a multiple of 256 |
| DuckDbMain.EdgeEmptyFlush | duckdb/main.cc:64-84 | the edge loop ends with nothing pending exactly when the edge count is a multiple of 256 |
| DuckDbMain.OneVertexSendsTruncatedInsert | duckdb/main.cc:48-51 | with one vertex, id 0 is sent alone and then the empty flush sends "… _vertex VALUE" |
| DuckDbMain.OneVertexIntended | duckdb/main.cc:35-56 | the intended load of one vertex sends its single insert and goes on to the edges |
| DuckDbMain.WorkloadSchedule | duckdb/main.cc:120-143 | one statement per operation, as its tag says |
| DuckDbMain.WorkloadSamplesInRange | duckdb/main.cc:122-133 | every sampled id lies in [0, abs(vertex_count)) |
| DuckDbMain.DispatchOne | duckdb/main.cc:121-142 | one operation: send its statement and push its latency onto its kind's vector before the error check |
| DuckDbMain.RunOps | duckdb/main.cc:120-143 | the dispatch loop sends FailFast of the schedule, with one latency per statement sent, by kind |
| DuckDbMain.TestRwWorkload | duckdb/main.cc:107-146 | 100000 reads and 100000 writes shuffled and dispatched; the averages are reported only when every statement went through |
| GridConvert.Pack | gridgraph/tools/convert.py:15-16 | `struct.pack('<l')` produces four bytes |
| GridConvert.Unpack | gridgraph/tools/convert.py:15-16 | the inverse reading is a 32-bit signed value |
| GridConvert.UnpackPack | gridgraph/tools/convert.py:15-16 | unpacking a packed integer gives it back |
| GridConvert.PackUnpack | gridgraph/tools/convert.py:15-16 | every 4-byte string is the packing of its unpacking |
| GridConvert.IdMapNumbersLastLine | gridgraph/tools/convert.py:3-7 | the renumbering holds exactly the keys of the vertex lines, each with the 1-based number of its last line |
| GridConvert.IdMapNumbers | gridgraph/tools/convert.py:3-7 | a key is numbered between 1 and the number of lines |
| GridConvert.IdMapInjective | gridgraph/tools/convert.py:3-7 | different keys get different numbers |
| GridConvert.Renumber | gridgraph/tools/convert.py:3-8 | the vertex loop builds IdMap, and the counter ends at lines + 1 |
| GridConvert.EncodeCompletes | gridgraph/tools/convert.py:11-16 | a run completes exactly when every line's endpoints are renumbered and in range |
| GridConvert.EncodeWrites | gridgraph/tools/convert.py:11-16 | a complete run writes both endpoints' numbers of every edge, in order, 8 bytes per edge |
| GridConvert.EncodeStopsAt | gridgraph/tools/convert.py:13-16 | a failing run stops at the first bad line, with the earlier lines written in full and at most 4 bytes of that line |
| GridConvert.MissingKeyIsEndpoint | gridgraph/tools/convert.py:13-14 | a KeyError names an endpoint of the failing line that is not a vertex key |
| GridConvert.ConvertRoundTrip | gridgraph/tools/convert.py:3-16 | with fewer than 2^31 vertex lines and known endpoints, every edge is written and reads back as its two new numbers |
| GridConvert.WriteEdges | gridgraph/tools/convert.py:11-16 | the edge loop computes Encode |
| GridConvert.FailedPrefix | gridgraph/tools/convert.py:11-16 | once a prefix of the lines has failed, the whole run ends the same way |
| GridConvert.Convert | gridgraph/tools/convert.py:1-16 | the script reports lines + 1 and writes Encode of the renumbered edges |

## Left out

- File I/O is not modelled.
  - The `while (!file.eof())` loops and `getline`/`>>` extraction are left out. The files are given as their lines or as their parsed pairs.
  - So the extra iteration these loops make after a trailing newline is not modelled. In `read_data_from_file`, Umbra's `read_edges` and DuckDB's edge loop that iteration appends one more pair.
  - A file that cannot be opened is left out: DuckDB's early return (duckdb/main.cc:58-62) and Umbra's `exit(1)` in `read_edges`.
- Printing, progress counters (`idx % 100000`) and clock readings are left out. The measured latencies are inputs.
- The randomness is given as input.
  - `rand()` draws are inputs.
  - `std::random_shuffle`, the `std::shuffle` with `default_random_engine`, and cdlp's own swap loop are all modelled by the swap pass, one swap per position with the given picks.
  - The particular picks of the standard library's algorithms are therefore not modelled. Every permutation is the swap pass of some picks (Shuffle.EveryPermutationReachable), so the properties proved for all picks hold for whatever order those algorithms produce.
- `unordered_map` iteration order is an input `order`. Every property is proved for all orders that list each key once.
- A cdlp or wcc lookup of a neighbour that is not in the vertex list inserts a key with label 0. The model reads 0 without inserting it. Every later read gives the same 0, so only the key set of the (discarded) map differs.
- The neighbour query inside `bfs`, `sssp`, `cdlp` and `wcc` is a total map from vertex to result list. The error exits of `get_out_neighbor_ids` and of the `go … bidirect` query are left out.
- `read_property_graph` has undefined behaviour on a `key:value` token without ':' and on an edge line without a second token. The model turns both into errors that stop the read. `std::stoull`'s acceptance of leading blanks or a sign is not modelled: tokens come from splitting on single spaces.
- NebulaParse.Split: requires a non-empty delimiter, because with an empty one the source loop never ends (EmptyDelimiterStalls shows why).
- NebulaTraversal.Bfs: the depth is a `nat`. A negative depth, which never matches and so expands without bound, is not modelled.
- NebulaTraversal.Sssp: takes a `fuel` bound on the number of pops. Without a visited set the source loop need not terminate, and an OutOfFuel outcome stands for a run that is still going.
- NebulaPropertyLoad.LoadPropertyGraph: for a space name outside the schema tables, `vertex_schemas.find(space_name)->second` (and the edge table's) dereferences `end()` at the first flush (nebula/nebula_tools.cc:139, 155, 184, 199), which is undefined behaviour. The model reports that point as `undefinedLookup` after sending `use <space>;` and says nothing about what the program does next.
- NebulaWorkload.SampleVid: requires max_vid != 1, since the source then divides by zero.
- UmbraSql.GetNeighbors and DuckDbMain.WorkloadSchedule: require a non-zero maximum id or vertex count, for the same reason.
- UmbraSql.LoadDb and DuckDbMain.LoadDb: require loop counts of at most 2^31 - 1. The source's `int` loop index would overflow beyond that.
- NebulaWorkload.ReadWriteTest: the floating-point test `i < read_ratio * max_ops` is modelled as an integer `readCount`.
- UmbraSql.TestRwWorkload: `(int)(500 * read_ratio)` is modelled as an integer `readCount`. The maximum id parsed by `std::stoi` is an input.
- GridConvert.Convert: `keys` and `edges` are the already-parsed lines. A blank or non-numeric vertex line, where `int(line.split()[0])` raises IndexError or ValueError before the max id is printed (gridgraph/tools/convert.py:6), is not modelled. Neither is an edge line without exactly two integers, where `u, v = map(int, line.split())` raises ValueError after the print and after the earlier edges were written (gridgraph/tools/convert.py:12).
- UmbraSql.LoadDb: the outcome of each statement is only printed in the source. The model keeps the positions of the rejected statements instead.
- Left out entirely:
  - `pagerank` (floating point);
  - `get_max_vid`, `basic_op_test`, `test_property_graph`, `test_algm`, the property search tables and the space creation and dropping;
  - Umbra's `connect_db`, `disconnect_db` and `drop_db`, `umbra/main.cc`, `nebula/nebula_rw.cc`, `gridgraph/tools/convert.cc` and `gridgraph/examples/cdlp.cpp`.

  These are outside the core modelled here.

## Findings

| source | as written | input that shows it | evidently intended | confidence | as-written member | corrected member |
|---|---|---|---|---|---|---|
| nebula/nebula_tools.cc:525 | `load_data` calls `read_data_from_file(file_path, graph)` without `is_undirected`, so the flag has no effect | the file "1 2" with is_undirected set: only vertex 1 and edge 1->2 are inserted | pass the flag on, so each pair is loaded in both directions | not executed | NebulaLoad.UndirectedFlagIgnored | NebulaLoad.UndirectedEdgesBothWays |
| duckdb/main.cc:48-56 | the guard `query.size() > 0` always holds, so with no rows pending the final flush sends the prefix with two characters popped | vertex_count = 1: id 0 is sent alone, then "INSERT INTO ds_vertex VALUE", which is not a valid statement, is sent; a store rejecting it ends the load before any edge | flush only when rows are pending | not executed | DuckDbMain.OneVertexSendsTruncatedInsert | DuckDbMain.OneVertexIntended |
