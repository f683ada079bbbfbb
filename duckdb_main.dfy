/**
 * The DuckDB client. `load_db` creates the vertex and the edge table,
 * inserts the ids 0 .. vertex_count - 1 (id 0 alone, then 256 per
 * statement), then the edge list (256 per statement), then creates the two
 * indexes; the first failing statement ends the load. `test_rw_workload`
 * dispatches 100000 reads and 100000 writes in shuffled order, stops at the
 * first failure, and reports the unsigned average latency of each kind.
 *
 * Both insert loops end with a flush whose guard `query.size() > 0` always
 * holds, since the buffer never gets shorter than its prefix: when no rows
 * are pending this flush sends the prefix with its last two characters
 * popped. `LoadSchedule` and `LoadDb` keep that behaviour;
 * `IntendedSchedule` and `LoadDbFixed` flush only pending rows.
 */
module DuckDbMain {
  import opened Wrappers
  import opened Text
  import opened Batching
  import opened Store
  import opened Workload
  import opened Shuffle

  const BatchSize: nat := 256

  /** The vertex loop flushes after every index i with i % 256 == 0, so id 0 goes alone. */
  const VertexFirst: nat := 1

  /** The edge loop flushes when its row count reaches a multiple of 256. */
  const EdgeFirst: nat := 256

  const ReadOps: nat := 100000

  const WriteOps: nat := 100000

  /** The most iterations a loop with a C `int` counter can make before the counter overflows. */
  const IntMax: nat := 0x7fff_ffff

  // ---------------------------------------------------------------------------
  // load_db: the statements

  function CreateVertexTable(ds: string): string
  {
    "CREATE TABLE " + ds + "_vertex (id INTEGER PRIMARY KEY)"
  }

  function CreateEdgeTable(ds: string): string
  {
    "CREATE TABLE " + ds + "_edge (src INTEGER, dst INTEGER)"
  }

  function CreateVertexIndex(ds: string): string
  {
    "CREATE INDEX " + ds + "_vertex_index ON " + ds + "_vertex(id)"
  }

  function CreateEdgeIndex(ds: string): string
  {
    "CREATE INDEX " + ds + "_edge_index ON " + ds + "_edge(src)"
  }

  function VertexPrefix(ds: string): string
  {
    "INSERT INTO " + ds + "_vertex VALUES "
  }

  function EdgePrefix(ds: string): string
  {
    "INSERT INTO " + ds + "_edge VALUES "
  }

  function VertexRow(i: nat): string
  {
    "(" + NatToDec(i) + ")"
  }

  function EdgeRow(e: (int, int)): string
  {
    "(" + IntToDec(e.0) + ", " + IntToDec(e.1) + ")"
  }

  /** An insert statement: the prefix, then the batch's rows separated by ", ". */
  function Statement(prefix: string): seq<string> -> string
  {
    (batch: seq<string>) => prefix + Join(batch, ", ")
  }

  /** The rows of `for (int i = 0; i < vertex_count; i++)`: none when the count is not positive. */
  function VertexRows(vertexCount: int): (r: seq<string>)
    ensures |r| == Runs(vertexCount)
    ensures forall i :: 0 <= i < |r| ==> r[i] == VertexRow(i)
  {
    seq(Runs(vertexCount), i requires 0 <= i => VertexRow(i))
  }

  function EdgeRows(edges: seq<(int, int)>): seq<string>
  {
    MapSeq(EdgeRow, edges)
  }

  /** One statement per batch of rows: `first` rows, then 256 at a time. */
  function Insertions(prefix: string, rows: seq<string>, first: nat): seq<string>
    requires first > 0
  {
    Commands(Statement(prefix), rows, first, BatchSize)
  }

  /** `len` rows end exactly at a batch boundary: no rows are pending after the loop. */
  predicate IsBoundary(len: nat, first: nat)
  {
    len == 0 || len == first || (len > first && (len - first) % BatchSize == 0)
  }

  /**
   * The statements of one insert loop as written: one per batch, and, when
   * nothing is pending at the end, the prefix with two characters popped.
   */
  function AsWrittenInsertions(prefix: string, rows: seq<string>, first: nat): seq<string>
    requires first > 0 && |prefix| >= 2
  {
    Insertions(prefix, rows, first) + (if IsBoundary(|rows|, first) then [Drop2(prefix)] else [])
  }

  /** Every statement load_db sends when the store accepts them all, in order. */
  function LoadSchedule(ds: string, vertexCount: int, edges: seq<(int, int)>): seq<string>
  {
    [CreateVertexTable(ds), CreateEdgeTable(ds)]
      + AsWrittenInsertions(VertexPrefix(ds), VertexRows(vertexCount), VertexFirst)
      + AsWrittenInsertions(EdgePrefix(ds), EdgeRows(edges), EdgeFirst)
      + [CreateVertexIndex(ds), CreateEdgeIndex(ds)]
  }

  /** The schedule with the final flushes sending pending rows only. */
  function IntendedSchedule(ds: string, vertexCount: int, edges: seq<(int, int)>): seq<string>
  {
    [CreateVertexTable(ds), CreateEdgeTable(ds)]
      + Insertions(VertexPrefix(ds), VertexRows(vertexCount), VertexFirst)
      + Insertions(EdgePrefix(ds), EdgeRows(edges), EdgeFirst)
      + [CreateVertexIndex(ds), CreateEdgeIndex(ds)]
  }

  // ---------------------------------------------------------------------------
  // load_db: the batch boundaries

  lemma {:induction false} BatchEndClosed(k: nat, first: nat)
    ensures BatchEnd(k, first, BatchSize) == (if k == 0 then 0 else first + BatchSize * (k - 1))
  {
    if k > 1 {
      BatchEndClosed(k - 1, first);
    }
  }

  lemma RemainderOf(q: nat, r: nat)
    requires r < BatchSize
    ensures (BatchSize * q + r) % BatchSize == r
  {
  }

  /** Between two boundaries, a row count is a boundary exactly at the lower one. */
  lemma BoundaryBetween(len: nat, k: nat, first: nat)
    requires first > 0
    requires BatchEnd(k, first, BatchSize) <= len < BatchEnd(k + 1, first, BatchSize)
    ensures IsBoundary(len, first) <==> len == BatchEnd(k, first, BatchSize)
  {
    BatchEndClosed(k, first);
    BatchEndClosed(k + 1, first);
    if k > 0 {
      var t := len - first - BatchSize * (k - 1);
      assert 0 <= t < BatchSize;
      RemainderOf(k - 1, t);
      assert len - first == BatchSize * (k - 1) + t;
    }
  }

  /** The row that completes `i + 1` rows closes a batch exactly when that count is a boundary. */
  lemma BoundaryStep(i: nat, k: nat, first: nat)
    requires first > 0
    requires BatchEnd(k, first, BatchSize) <= i < BatchEnd(k + 1, first, BatchSize)
    ensures IsBoundary(i + 1, first) <==> i + 1 == BatchEnd(k + 1, first, BatchSize)
  {
    BatchEndNext(k, first, BatchSize);
    BatchEndNext(k + 1, first, BatchSize);
    if i + 1 == BatchEnd(k + 1, first, BatchSize) {
      BoundaryBetween(i + 1, k + 1, first);
    } else {
      BoundaryBetween(i + 1, k, first);
    }
  }

  /** The vertex loop's test `i % batch_size == 0` is the boundary test for VertexFirst. */
  lemma VertexFlushTest(i: nat)
    ensures i % BatchSize == 0 <==> IsBoundary(i + 1, VertexFirst)
  {
  }

  /** The edge loop's test `size % batch_size == 0`, after the increment, is the boundary test for EdgeFirst. */
  lemma EdgeFlushTest(size: nat)
    requires size > 0
    ensures size % BatchSize == 0 <==> IsBoundary(size, EdgeFirst)
  {
    if size > EdgeFirst {
      RemainderOf(size / BatchSize - 1, size % BatchSize);
    }
  }

  // ---------------------------------------------------------------------------
  // load_db: the loops

  /** The buffer between flushes: the rows since boundary k, each followed by ", ". */
  predicate Buffered(prefix: string, rows: seq<string>, first: nat, i: nat, query: string, k: nat)
  {
    BatchEnd(k, first, BatchSize) <= i < BatchEnd(k + 1, first, BatchSize) &&
    i <= |rows| &&
    query == prefix + Terminated(rows[BatchEnd(k, first, BatchSize)..i], ", ")
  }

  /**
   * A fail-fast insert loop before row i: the buffer as above, the statements
   * of the completed batches sent and accepted after `prior`, and all of this
   * loop's statements part of the schedule after `prior`.
   */
  predicate Sending(prefix: string, rows: seq<string>, first: nat, i: nat, query: string, k: nat,
                    prior: seq<string>, schedule: seq<string>, sent: seq<string>, accept: Verdict)
  {
    first > 0 && Buffered(prefix, rows, first, i, query, k) &&
    prior + Insertions(prefix, rows, first) <= schedule &&
    sent == prior + Insertions(prefix, rows[..BatchEnd(k, first, BatchSize)], first) &&
    AllAccepted(sent, accept)
  }

  /** At a boundary the buffer is the bare prefix. */
  lemma EmptyBuffer(prefix: string, rows: seq<string>, first: nat, i: nat, k: nat)
    requires first > 0 && i == BatchEnd(k, first, BatchSize) && i <= |rows|
    ensures Buffered(prefix, rows, first, i, prefix, k)
  {
    BatchEndNext(k, first, BatchSize);
    assert rows[i..i] == [];
  }

  lemma AppendStep(prefix: string, rows: seq<string>, first: nat, i: nat, query: string, k: nat)
    requires i < |rows| && Buffered(prefix, rows, first, i, query, k)
    requires i + 1 != BatchEnd(k + 1, first, BatchSize)
    ensures Buffered(prefix, rows, first, i + 1, query + rows[i] + ", ", k)
  {
    BufferPush(prefix, rows, BatchEnd(k, first, BatchSize), i, query, ", ");
  }

  /** The row that ends a batch: popping the ", " gives the batch's statement, the next of the schedule. */
  lemma FlushStep(prefix: string, rows: seq<string>, first: nat, i: nat, query: string, k: nat,
                  prior: seq<string>, schedule: seq<string>, sent: seq<string>)
    requires first > 0 && i < |rows| && Buffered(prefix, rows, first, i, query, k)
    requires i + 1 == BatchEnd(k + 1, first, BatchSize)
    requires prior + Insertions(prefix, rows, first) <= schedule
    requires sent == prior + Insertions(prefix, rows[..BatchEnd(k, first, BatchSize)], first)
    ensures var q := query + rows[i] + ", ";
      |q| >= 2 &&
      sent + [Drop2(q)] == prior + Insertions(prefix, rows[..BatchEnd(k + 1, first, BatchSize)], first) &&
      sent + [Drop2(q)] <= schedule
  {
    var m := BatchEnd(k, first, BatchSize);
    BufferPush(prefix, rows, m, i, query, ", ");
    DropSeparator(prefix, rows[m..i + 1]);
    assert Drop2(query + rows[i] + ", ") == Statement(prefix)(rows[m..i + 1]);
    NextBatch(Statement(prefix), rows, k, first, BatchSize, prior, schedule, sent, rows[m..i + 1]);
  }

  /**
   * One iteration of an insert loop: append the row and ", "; when the
   * caller's flush test holds, pop the ", ", send the statement (a rejection
   * ends the run) and start over from the prefix.
   */
  method PushRow(prefix: string, first: nat, ghost rows: seq<string>, i: nat, row: string, flush: bool,
                 query: string, ghost k: nat, ghost prior: seq<string>, ghost schedule: seq<string>,
                 sent: seq<string>, accept: Verdict)
    returns (query': string, ghost k': nat, sent': seq<string>, stopped: bool)
    requires i < |rows| && row == rows[i] && (flush <==> IsBoundary(i + 1, first))
    requires Sending(prefix, rows, first, i, query, k, prior, schedule, sent, accept)
    ensures stopped ==> FirstRejection(schedule, accept).Some? && sent' == FailFast(schedule, accept)
    ensures !stopped ==> Sending(prefix, rows, first, i + 1, query', k', prior, schedule, sent', accept)
  {
    var q := query + row + ", ";
    BoundaryStep(i, k, first);
    if flush {
      FlushStep(prefix, rows, first, i, query, k, prior, schedule, sent);
      EmptyBuffer(prefix, rows, first, i + 1, k + 1);
      sent', stopped := Execute(schedule, sent, Drop2(q), accept);
      query', k' := prefix, k + 1;
    } else {
      AppendStep(prefix, rows, first, i, query, k);
      query', k', sent', stopped := q, k, sent, false;
    }
  }

  /**
   * After the loop the buffer is the prefix followed by the pending rows; as
   * written it is always flushed: with rows pending that is the last batch's
   * statement, without it is the prefix with two characters popped.
   */
  lemma FinishStep(prefix: string, rows: seq<string>, first: nat, query: string, k: nat,
                   prior: seq<string>, sent: seq<string>)
    requires first > 0 && |prefix| >= 2
    requires Buffered(prefix, rows, first, |rows|, query, k)
    requires sent == prior + Insertions(prefix, rows[..BatchEnd(k, first, BatchSize)], first)
    ensures |query| >= |prefix| >= 2
    ensures |query| > |prefix| <==> BatchEnd(k, first, BatchSize) < |rows|
    ensures |query| > |prefix| ==> sent + [Drop2(query)] == prior + Insertions(prefix, rows, first)
    ensures |query| == |prefix| ==> sent == prior + Insertions(prefix, rows, first) && query == prefix
    ensures sent + [Drop2(query)] == prior + AsWrittenInsertions(prefix, rows, first)
  {
    var m := BatchEnd(k, first, BatchSize);
    BoundaryBetween(|rows|, k, first);
    if m == |rows| {
      assert rows[m..|rows|] == [];
      assert query == prefix;
      NoLastCommand(Statement(prefix), rows, k, first, BatchSize, prior, sent);
    } else {
      assert rows[m..|rows|] == rows[m..];
      DropSeparator(prefix, rows[m..]);
      assert Drop2(query) == Statement(prefix)(rows[m..]);
      LastCommand(Statement(prefix), rows, k, first, BatchSize, prior, sent);
    }
  }

  /** The final flush as written: `query.size() > 0` always holds, so the buffer is sent in every case. */
  method FlushRest(prefix: string, first: nat, ghost rows: seq<string>, ghost end: nat, query: string, ghost k: nat,
                   ghost prior: seq<string>, ghost schedule: seq<string>, sent: seq<string>, accept: Verdict)
    returns (sent': seq<string>, stopped: bool)
    requires |prefix| >= 2 && end == |rows|
    requires Sending(prefix, rows, first, end, query, k, prior, schedule, sent, accept)
    requires prior + AsWrittenInsertions(prefix, rows, first) <= schedule
    ensures stopped ==> FirstRejection(schedule, accept).Some? && sent' == FailFast(schedule, accept)
    ensures !stopped ==> sent' == prior + AsWrittenInsertions(prefix, rows, first) && AllAccepted(sent', accept)
  {
    FinishStep(prefix, rows, first, query, k, prior, sent);
    sent', stopped := Execute(schedule, sent, Drop2(query), accept);
  }

  /** The final flush as intended: sent only when rows are pending. */
  method FlushPending(prefix: string, first: nat, ghost rows: seq<string>, ghost end: nat, query: string, ghost k: nat,
                      ghost prior: seq<string>, ghost schedule: seq<string>, sent: seq<string>, accept: Verdict)
    returns (sent': seq<string>, stopped: bool)
    requires |prefix| >= 2 && end == |rows|
    requires Sending(prefix, rows, first, end, query, k, prior, schedule, sent, accept)
    ensures stopped ==> FirstRejection(schedule, accept).Some? && sent' == FailFast(schedule, accept)
    ensures !stopped ==> sent' == prior + Insertions(prefix, rows, first) && AllAccepted(sent', accept)
  {
    FinishStep(prefix, rows, first, query, k, prior, sent);
    if |query| > |prefix| {
      sent', stopped := Execute(schedule, sent, Drop2(query), accept);
    } else {
      sent', stopped := sent, false;
    }
  }

  lemma StartRows(prefix: string, rows: seq<string>, first: nat, schedule: seq<string>, sent: seq<string>, accept: Verdict)
    requires first > 0 && sent + Insertions(prefix, rows, first) <= schedule && AllAccepted(sent, accept)
    ensures Sending(prefix, rows, first, 0, prefix, 0, sent, schedule, sent, accept)
  {
    assert rows[0..0] == [] && rows[..0] == [];
  }

  /** The vertex loop: ids 0 .. vertex_count - 1, flushing after every index divisible by 256. */
  method InsertVertices(prefix: string, vertexCount: int, ghost schedule: seq<string>, sent: seq<string>, accept: Verdict)
    returns (query: string, ghost k: nat, sent': seq<string>, stopped: bool)
    requires sent + Insertions(prefix, VertexRows(vertexCount), VertexFirst) <= schedule && AllAccepted(sent, accept)
    ensures stopped ==> FirstRejection(schedule, accept).Some? && sent' == FailFast(schedule, accept)
    ensures !stopped ==> Sending(prefix, VertexRows(vertexCount), VertexFirst, Runs(vertexCount), query, k,
                                 sent, schedule, sent', accept)
  {
    ghost var rows := VertexRows(vertexCount);
    query, k, sent', stopped := prefix, 0, sent, false;
    StartRows(prefix, rows, VertexFirst, schedule, sent, accept);
    var i := 0;
    while i < vertexCount
      invariant 0 <= i <= Runs(vertexCount)
      invariant Sending(prefix, rows, VertexFirst, i, query, k, sent, schedule, sent', accept)
    {
      var flush := i % BatchSize == 0;
      VertexFlushTest(i);
      query, k, sent', stopped := PushRow(prefix, VertexFirst, rows, i, VertexRow(i), flush, query, k,
                                          sent, schedule, sent', accept);
      if stopped {
        return;
      }
      i := i + 1;
    }
  }

  /** The edge loop over the rendered edges, in file order, flushing every 256 rows. */
  method InsertEdges(prefix: string, rows: seq<string>, ghost schedule: seq<string>, sent: seq<string>, accept: Verdict)
    returns (query: string, ghost k: nat, sent': seq<string>, stopped: bool)
    requires |rows| <= IntMax
    requires sent + Insertions(prefix, rows, EdgeFirst) <= schedule && AllAccepted(sent, accept)
    ensures stopped ==> FirstRejection(schedule, accept).Some? && sent' == FailFast(schedule, accept)
    ensures !stopped ==> Sending(prefix, rows, EdgeFirst, |rows|, query, k, sent, schedule, sent', accept)
  {
    query, k, sent', stopped := prefix, 0, sent, false;
    StartRows(prefix, rows, EdgeFirst, schedule, sent, accept);
    var size := 0;
    var i := 0;
    while i < |rows|
      invariant 0 <= i <= |rows| && size == i
      invariant Sending(prefix, rows, EdgeFirst, i, query, k, sent, schedule, sent', accept)
    {
      size := size + 1;
      var flush := size % BatchSize == 0;
      EdgeFlushTest(size);
      query, k, sent', stopped := PushRow(prefix, EdgeFirst, rows, i, rows[i], flush, query, k,
                                          sent, schedule, sent', accept);
      if stopped {
        return;
      }
      i := i + 1;
    }
  }

  lemma AsWrittenExtends(prefix: string, rows: seq<string>, first: nat, prior: seq<string>, schedule: seq<string>)
    requires first > 0 && |prefix| >= 2
    requires prior + AsWrittenInsertions(prefix, rows, first) <= schedule
    ensures prior + Insertions(prefix, rows, first) <= schedule
  {
    assert prior + AsWrittenInsertions(prefix, rows, first) ==
      (prior + Insertions(prefix, rows, first)) + (if IsBoundary(|rows|, first) then [Drop2(prefix)] else []);
  }

  lemma PrefixesLongEnough(ds: string)
    ensures |VertexPrefix(ds)| >= 2 && |EdgePrefix(ds)| >= 2
  {
  }

  /** Phase 3 as written: the vertex loop and its unconditional flush. */
  method LoadVertices(ds: string, vertexCount: int, ghost schedule: seq<string>, sent: seq<string>, accept: Verdict)
    returns (sent': seq<string>, stopped: bool)
    requires sent + AsWrittenInsertions(VertexPrefix(ds), VertexRows(vertexCount), VertexFirst) <= schedule
    requires AllAccepted(sent, accept)
    ensures stopped ==> FirstRejection(schedule, accept).Some? && sent' == FailFast(schedule, accept)
    ensures !stopped ==> sent' == sent + AsWrittenInsertions(VertexPrefix(ds), VertexRows(vertexCount), VertexFirst)
    ensures !stopped ==> AllAccepted(sent', accept)
  {
    PrefixesLongEnough(ds);
    AsWrittenExtends(VertexPrefix(ds), VertexRows(vertexCount), VertexFirst, sent, schedule);
    var query;
    ghost var k;
    query, k, sent', stopped := InsertVertices(VertexPrefix(ds), vertexCount, schedule, sent, accept);
    if !stopped {
      sent', stopped := FlushRest(VertexPrefix(ds), VertexFirst, VertexRows(vertexCount), Runs(vertexCount), query, k,
                                  sent, schedule, sent', accept);
    }
  }

  /** Phase 4 as written: the edge loop and its unconditional flush. */
  method LoadEdges(ds: string, edges: seq<(int, int)>, ghost schedule: seq<string>, sent: seq<string>, accept: Verdict)
    returns (sent': seq<string>, stopped: bool)
    requires |edges| <= IntMax
    requires sent + AsWrittenInsertions(EdgePrefix(ds), EdgeRows(edges), EdgeFirst) <= schedule
    requires AllAccepted(sent, accept)
    ensures stopped ==> FirstRejection(schedule, accept).Some? && sent' == FailFast(schedule, accept)
    ensures !stopped ==> sent' == sent + AsWrittenInsertions(EdgePrefix(ds), EdgeRows(edges), EdgeFirst)
    ensures !stopped ==> AllAccepted(sent', accept)
  {
    PrefixesLongEnough(ds);
    var rows := EdgeRows(edges);
    AsWrittenExtends(EdgePrefix(ds), rows, EdgeFirst, sent, schedule);
    var query;
    ghost var k;
    query, k, sent', stopped := InsertEdges(EdgePrefix(ds), rows, schedule, sent, accept);
    if !stopped {
      sent', stopped := FlushRest(EdgePrefix(ds), EdgeFirst, rows, |rows|, query, k, sent, schedule, sent', accept);
    }
  }

  /** Phase 3 as intended: the vertex loop, then the pending rows if any. */
  method LoadVerticesFixed(ds: string, vertexCount: int, ghost schedule: seq<string>, sent: seq<string>, accept: Verdict)
    returns (sent': seq<string>, stopped: bool)
    requires sent + Insertions(VertexPrefix(ds), VertexRows(vertexCount), VertexFirst) <= schedule
    requires AllAccepted(sent, accept)
    ensures stopped ==> FirstRejection(schedule, accept).Some? && sent' == FailFast(schedule, accept)
    ensures !stopped ==> sent' == sent + Insertions(VertexPrefix(ds), VertexRows(vertexCount), VertexFirst)
    ensures !stopped ==> AllAccepted(sent', accept)
  {
    PrefixesLongEnough(ds);
    var query;
    ghost var k;
    query, k, sent', stopped := InsertVertices(VertexPrefix(ds), vertexCount, schedule, sent, accept);
    if !stopped {
      sent', stopped := FlushPending(VertexPrefix(ds), VertexFirst, VertexRows(vertexCount), Runs(vertexCount), query, k,
                                     sent, schedule, sent', accept);
    }
  }

  /** Phase 4 as intended: the edge loop, then the pending rows if any. */
  method LoadEdgesFixed(ds: string, edges: seq<(int, int)>, ghost schedule: seq<string>, sent: seq<string>, accept: Verdict)
    returns (sent': seq<string>, stopped: bool)
    requires |edges| <= IntMax
    requires sent + Insertions(EdgePrefix(ds), EdgeRows(edges), EdgeFirst) <= schedule
    requires AllAccepted(sent, accept)
    ensures stopped ==> FirstRejection(schedule, accept).Some? && sent' == FailFast(schedule, accept)
    ensures !stopped ==> sent' == sent + Insertions(EdgePrefix(ds), EdgeRows(edges), EdgeFirst)
    ensures !stopped ==> AllAccepted(sent', accept)
  {
    PrefixesLongEnough(ds);
    var rows := EdgeRows(edges);
    var query;
    ghost var k;
    query, k, sent', stopped := InsertEdges(EdgePrefix(ds), rows, schedule, sent, accept);
    if !stopped {
      sent', stopped := FlushPending(EdgePrefix(ds), EdgeFirst, rows, |rows|, query, k, sent, schedule, sent', accept);
    }
  }

  /**
   * How a schedule of two statements, two insert phases and two statements
   * splits into the steps of load_db, each fact in the form the step needs.
   */
  lemma ScheduleShape(a: string, b: string, vs: seq<string>, es: seq<string>, c: string, d: string,
                      schedule: seq<string>)
    requires schedule == [a, b] + vs + es + [c, d]
    ensures [] + [a] <= schedule
    ensures ([] + [a]) + [b] <= schedule
    ensures (([] + [a]) + [b]) + vs <= schedule
    ensures ((([] + [a]) + [b]) + vs) + es <= schedule
    ensures (((([] + [a]) + [b]) + vs) + es) + [c] <= schedule
    ensures ((((([] + [a]) + [b]) + vs) + es) + [c]) + [d] == schedule
  {
    assert ((((([] + [a]) + [b]) + vs) + es) + [c]) + [d] == [a, b] + vs + es + [c, d];
  }

  /**
   * load_db over an already-read edge list: the statements sent are the
   * schedule up to and including the first one the store rejects, and `ok`
   * says whether the whole schedule went through.
   */
  method LoadDb(ds: string, vertexCount: int, edges: seq<(int, int)>, accept: Verdict)
    returns (sent: seq<string>, ok: bool)
    requires |edges| <= IntMax
    ensures sent == FailFast(LoadSchedule(ds, vertexCount, edges), accept)
    ensures ok <==> FirstRejection(LoadSchedule(ds, vertexCount, edges), accept).None?
  {
    PrefixesLongEnough(ds);
    ghost var schedule := LoadSchedule(ds, vertexCount, edges);
    ghost var vs := AsWrittenInsertions(VertexPrefix(ds), VertexRows(vertexCount), VertexFirst);
    ghost var es := AsWrittenInsertions(EdgePrefix(ds), EdgeRows(edges), EdgeFirst);
    ScheduleShape(CreateVertexTable(ds), CreateEdgeTable(ds), vs, es, CreateVertexIndex(ds), CreateEdgeIndex(ds),
                  schedule);
    var stopped;
    sent, stopped := Execute(schedule, [], CreateVertexTable(ds), accept);
    if stopped {
      return sent, false;
    }
    sent, stopped := Execute(schedule, sent, CreateEdgeTable(ds), accept);
    if stopped {
      return sent, false;
    }
    sent, stopped := LoadVertices(ds, vertexCount, schedule, sent, accept);
    if stopped {
      return sent, false;
    }
    sent, stopped := LoadEdges(ds, edges, schedule, sent, accept);
    if stopped {
      return sent, false;
    }
    sent, stopped := Execute(schedule, sent, CreateVertexIndex(ds), accept);
    if stopped {
      return sent, false;
    }
    sent, stopped := Execute(schedule, sent, CreateEdgeIndex(ds), accept);
    if stopped {
      return sent, false;
    }
    Completed(schedule, accept);
    ok := true;
  }

  /** load_db with the final flushes guarded by "rows are pending". */
  method LoadDbFixed(ds: string, vertexCount: int, edges: seq<(int, int)>, accept: Verdict)
    returns (sent: seq<string>, ok: bool)
    requires |edges| <= IntMax
    ensures sent == FailFast(IntendedSchedule(ds, vertexCount, edges), accept)
    ensures ok <==> FirstRejection(IntendedSchedule(ds, vertexCount, edges), accept).None?
  {
    ghost var schedule := IntendedSchedule(ds, vertexCount, edges);
    ghost var vs := Insertions(VertexPrefix(ds), VertexRows(vertexCount), VertexFirst);
    ghost var es := Insertions(EdgePrefix(ds), EdgeRows(edges), EdgeFirst);
    ScheduleShape(CreateVertexTable(ds), CreateEdgeTable(ds), vs, es, CreateVertexIndex(ds), CreateEdgeIndex(ds),
                  schedule);
    var stopped;
    sent, stopped := Execute(schedule, [], CreateVertexTable(ds), accept);
    if stopped {
      return sent, false;
    }
    sent, stopped := Execute(schedule, sent, CreateEdgeTable(ds), accept);
    if stopped {
      return sent, false;
    }
    sent, stopped := LoadVerticesFixed(ds, vertexCount, schedule, sent, accept);
    if stopped {
      return sent, false;
    }
    sent, stopped := LoadEdgesFixed(ds, edges, schedule, sent, accept);
    if stopped {
      return sent, false;
    }
    sent, stopped := Execute(schedule, sent, CreateVertexIndex(ds), accept);
    if stopped {
      return sent, false;
    }
    sent, stopped := Execute(schedule, sent, CreateEdgeIndex(ds), accept);
    if stopped {
      return sent, false;
    }
    Completed(schedule, accept);
    ok := true;
  }

  // ---------------------------------------------------------------------------
  // load_db: what the schedule inserts

  /**
   * The intended statements of a loop are one per batch, each the prefix and
   * a non-empty batch; the batches rejoin to the rows, so every row is
   * inserted once, in order.
   */
  lemma InsertionsCarryRows(prefix: string, rows: seq<string>, first: nat)
    requires first > 0
    ensures |Insertions(prefix, rows, first)| == |Lead(rows, first, BatchSize)|
    ensures forall j :: 0 <= j < |Insertions(prefix, rows, first)| ==>
      Insertions(prefix, rows, first)[j] == prefix + Join(Lead(rows, first, BatchSize)[j], ", ") &&
      |Lead(rows, first, BatchSize)[j]| > 0
    ensures Flatten(Lead(rows, first, BatchSize)) == rows
  {
    FlattenLead(rows, first, BatchSize);
    LeadSizes(rows, first, BatchSize);
  }

  /** As written, a loop sends one statement more than its batches exactly when no rows are pending at the end. */
  lemma AsWrittenExtraStatement(prefix: string, rows: seq<string>, first: nat)
    requires first > 0 && |prefix| >= 2
    ensures IsBoundary(|rows|, first) ==>
      AsWrittenInsertions(prefix, rows, first) == Insertions(prefix, rows, first) + [Drop2(prefix)]
    ensures !IsBoundary(|rows|, first) ==> AsWrittenInsertions(prefix, rows, first) == Insertions(prefix, rows, first)
    ensures forall batch :: Drop2(prefix) != Statement(prefix)(batch)
  {
    forall batch ensures Drop2(prefix) != Statement(prefix)(batch) {
      assert |Drop2(prefix)| < |prefix| <= |Statement(prefix)(batch)|;
    }
  }

  /** The vertex loop ends with nothing pending when vertex_count <= 1 or vertex_count - 1 is a multiple of 256. */
  lemma VertexEmptyFlush(vertexCount: int)
    ensures IsBoundary(Runs(vertexCount), VertexFirst) <==> vertexCount <= 1 || (vertexCount - 1) % BatchSize == 0
  {
  }

  /** The edge loop ends with nothing pending when the edge count is a multiple of 256 (zero included). */
  lemma EdgeEmptyFlush(edges: seq<(int, int)>)
    ensures IsBoundary(|EdgeRows(edges)|, EdgeFirst) <==> |edges| % BatchSize == 0
  {
    if |edges| > 0 {
      EdgeFlushTest(|edges|);
    }
  }

  lemma VertexRowZero()
    ensures VertexRow(0) == "(0)"
  {
    assert DigitChar(0) == '0';
    assert NatToDec(0) == ['0'];
    assert "(" + ['0'] + ")" == "(0)";
  }

  /**
   * One vertex: id 0 is sent alone, and then the empty flush sends the
   * vertex prefix without its last two characters, "... VALUE".
   */
  lemma OneVertexSendsTruncatedInsert(ds: string, edges: seq<(int, int)>)
    ensures LoadSchedule(ds, 1, edges)[2..4] ==
      ["INSERT INTO " + ds + "_vertex VALUES (0)", "INSERT INTO " + ds + "_vertex VALUE"]
  {
    var vp := VertexPrefix(ds);
    OneVertexInsertion(vp);
    var vs := AsWrittenInsertions(vp, VertexRows(1), VertexFirst);
    assert vs == [vp + "(0)", Drop2(vp)];
    SchedulePieces(CreateVertexTable(ds), CreateEdgeTable(ds), vs,
                   AsWrittenInsertions(EdgePrefix(ds), EdgeRows(edges), EdgeFirst),
                   [CreateVertexIndex(ds), CreateEdgeIndex(ds)]);
    VertexStatementText(ds);
  }

  /** The intended schedule for one vertex sends its single insert and goes on to the edges. */
  lemma OneVertexIntended(ds: string, edges: seq<(int, int)>)
    ensures IntendedSchedule(ds, 1, edges)[2] == "INSERT INTO " + ds + "_vertex VALUES (0)"
    ensures IntendedSchedule(ds, 1, edges)[3..] ==
      Insertions(EdgePrefix(ds), EdgeRows(edges), EdgeFirst) + [CreateVertexIndex(ds), CreateEdgeIndex(ds)]
  {
    var vp := VertexPrefix(ds);
    OneVertexInsertion(vp);
    SchedulePieces(CreateVertexTable(ds), CreateEdgeTable(ds), Insertions(vp, VertexRows(1), VertexFirst),
                   Insertions(EdgePrefix(ds), EdgeRows(edges), EdgeFirst),
                   [CreateVertexIndex(ds), CreateEdgeIndex(ds)]);
    VertexStatementText(ds);
  }

  /** The vertex statement for id 0, and the prefix with its last two characters cut. */
  lemma VertexStatementText(ds: string)
    ensures VertexPrefix(ds) + "(0)" == "INSERT INTO " + ds + "_vertex VALUES (0)"
    ensures Drop2(VertexPrefix(ds)) == "INSERT INTO " + ds + "_vertex VALUE"
  {
    var vp := VertexPrefix(ds);
    assert vp + "(0)" == "INSERT INTO " + ds + "_vertex VALUES (0)";
    assert Drop2(vp) == "INSERT INTO " + ds + "_vertex VALUE";
  }

  /** With one vertex the loop's only batch is id 0. */
  lemma OneVertexInsertion(prefix: string)
    ensures Insertions(prefix, VertexRows(1), VertexFirst) == [prefix + "(0)"]
    ensures IsBoundary(|VertexRows(1)|, VertexFirst)
  {
    var rows := VertexRows(1);
    VertexRowZero();
    assert rows == ["(0)"];
    assert Lead(rows, VertexFirst, BatchSize) == [rows];
    assert Join(rows, ", ") == "(0)";
  }

  lemma SchedulePieces(a: string, b: string, vs: seq<string>, es: seq<string>, tail: seq<string>)
    ensures ([a, b] + vs + es + tail)[2..2 + |vs|] == vs
    ensures ([a, b] + vs + es + tail)[2 + |vs|..] == es + tail
  {
  }

  // ---------------------------------------------------------------------------
  // test_rw_workload

  function ReadQuery(ds: string, id: int): string
  {
    "SELECT COUNT(*) FROM " + ds + "_edge WHERE src = " + IntToDec(id)
  }

  function WriteQuery(ds: string, src: int, dst: int): string
  {
    "INSERT INTO " + ds + "_edge VALUES (" + IntToDec(src) + ", " + IntToDec(dst) + ")"
  }

  /** The statement one operation sends: ids are `rand() % vertex_count`, one draw for a read, two for a write. */
  function OpQuery(ds: string, vertexCount: int, op: Op, draw: (nat, nat)): string
    requires vertexCount != 0
  {
    match op
    case Read => ReadQuery(ds, CRem(draw.0, vertexCount))
    case Write => WriteQuery(ds, CRem(draw.0, vertexCount), CRem(draw.1, vertexCount))
  }

  /** Every statement the workload sends when the store accepts them all: one per operation. */
  function WorkloadSchedule(ds: string, vertexCount: int, ops: seq<Op>, draws: seq<(nat, nat)>): (r: seq<string>)
    requires vertexCount != 0 && |draws| == |ops|
    ensures |r| == |ops|
    ensures forall i :: 0 <= i < |ops| ==> r[i] == OpQuery(ds, vertexCount, ops[i], draws[i])
  {
    seq(|ops|, i requires 0 <= i < |ops| => OpQuery(ds, vertexCount, ops[i], draws[i]))
  }

  /**
   * Every statement is a read of one vertex or an insert of one edge, as its
   * tag says, with every sampled id in [0, |vertex_count|).
   */
  lemma WorkloadSamplesInRange(ds: string, vertexCount: int, ops: seq<Op>, draws: seq<(nat, nat)>, i: nat)
    requires vertexCount != 0 && |draws| == |ops| && i < |ops|
    ensures var q := WorkloadSchedule(ds, vertexCount, ops, draws)[i];
      if ops[i] == Read then
        exists v :: 0 <= v < Abs(vertexCount) && q == ReadQuery(ds, v)
      else
        exists s, d :: 0 <= s < Abs(vertexCount) && 0 <= d < Abs(vertexCount) && q == WriteQuery(ds, s, d)
  {
    var s := CRem(draws[i].0, vertexCount);
    var d := CRem(draws[i].1, vertexCount);
    if ops[i] == Read {
      assert WorkloadSchedule(ds, vertexCount, ops, draws)[i] == ReadQuery(ds, s);
    } else {
      assert WorkloadSchedule(ds, vertexCount, ops, draws)[i] == WriteQuery(ds, s, d);
    }
  }

  /**
   * The dispatch loop before operation i: the first i statements of the
   * schedule sent and accepted, and the latency of each in its kind's vector.
   */
  predicate Dispatching(ops: seq<Op>, lats: seq<int>, i: nat, schedule: seq<string>,
                        sent: seq<string>, readTimes: seq<int>, writeTimes: seq<int>, accept: Verdict)
  {
    |lats| == |ops| && |schedule| == |ops| && i <= |ops| &&
    sent == schedule[..i] && AllAccepted(sent, accept) &&
    readTimes == Durations(ops[..i], lats[..i], Read) &&
    writeTimes == Durations(ops[..i], lats[..i], Write)
  }

  lemma TakeSnoc<T>(s: seq<T>, i: nat)
    requires i < |s|
    ensures s[..i + 1] == s[..i] + [s[i]]
  {
  }

  /**
   * One operation: sample its ids, send its statement, push its latency onto
   * its kind's vector, and end the run if the store rejected the statement
   * (the latency is pushed before the error check).
   */
  method DispatchOne(ds: string, vertexCount: int, ghost ops: seq<Op>, ghost lats: seq<int>, i: nat,
                     op: Op, draw: (nat, nat), lat: int,
                     ghost schedule: seq<string>, sent: seq<string>, readTimes: seq<int>, writeTimes: seq<int>,
                     accept: Verdict)
    returns (sent': seq<string>, readTimes': seq<int>, writeTimes': seq<int>, stopped: bool)
    requires vertexCount != 0
    requires Dispatching(ops, lats, i, schedule, sent, readTimes, writeTimes, accept)
    requires i < |ops| && op == ops[i] && lat == lats[i] && schedule[i] == OpQuery(ds, vertexCount, op, draw)
    ensures |sent'| == i + 1
    ensures readTimes' == Durations(ops[..i + 1], lats[..i + 1], Read)
    ensures writeTimes' == Durations(ops[..i + 1], lats[..i + 1], Write)
    ensures stopped ==> FirstRejection(schedule, accept).Some? && sent' == FailFast(schedule, accept)
    ensures !stopped ==> Dispatching(ops, lats, i + 1, schedule, sent', readTimes', writeTimes', accept)
  {
    var cmd := OpQuery(ds, vertexCount, op, draw);
    TakeSnoc(schedule, i);
    sent', stopped := Execute(schedule, sent, cmd, accept);
    TakeSnoc(ops, i);
    TakeSnoc(lats, i);
    DurationsSnoc(ops[..i], lats[..i], Read, op, lat);
    DurationsSnoc(ops[..i], lats[..i], Write, op, lat);
    if op == Read {
      readTimes', writeTimes' := readTimes + [lat], writeTimes;
    } else {
      readTimes', writeTimes' := readTimes, writeTimes + [lat];
    }
  }

  /**
   * The dispatch loop of test_rw_workload: the statements sent are those of
   * the schedule up to and including the first rejection, and the latency
   * vectors hold one entry per statement sent, by kind.
   */
  method RunOps(ds: string, vertexCount: int, ops: seq<Op>, draws: seq<(nat, nat)>, lats: seq<int>, accept: Verdict)
    returns (sent: seq<string>, readTimes: seq<int>, writeTimes: seq<int>, ok: bool)
    requires vertexCount != 0 && |draws| == |ops| && |lats| == |ops|
    ensures sent == FailFast(WorkloadSchedule(ds, vertexCount, ops, draws), accept)
    ensures ok <==> FirstRejection(WorkloadSchedule(ds, vertexCount, ops, draws), accept).None?
    ensures |sent| <= |ops|
    ensures readTimes == Durations(ops[..|sent|], lats[..|sent|], Read)
    ensures writeTimes == Durations(ops[..|sent|], lats[..|sent|], Write)
  {
    ghost var schedule := WorkloadSchedule(ds, vertexCount, ops, draws);
    sent, readTimes, writeTimes := [], [], [];
    assert ops[..0] == [] && lats[..0] == [] && schedule[..0] == [];
    var i := 0;
    while i < |ops|
      invariant Dispatching(ops, lats, i, schedule, sent, readTimes, writeTimes, accept)
      invariant |sent| == i
    {
      var stopped;
      sent, readTimes, writeTimes, stopped := DispatchOne(ds, vertexCount, ops, lats, i, ops[i], draws[i], lats[i],
                                                          schedule, sent, readTimes, writeTimes, accept);
      if stopped {
        return sent, readTimes, writeTimes, false;
      }
      i := i + 1;
    }
    assert schedule[..i] == schedule && ops[..i] == ops && lats[..i] == lats;
    Completed(schedule, accept);
    ok := true;
  }

  /**
   * test_rw_workload with the shuffle's picks, the draws of every operation
   * and its measured latency as inputs: 100000 reads and 100000 writes are
   * shuffled and dispatched, and the two averages are reported only when
   * every statement went through.
   */
  method TestRwWorkload(ds: string, vertexCount: int, picks: seq<nat>, draws: seq<(nat, nat)>, lats: seq<int>,
                        accept: Verdict)
    returns (ops: seq<Op>, sent: seq<string>, readTimes: seq<int>, writeTimes: seq<int>,
             readMean: Option<nat>, writeMean: Option<nat>)
    requires vertexCount != 0
    requires |picks| == ReadOps + WriteOps && |draws| == ReadOps + WriteOps && |lats| == ReadOps + WriteOps
    ensures ops == SwapPass(TagLayout(ReadOps, WriteOps), picks)
    ensures |ops| == ReadOps + WriteOps && CountOf(ops, Read) == ReadOps && CountOf(ops, Write) == WriteOps
    ensures sent == FailFast(WorkloadSchedule(ds, vertexCount, ops, draws), accept)
    ensures readTimes == Durations(ops[..|sent|], lats[..|sent|], Read)
    ensures writeTimes == Durations(ops[..|sent|], lats[..|sent|], Write)
    ensures FirstRejection(WorkloadSchedule(ds, vertexCount, ops, draws), accept).Some? ==>
      readMean.None? && writeMean.None?
    ensures FirstRejection(WorkloadSchedule(ds, vertexCount, ops, draws), accept).None? ==>
      |readTimes| == ReadOps && |writeTimes| == WriteOps &&
      readMean == UnsignedMean(readTimes) && writeMean == UnsignedMean(writeTimes) &&
      readMean.Some? && writeMean.Some?
  {
    ops := ShuffledTags(ReadOps, WriteOps, picks);
    var ok;
    sent, readTimes, writeTimes, ok := RunOps(ds, vertexCount, ops, draws, lats, accept);
    if ok {
      WholeSlice(ops, |sent|);
      WholeSlice(lats, |sent|);
      readMean := UnsignedMean(readTimes);
      writeMean := UnsignedMean(writeTimes);
    } else {
      readMean, writeMean := None, None;
    }
  }
}
