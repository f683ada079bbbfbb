/**
 * The Umbra/Postgres client. `load_db` creates the vertex table and its
 * index, inserts the ids 0 .. vertex_count - 1, then creates the edge table
 * and its index and inserts the edge list; rows go out in statements of
 * 1025 rows first and 1024 after that. A failing statement is only
 * reported: every statement is sent whatever the store answers.
 * `test_rw_workload` dispatches 500 shuffled reads and writes and reports
 * the unsigned average latency of each kind.
 */
module UmbraSql {
  import opened Wrappers
  import opened Text
  import opened Batching
  import opened Store
  import opened Workload
  import opened Shuffle

  const MaxBatchSize: nat := 1024

  /**
   * Rows in the first insert statement: the flush test `i != 0 && i % 1024 == 0`
   * first holds after index 1024, so indices 0 .. 1024 go together.
   */
  const FirstBatch: nat := 1025

  const WorkloadSize: nat := 500

  /** The most iterations a loop over a C `int` index can make before the index overflows. */
  const IntMax: nat := 0x7fff_ffff

  // ---------------------------------------------------------------------------
  // load_db: the statements

  function CreateVertexTable(ds: string): string
  {
    "CREATE TABLE " + ds + "_V (id INT);"
  }

  function CreateVertexIndex(ds: string): string
  {
    "CREATE INDEX " + ds + "_V_id ON " + ds + "_V (id);"
  }

  function CreateEdgeTable(ds: string): string
  {
    "CREATE TABLE " + ds + "_E (src INT, dst INT);"
  }

  function CreateEdgeIndex(ds: string): string
  {
    "CREATE INDEX " + ds + "_E_src ON " + ds + "_E (src,dst);"
  }

  function VertexPrefix(ds: string): string
  {
    "insert into " + ds + "_V(id) values "
  }

  function EdgePrefix(ds: string): string
  {
    "insert into " + ds + "_E(src,dst) values "
  }

  function VertexRow(i: nat): string
  {
    "(" + NatToDec(i) + ")"
  }

  function EdgeRow(e: (int, int)): string
  {
    "(" + IntToDec(e.0) + "," + IntToDec(e.1) + ")"
  }

  /** An insert statement: the prefix, then the batch's rows separated by ','. */
  function Statement(prefix: string): seq<string> -> string
  {
    (batch: seq<string>) => prefix + Join(batch, ",")
  }

  /** The vertex ids 0 .. n - 1. */
  function Ids(n: nat): (r: seq<nat>)
    ensures |r| == n
    ensures forall i :: 0 <= i < n ==> r[i] == i
  {
    seq(n, i => i)
  }

  /** The insert statements for `rows`: 1025 rows, then 1024 at a time. */
  function Insertions(prefix: string, rows: seq<string>): seq<string>
  {
    Commands(Statement(prefix), rows, FirstBatch, MaxBatchSize)
  }

  function VertexRows(vertexCount: nat): seq<string>
  {
    MapSeq(VertexRow, Ids(vertexCount))
  }

  function EdgeRows(edges: seq<(int, int)>): seq<string>
  {
    MapSeq(EdgeRow, edges)
  }

  /** Every statement load_db sends, in order. */
  function LoadSchedule(ds: string, vertexCount: nat, edges: seq<(int, int)>): seq<string>
  {
    [CreateVertexTable(ds), CreateVertexIndex(ds)]
      + Insertions(VertexPrefix(ds), VertexRows(vertexCount))
      + [CreateEdgeTable(ds), CreateEdgeIndex(ds)]
      + Insertions(EdgePrefix(ds), EdgeRows(edges))
  }

  // ---------------------------------------------------------------------------
  // load_db: the batch boundaries

  lemma {:induction false} BatchEndClosed(k: nat)
    ensures BatchEnd(k, FirstBatch, MaxBatchSize) == (if k == 0 then 0 else MaxBatchSize * k + 1)
  {
    if k > 1 {
      BatchEndClosed(k - 1);
    }
  }

  lemma RemainderOf(q: nat, r: nat)
    requires r < MaxBatchSize
    ensures (MaxBatchSize * q + r) % MaxBatchSize == r
  {
  }

  /**
   * The flush test `i != 0 && i % 1024 == 0` holds exactly at the last index
   * of a batch: 1024 for the first, then every 1024th index.
   */
  lemma FlushTest(k: nat, i: nat)
    requires BatchEnd(k, FirstBatch, MaxBatchSize) <= i < BatchEnd(k + 1, FirstBatch, MaxBatchSize)
    ensures (i != 0 && i % MaxBatchSize == 0) <==> i + 1 == BatchEnd(k + 1, FirstBatch, MaxBatchSize)
  {
    BatchEndClosed(k);
    BatchEndClosed(k + 1);
    if k == 0 {
      if i < MaxBatchSize {
        RemainderOf(0, i);
      }
    } else {
      var t := i - MaxBatchSize * k;
      assert 1 <= t <= MaxBatchSize;
      if t < MaxBatchSize {
        RemainderOf(k, t);
      } else {
        assert i == MaxBatchSize * (k + 1);
        RemainderOf(k + 1, 0);
      }
    }
  }

  // ---------------------------------------------------------------------------
  // load_db: the loops

  /** The buffer between flushes: the rows since boundary k, each followed by ','. */
  predicate Buffered(prefix: string, rows: seq<string>, i: nat, query: string, k: nat)
  {
    BatchEnd(k, FirstBatch, MaxBatchSize) <= i < BatchEnd(k + 1, FirstBatch, MaxBatchSize) &&
    i <= |rows| &&
    query == prefix + Terminated(rows[BatchEnd(k, FirstBatch, MaxBatchSize)..i], ",")
  }

  /**
   * The loader's state before row i: the buffer as above, the statements for
   * the completed batches sent after `prior`, and the error log of the run.
   */
  predicate Loaded(prefix: string, rows: seq<string>, i: nat, query: string, k: nat,
                   prior: seq<string>, sent: seq<string>, errors: seq<nat>, accept: Verdict)
  {
    Buffered(prefix, rows, i, query, k) &&
    sent == prior + Insertions(prefix, rows[..BatchEnd(k, FirstBatch, MaxBatchSize)]) &&
    errors == Rejected(sent, accept)
  }

  /** At a boundary the buffer is the bare prefix. */
  lemma EmptyBuffer(prefix: string, rows: seq<string>, i: nat, k: nat)
    requires i == BatchEnd(k, FirstBatch, MaxBatchSize) && i <= |rows|
    ensures Buffered(prefix, rows, i, prefix, k)
  {
    BatchEndNext(k, FirstBatch, MaxBatchSize);
    assert rows[i..i] == [];
  }

  lemma AppendStep(prefix: string, rows: seq<string>, i: nat, query: string, k: nat)
    requires i < |rows| && Buffered(prefix, rows, i, query, k)
    requires i + 1 != BatchEnd(k + 1, FirstBatch, MaxBatchSize)
    ensures Buffered(prefix, rows, i + 1, query + rows[i] + ",", k)
  {
    BufferPush(prefix, rows, BatchEnd(k, FirstBatch, MaxBatchSize), i, query, ",");
  }

  /** The row that ends a batch: popping the ',' gives the batch's statement. */
  lemma FlushStep(prefix: string, rows: seq<string>, i: nat, query: string, k: nat,
                  prior: seq<string>, sent: seq<string>)
    requires i < |rows| && Buffered(prefix, rows, i, query, k)
    requires i + 1 == BatchEnd(k + 1, FirstBatch, MaxBatchSize)
    requires sent == prior + Insertions(prefix, rows[..BatchEnd(k, FirstBatch, MaxBatchSize)])
    ensures var q := query + rows[i] + ",";
      |q| >= 1 &&
      sent + [q[..|q| - 1]] == prior + Insertions(prefix, rows[..BatchEnd(k + 1, FirstBatch, MaxBatchSize)])
  {
    var m := BatchEnd(k, FirstBatch, MaxBatchSize);
    BufferPush(prefix, rows, m, i, query, ",");
    DropComma(prefix, rows[m..i + 1]);
    var q := query + rows[i] + ",";
    assert q[..|q| - 1] == Statement(prefix)(rows[m..i + 1]);
    CommandsExtend(Statement(prefix), rows, k, FirstBatch, MaxBatchSize);
  }

  /**
   * One iteration: append the row and its ','; at the end of a batch pop the
   * ',', send the statement (a failure is only logged) and start over.
   */
  method PushRow(prefix: string, ghost rows: seq<string>, i: nat, row: string, query: string, ghost k: nat,
                 ghost prior: seq<string>, sent: seq<string>, errors: seq<nat>, accept: Verdict)
    returns (query': string, ghost k': nat, sent': seq<string>, errors': seq<nat>)
    requires i < |rows| && row == rows[i] && Loaded(prefix, rows, i, query, k, prior, sent, errors, accept)
    ensures Loaded(prefix, rows, i + 1, query', k', prior, sent', errors', accept)
  {
    var q := query + row + ",";
    FlushTest(k, i);
    if i != 0 && i % MaxBatchSize == 0 {
      FlushStep(prefix, rows, i, query, k, prior, sent);
      EmptyBuffer(prefix, rows, i + 1, k + 1);
      sent', errors' := Report(sent, errors, q[..|q| - 1], accept);
      query', k' := prefix, k + 1;
    } else {
      AppendStep(prefix, rows, i, query, k);
      query', k', sent', errors' := q, k, sent, errors;
    }
  }

  /** After the loop the buffer ends in ',' exactly when rows are pending; those form the last statement. */
  lemma FinishStep(prefix: string, rows: seq<string>, query: string, k: nat, prior: seq<string>, sent: seq<string>)
    requires |prefix| > 0 && prefix[|prefix| - 1] == ' '
    requires Buffered(prefix, rows, |rows|, query, k)
    requires sent == prior + Insertions(prefix, rows[..BatchEnd(k, FirstBatch, MaxBatchSize)])
    ensures |query| > 0
    ensures query[|query| - 1] == ',' <==> BatchEnd(k, FirstBatch, MaxBatchSize) < |rows|
    ensures query[|query| - 1] != ',' ==> sent == prior + Insertions(prefix, rows)
    ensures query[|query| - 1] == ',' ==> sent + [query[..|query| - 1]] == prior + Insertions(prefix, rows)
  {
    var m := BatchEnd(k, FirstBatch, MaxBatchSize);
    if m == |rows| {
      assert rows[m..|rows|] == [];
      BareBuffer(prefix, query);
      NoLastCommand(Statement(prefix), rows, k, FirstBatch, MaxBatchSize, prior, sent);
    } else {
      assert rows[m..|rows|] == rows[m..];
      PendingStatement(prefix, rows[m..], query);
      LastCommand(Statement(prefix), rows, k, FirstBatch, MaxBatchSize, prior, sent);
    }
  }

  /** A buffer holding no rows is the prefix, which ends in a space. */
  lemma BareBuffer(prefix: string, query: string)
    requires |prefix| > 0 && prefix[|prefix| - 1] == ' '
    requires query == prefix + Terminated([], ",")
    ensures |query| > 0 && query[|query| - 1] != ','
  {
    assert query == prefix;
  }

  /** A buffer holding rows ends in ',' and, popped once, is their statement. */
  lemma PendingStatement(prefix: string, pending: seq<string>, query: string)
    requires |pending| > 0 && query == prefix + Terminated(pending, ",")
    ensures |query| > 0 && query[|query| - 1] == ','
    ensures query[..|query| - 1] == Statement(prefix)(pending)
  {
    DropComma(prefix, pending);
    TerminatedIsJoin(pending, ",");
    assert query == (prefix + Join(pending, ",")) + ",";
  }

  /** `if (query.back() == ',')`: send the pending rows, if any. */
  method FlushRest(prefix: string, ghost rows: seq<string>, ghost end: nat, query: string, ghost k: nat,
                   ghost prior: seq<string>, sent: seq<string>, errors: seq<nat>, accept: Verdict)
    returns (sent': seq<string>, errors': seq<nat>)
    requires |prefix| > 0 && prefix[|prefix| - 1] == ' '
    requires end == |rows| && Loaded(prefix, rows, end, query, k, prior, sent, errors, accept)
    ensures sent' == prior + Insertions(prefix, rows)
    ensures errors' == Rejected(sent', accept)
  {
    FinishStep(prefix, rows, query, k, prior, sent);
    if query[|query| - 1] == ',' {
      sent', errors' := Report(sent, errors, query[..|query| - 1], accept);
    } else {
      sent', errors' := sent, errors;
    }
  }

  lemma StartRows(prefix: string, rows: seq<string>, sent: seq<string>, errors: seq<nat>, accept: Verdict)
    requires errors == Rejected(sent, accept)
    ensures Loaded(prefix, rows, 0, prefix, 0, sent, sent, errors, accept)
  {
    assert rows[0..0] == [] && rows[..0] == [];
  }

  lemma PrefixesEndInSpace(ds: string)
    ensures |VertexPrefix(ds)| > 0 && VertexPrefix(ds)[|VertexPrefix(ds)| - 1] == ' '
    ensures |EdgePrefix(ds)| > 0 && EdgePrefix(ds)[|EdgePrefix(ds)| - 1] == ' '
  {
  }

  lemma VertexRowAt(n: nat, i: nat)
    requires i < n
    ensures VertexRows(n)[i] == VertexRow(i)
  {
  }

  /** The vertex loop: ids 0 .. vertexCount - 1, then the pending rows. */
  method LoadVertices(ds: string, vertexCount: nat, sent: seq<string>, errors: seq<nat>, accept: Verdict)
    returns (sent': seq<string>, errors': seq<nat>)
    requires vertexCount <= IntMax
    requires errors == Rejected(sent, accept)
    ensures sent' == sent + Insertions(VertexPrefix(ds), VertexRows(vertexCount))
    ensures errors' == Rejected(sent', accept)
  {
    PrefixesEndInSpace(ds);
    sent', errors' := InsertVertices(VertexPrefix(ds), vertexCount, sent, errors, accept);
  }

  method InsertVertices(prefix: string, vertexCount: nat, sent: seq<string>, errors: seq<nat>, accept: Verdict)
    returns (sent': seq<string>, errors': seq<nat>)
    requires vertexCount <= IntMax && |prefix| > 0 && prefix[|prefix| - 1] == ' '
    requires errors == Rejected(sent, accept)
    ensures sent' == sent + Insertions(prefix, VertexRows(vertexCount))
    ensures errors' == Rejected(sent', accept)
  {
    ghost var rows := VertexRows(vertexCount);
    ghost var prior := sent;
    var query := prefix;
    ghost var k := 0;
    StartRows(prefix, rows, sent, errors, accept);
    sent', errors' := sent, errors;
    var i := 0;
    while i < vertexCount
      invariant 0 <= i <= vertexCount && Loaded(prefix, rows, i, query, k, prior, sent', errors', accept)
    {
      VertexRowAt(vertexCount, i);
      query, k, sent', errors' := PushRow(prefix, rows, i, VertexRow(i), query, k, prior, sent', errors', accept);
      i := i + 1;
    }
    sent', errors' := FlushRest(prefix, rows, i, query, k, prior, sent', errors', accept);
  }

  /** The edge loop over the rendered edges, in file order, then the pending rows. */
  method LoadEdges(ds: string, edges: seq<(int, int)>, sent: seq<string>, errors: seq<nat>, accept: Verdict)
    returns (sent': seq<string>, errors': seq<nat>)
    requires |edges| <= IntMax
    requires errors == Rejected(sent, accept)
    ensures sent' == sent + Insertions(EdgePrefix(ds), EdgeRows(edges))
    ensures errors' == Rejected(sent', accept)
  {
    PrefixesEndInSpace(ds);
    var rows := EdgeRows(edges);
    sent', errors' := InsertRows(EdgePrefix(ds), rows, sent, errors, accept);
  }

  method InsertRows(prefix: string, rows: seq<string>, sent: seq<string>, errors: seq<nat>, accept: Verdict)
    returns (sent': seq<string>, errors': seq<nat>)
    requires |rows| <= IntMax && |prefix| > 0 && prefix[|prefix| - 1] == ' '
    requires errors == Rejected(sent, accept)
    ensures sent' == sent + Insertions(prefix, rows)
    ensures errors' == Rejected(sent', accept)
  {
    ghost var prior := sent;
    var query := prefix;
    ghost var k := 0;
    StartRows(prefix, rows, sent, errors, accept);
    sent', errors' := sent, errors;
    var i := 0;
    while i < |rows|
      invariant 0 <= i <= |rows| && Loaded(prefix, rows, i, query, k, prior, sent', errors', accept)
    {
      query, k, sent', errors' := PushRow(prefix, rows, i, rows[i], query, k, prior, sent', errors', accept);
      i := i + 1;
    }
    sent', errors' := FlushRest(prefix, rows, i, query, k, prior, sent', errors', accept);
  }

  /**
   * load_db over an already-read edge list: every statement of the schedule
   * is sent whatever the store answers, and `errors` lists the positions of
   * the ones it rejected.
   */
  method LoadDb(ds: string, vertexCount: nat, edges: seq<(int, int)>, accept: Verdict)
    returns (sent: seq<string>, errors: seq<nat>)
    requires vertexCount <= IntMax && |edges| <= IntMax
    ensures sent == LoadSchedule(ds, vertexCount, edges)
    ensures errors == Rejected(sent, accept)
  {
    sent, errors := Report([], [], CreateVertexTable(ds), accept);
    ghost var s1 := sent;
    sent, errors := Report(sent, errors, CreateVertexIndex(ds), accept);
    ghost var s2 := sent;
    sent, errors := LoadVertices(ds, vertexCount, sent, errors, accept);
    ghost var s3 := sent;
    sent, errors := Report(sent, errors, CreateEdgeTable(ds), accept);
    ghost var s4 := sent;
    sent, errors := Report(sent, errors, CreateEdgeIndex(ds), accept);
    ghost var s5 := sent;
    sent, errors := LoadEdges(ds, edges, sent, errors, accept);
    ScheduleShape(CreateVertexTable(ds), CreateVertexIndex(ds), Insertions(VertexPrefix(ds), VertexRows(vertexCount)),
                  CreateEdgeTable(ds), CreateEdgeIndex(ds), Insertions(EdgePrefix(ds), EdgeRows(edges)),
                  s1, s2, s3, s4, s5, sent);
  }

  lemma ScheduleShape(a: string, b: string, vs: seq<string>, c: string, d: string, es: seq<string>,
                      s1: seq<string>, s2: seq<string>, s3: seq<string>, s4: seq<string>, s5: seq<string>,
                      s6: seq<string>)
    requires s1 == [] + [a] && s2 == s1 + [b] && s3 == s2 + vs && s4 == s3 + [c] && s5 == s4 + [d] && s6 == s5 + es
    ensures s6 == [a, b] + vs + [c, d] + es
  {
  }

  // ---------------------------------------------------------------------------
  // load_db: what the schedule inserts

  /**
   * The vertex statements carry the ids 0 .. n - 1 once each, in increasing
   * order: their batches rejoin to the id sequence, the first holds up to
   * 1025 rows and every later one up to 1024, all full but the last.
   */
  lemma VertexBatches(n: nat)
    ensures Flatten(Lead(Ids(n), FirstBatch, MaxBatchSize)) == Ids(n)
    ensures |Lead(Ids(n), FirstBatch, MaxBatchSize)| > 0 ==> 0 < |Lead(Ids(n), FirstBatch, MaxBatchSize)[0]| <= FirstBatch
    ensures n > FirstBatch ==> |Lead(Ids(n), FirstBatch, MaxBatchSize)[0]| == FirstBatch
    ensures forall i :: 1 <= i < |Lead(Ids(n), FirstBatch, MaxBatchSize)| ==>
      0 < |Lead(Ids(n), FirstBatch, MaxBatchSize)[i]| <= MaxBatchSize
    ensures forall i :: 1 <= i < |Lead(Ids(n), FirstBatch, MaxBatchSize)| - 1 ==>
      |Lead(Ids(n), FirstBatch, MaxBatchSize)[i]| == MaxBatchSize
  {
    FlattenLead(Ids(n), FirstBatch, MaxBatchSize);
    LeadSizes(Ids(n), FirstBatch, MaxBatchSize);
  }

  /** The vertex statements are those of the id batches, one rendered row per id. */
  lemma VertexStatements(ds: string, n: nat)
    ensures Insertions(VertexPrefix(ds), VertexRows(n)) ==
      MapSeq(Statement(VertexPrefix(ds)), Lead(VertexRows(n), FirstBatch, MaxBatchSize))
    ensures Flatten(Lead(VertexRows(n), FirstBatch, MaxBatchSize)) == MapSeq(VertexRow, Ids(n))
  {
    FlattenLead(VertexRows(n), FirstBatch, MaxBatchSize);
  }

  /** With no vertices no vertex insert is sent: the edge table comes right after the vertex index. */
  lemma NoVerticesNoInsert(ds: string, edges: seq<(int, int)>)
    ensures LoadSchedule(ds, 0, edges)[..4] ==
      [CreateVertexTable(ds), CreateVertexIndex(ds), CreateEdgeTable(ds), CreateEdgeIndex(ds)]
  {
    assert VertexRows(0) == [];
    assert Insertions(VertexPrefix(ds), VertexRows(0)) == [];
  }

  /** The edge statements carry every edge once, in file order and with duplicates kept. */
  lemma EdgeBatches(edges: seq<(int, int)>)
    ensures Flatten(Lead(edges, FirstBatch, MaxBatchSize)) == edges
    ensures Flatten(Lead(EdgeRows(edges), FirstBatch, MaxBatchSize)) == MapSeq(EdgeRow, edges)
  {
    FlattenLead(edges, FirstBatch, MaxBatchSize);
    FlattenLead(EdgeRows(edges), FirstBatch, MaxBatchSize);
  }

  // ---------------------------------------------------------------------------
  // test_rw_workload

  function MaxIdQuery(ds: string): string
  {
    "SELECT max(id) FROM " + ds + "_V;"
  }

  function PreloadEdges(ds: string): string
  {
    "SELECT * FROM " + ds + "_E;"
  }

  function PreloadVertices(ds: string): string
  {
    "SELECT * FROM " + ds + "_V;"
  }

  function NeighborsQuery(ds: string, id: int): string
  {
    "SELECT dst FROM " + ds + "_E WHERE src = " + IntToDec(id) + ";"
  }

  function InsertEdge(ds: string, src: int, dst: int): string
  {
    "INSERT INTO " + ds + "_E (src, dst) VALUES (" + IntToDec(src) + "," + IntToDec(dst) + ");"
  }

  function DeleteEdge(ds: string, src: int, dst: int): string
  {
    "delete from " + ds + "_E where src = " + IntToDec(src) + " and dst = " + IntToDec(dst) + ";"
  }

  const Int32Span: nat := 0x1_0000_0000

  /** The conversion of an int64 nanosecond count to `int`: the value modulo 2^32, read as signed. */
  function ToInt32(x: int): (r: int)
    ensures -0x8000_0000 <= r < 0x8000_0000
    ensures (x - r) % Int32Span == 0
    ensures -0x8000_0000 <= x < 0x8000_0000 ==> r == x
  {
    (x + 0x8000_0000) % Int32Span - 0x8000_0000
  }

  /** The statements one operation sends and the latency it reports. */
  datatype Call = Call(cmds: seq<string>, elapsed: int)

  /**
   * get_neighbors: one neighbour query for the id `rand() % max_vertex_id`,
   * timed; the timing comes back through the function's `int` result.
   */
  function GetNeighbors(ds: string, maxVid: int, r: nat, latency: int): (c: Call)
    requires maxVid != 0
    ensures |c.cmds| == 1 && c.elapsed == ToInt32(latency)
    ensures exists v :: 0 <= v < Abs(maxVid) && c.cmds[0] == NeighborsQuery(ds, v)
  {
    var v := CRem(r, maxVid);
    assert 0 <= v < Abs(maxVid);
    Call([NeighborsQuery(ds, v)], ToInt32(latency))
  }

  /**
   * add_edge: inserts a sampled edge and then deletes that same edge; only
   * the insert is timed, so the reported latency is the insert's.
   */
  function AddEdge(ds: string, maxVid: int, r0: nat, r1: nat, insertLatency: int): (c: Call)
    requires maxVid != 0
    ensures |c.cmds| == 2 && c.elapsed == insertLatency
    ensures exists s, d ::
      0 <= s < Abs(maxVid) && 0 <= d < Abs(maxVid) &&
      c.cmds[0] == InsertEdge(ds, s, d) && c.cmds[1] == DeleteEdge(ds, s, d)
  {
    var s := CRem(r0, maxVid);
    var d := CRem(r1, maxVid);
    assert 0 <= s < Abs(maxVid) && 0 <= d < Abs(maxVid);
    Call([InsertEdge(ds, s, d), DeleteEdge(ds, s, d)], insertLatency)
  }

  function OpCall(ds: string, maxVid: int, op: Op, draw: (nat, nat), latency: int): Call
    requires maxVid != 0
  {
    match op
    case Read => GetNeighbors(ds, maxVid, draw.0, latency)
    case Write => AddEdge(ds, maxVid, draw.0, draw.1, latency)
  }

  /** The statements the dispatch loop sends for `ops`, in order. */
  function Dispatched(ds: string, maxVid: int, ops: seq<Op>, draws: seq<(nat, nat)>, lats: seq<int>): seq<string>
    requires maxVid != 0 && |draws| == |ops| && |lats| == |ops|
  {
    if |ops| == 0 then []
    else
      var n := |ops| - 1;
      Dispatched(ds, maxVid, ops[..n], draws[..n], lats[..n]) + OpCall(ds, maxVid, ops[n], draws[n], lats[n]).cmds
  }

  /** The latency each operation reports, read or write. */
  function Reported(ds: string, maxVid: int, ops: seq<Op>, draws: seq<(nat, nat)>, lats: seq<int>): (r: seq<int>)
    requires maxVid != 0 && |draws| == |ops| && |lats| == |ops|
    ensures |r| == |ops|
    ensures forall i :: 0 <= i < |ops| ==> r[i] == (if ops[i] == Read then ToInt32(lats[i]) else lats[i])
  {
    seq(|ops|, i requires 0 <= i < |ops| => OpCall(ds, maxVid, ops[i], draws[i], lats[i]).elapsed)
  }

  lemma DispatchedSnoc(ds: string, maxVid: int, ops: seq<Op>, draws: seq<(nat, nat)>, lats: seq<int>, i: nat)
    requires maxVid != 0 && |draws| == |ops| && |lats| == |ops| && i < |ops|
    ensures Dispatched(ds, maxVid, ops[..i + 1], draws[..i + 1], lats[..i + 1]) ==
      Dispatched(ds, maxVid, ops[..i], draws[..i], lats[..i]) + OpCall(ds, maxVid, ops[i], draws[i], lats[i]).cmds
  {
    assert ops[..i + 1][..i] == ops[..i];
    assert draws[..i + 1][..i] == draws[..i];
    assert lats[..i + 1][..i] == lats[..i];
  }

  lemma TimesSnoc(ops: seq<Op>, times: seq<int>, i: nat)
    requires |times| == |ops| && i < |ops|
    ensures Durations(ops[..i + 1], times[..i + 1], Read) ==
      Durations(ops[..i], times[..i], Read) + (if ops[i] == Read then [times[i]] else [])
    ensures Durations(ops[..i + 1], times[..i + 1], Write) ==
      Durations(ops[..i], times[..i], Write) + (if ops[i] == Write then [times[i]] else [])
  {
    assert ops[..i + 1] == ops[..i] + [ops[i]];
    assert times[..i + 1] == times[..i] + [times[i]];
    DurationsSnoc(ops[..i], times[..i], Read, ops[i], times[i]);
    DurationsSnoc(ops[..i], times[..i], Write, ops[i], times[i]);
  }

  /** The dispatch loop's state after i operations of `run`. */
  predicate Dispatching(ds: string, maxVid: int, run: seq<Op>, draws: seq<(nat, nat)>, lats: seq<int>, i: nat,
                        sent: seq<string>, readTimes: seq<int>, writeTimes: seq<int>)
  {
    maxVid != 0 && |draws| == |run| && |lats| == |run| && i <= |run| &&
    sent == Dispatched(ds, maxVid, run[..i], draws[..i], lats[..i]) &&
    readTimes == Durations(run[..i], Reported(ds, maxVid, run, draws, lats)[..i], Read) &&
    writeTimes == Durations(run[..i], Reported(ds, maxVid, run, draws, lats)[..i], Write)
  }

  /** One dispatched operation: its statements are sent and its latency joins its kind's vector. */
  method DispatchOne(ds: string, maxVid: int, ghost run: seq<Op>, ghost draws: seq<(nat, nat)>, ghost lats: seq<int>,
                     op: Op, draw: (nat, nat), lat: int, i: nat,
                     sent: seq<string>, readTimes: seq<int>, writeTimes: seq<int>)
    returns (sent': seq<string>, readTimes': seq<int>, writeTimes': seq<int>)
    requires Dispatching(ds, maxVid, run, draws, lats, i, sent, readTimes, writeTimes)
    requires i < |run| && op == run[i] && draws[i] == draw && lats[i] == lat
    ensures Dispatching(ds, maxVid, run, draws, lats, i + 1, sent', readTimes', writeTimes')
  {
    var c := OpCall(ds, maxVid, op, draw, lat);
    ghost var times := Reported(ds, maxVid, run, draws, lats);
    DispatchedSnoc(ds, maxVid, run, draws, lats, i);
    TimesSnoc(run, times, i);
    if op == Read {
      readTimes', writeTimes' := readTimes + [c.elapsed], writeTimes;
    } else {
      readTimes', writeTimes' := readTimes, writeTimes + [c.elapsed];
    }
    sent' := sent + c.cmds;
  }

  /**
   * The dispatch loop: each of the first 500 tags is dispatched once; its
   * statements are sent (failures are only reported) and its latency joins
   * the read or the write vector.
   */
  method RunOps(ds: string, maxVid: int, ops: seq<Op>, draws: seq<(nat, nat)>, lats: seq<int>)
    returns (sent: seq<string>, readTimes: seq<int>, writeTimes: seq<int>)
    requires maxVid != 0 && |ops| >= WorkloadSize && |draws| == WorkloadSize && |lats| == WorkloadSize
    ensures var run := ops[..WorkloadSize];
      sent == Dispatched(ds, maxVid, run, draws, lats) &&
      readTimes == Durations(run, Reported(ds, maxVid, run, draws, lats), Read) &&
      writeTimes == Durations(run, Reported(ds, maxVid, run, draws, lats), Write)
  {
    ghost var run := ops[..WorkloadSize];
    sent, readTimes, writeTimes := [], [], [];
    StartDispatch(ds, maxVid, run, draws, lats);
    var i := 0;
    while i < WorkloadSize
      invariant 0 <= i <= WorkloadSize && Dispatching(ds, maxVid, run, draws, lats, i, sent, readTimes, writeTimes)
    {
      sent, readTimes, writeTimes := DispatchOne(ds, maxVid, run, draws, lats, ops[i], draws[i], lats[i], i, sent, readTimes, writeTimes);
      i := i + 1;
    }
    EndDispatch(ds, maxVid, run, draws, lats, i, sent, readTimes, writeTimes);
  }

  lemma StartDispatch(ds: string, maxVid: int, run: seq<Op>, draws: seq<(nat, nat)>, lats: seq<int>)
    requires maxVid != 0 && |draws| == |run| && |lats| == |run|
    ensures Dispatching(ds, maxVid, run, draws, lats, 0, [], [], [])
  {
    assert run[..0] == [] && draws[..0] == [] && lats[..0] == [];
    assert Reported(ds, maxVid, run, draws, lats)[..0] == [];
  }

  lemma EndDispatch(ds: string, maxVid: int, run: seq<Op>, draws: seq<(nat, nat)>, lats: seq<int>, i: nat,
                    sent: seq<string>, readTimes: seq<int>, writeTimes: seq<int>)
    requires Dispatching(ds, maxVid, run, draws, lats, i, sent, readTimes, writeTimes) && i == |run|
    ensures sent == Dispatched(ds, maxVid, run, draws, lats)
    ensures readTimes == Durations(run, Reported(ds, maxVid, run, draws, lats), Read)
    ensures writeTimes == Durations(run, Reported(ds, maxVid, run, draws, lats), Write)
  {
    assert run[..i] == run && draws[..i] == draws && lats[..i] == lats;
    assert Reported(ds, maxVid, run, draws, lats)[..i] == Reported(ds, maxVid, run, draws, lats);
  }

  /** Whatever the read count, the tag vector holds at least 500 tags, exactly 500 when it lies in [0, 500]. */
  lemma TagVectorSize(readCount: int)
    ensures Runs(readCount) + Runs(WorkloadSize - readCount) >= WorkloadSize
    ensures Runs(readCount) + Runs(WorkloadSize - readCount) == WorkloadSize <==> 0 <= readCount <= WorkloadSize
  {
  }

  /** The first n tags hold no more tags of a kind than the whole vector. */
  lemma PrefixCount(ops: seq<Op>, n: nat, op: Op)
    requires n <= |ops|
    ensures CountOf(ops[..n], op) <= CountOf(ops, op)
  {
    assert ops == ops[..n] + ops[n..];
    assert multiset(ops) == multiset(ops[..n]) + multiset(ops[n..]);
  }

  /**
   * test_rw_workload with the read count given as an integer (the source's
   * `(int)(500 * read_ratio)`), the maximum id as returned by the first query,
   * the shuffle's picks, the draws of each dispatched operation and its
   * measured latency.
   */
  method TestRwWorkload(ds: string, maxVid: int, readCount: int, picks: seq<nat>,
                        draws: seq<(nat, nat)>, lats: seq<int>)
    returns (ops: seq<Op>, sent: seq<string>, readTimes: seq<int>, writeTimes: seq<int>,
             readMean: Option<nat>, writeMean: Option<nat>)
    requires maxVid != 0
    requires |picks| == Runs(readCount) + Runs(WorkloadSize - readCount)
    requires |draws| == WorkloadSize && |lats| == WorkloadSize
    ensures |ops| == Runs(readCount) + Runs(WorkloadSize - readCount) && |ops| >= WorkloadSize
    ensures CountOf(ops, Read) == Runs(readCount) && CountOf(ops, Write) == Runs(WorkloadSize - readCount)
    ensures sent == [MaxIdQuery(ds), PreloadEdges(ds), PreloadVertices(ds)]
      + Dispatched(ds, maxVid, ops[..WorkloadSize], draws, lats)
    ensures readTimes == Durations(ops[..WorkloadSize], Reported(ds, maxVid, ops[..WorkloadSize], draws, lats), Read)
    ensures writeTimes == Durations(ops[..WorkloadSize], Reported(ds, maxVid, ops[..WorkloadSize], draws, lats), Write)
    ensures |readTimes| + |writeTimes| == WorkloadSize
    ensures 0 <= readCount <= WorkloadSize ==> |readTimes| == readCount && |writeTimes| == WorkloadSize - readCount
    ensures readTimes == [] <==> Runs(readCount) == 0
    ensures readMean == UnsignedMean(readTimes)
    ensures writeMean == (if readMean.None? then None else UnsignedMean(writeTimes))
    ensures readCount <= 0 ==> readMean.None? && writeMean.None?
  {
    ops := ShuffledTags(readCount, WorkloadSize - readCount, picks);
    TagVectorSize(readCount);
    var s;
    s, readTimes, writeTimes := RunOps(ds, maxVid, ops, draws, lats);
    sent := [MaxIdQuery(ds), PreloadEdges(ds), PreloadVertices(ds)] + s;
    ghost var run := ops[..WorkloadSize];
    DurationsSplit(run, Reported(ds, maxVid, run, draws, lats));
    if 0 <= readCount <= WorkloadSize {
      WholeSlice(ops, WorkloadSize);
    }
    PrefixCount(ops, WorkloadSize, Read);
    PrefixCount(ops, WorkloadSize, Write);
    readMean := UnsignedMean(readTimes);
    // The read average is printed first: with no reads its division traps
    // and the write average is never reached.
    if readMean.Some? {
      writeMean := UnsignedMean(writeTimes);
    } else {
      writeMean := None;
    }
  }
}
