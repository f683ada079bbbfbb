/**
 * load_property_graph: read the `.vertex` and `.edge` files, switch to the
 * space, then insert the vertices and the edges through the data set's
 * schema, 256 rows per insert statement. A vertex row is [id, id, values..],
 * an edge row [src, dst, "src=>dst", values..]; the values keep file order
 * (they are not rearranged to the schema's column order). The first
 * rejected statement stops the program (exit(0)).
 */
module NebulaPropertyLoad {
  import opened Wrappers
  import opened Text
  import opened Batching
  import opened Store
  import opened NebulaSchema
  import opened NebulaParse
  import NebulaLoad

  const Batch: nat := NebulaLoad.Batch

  // ---------------------------------------------------------------------------
  // The statements

  /** value = [to_string(id), to_string(id)] followed by the vertex's values. */
  function VertexRow(v: PropertyVertex): Row
  {
    [NatToDec(v.id), NatToDec(v.id)] + v.values
  }

  /** value = [to_string(src), to_string(dst), "src=>dst"] followed by the edge's values. */
  function EdgeRow(e: PropertyEdge): Row
  {
    [NatToDec(e.src), NatToDec(e.dst), NatToDec(e.src) + "=>" + NatToDec(e.dst)] + e.values
  }

  /** A batch of rows rendered by the schema's get_insert_query. */
  function InsertOf(s: Schema): seq<Row> -> string
  {
    (rows: seq<Row>) => InsertText(s, rows)
  }

  function UseSpace(space: string): string
  {
    "use " + space + ";"
  }

  /** Everything load_property_graph sends for a graph read without error, if every statement succeeds. */
  function PropertySchedule(space: string, g: PropertyGraph): seq<string>
    requires space in VertexSchemas && space in EdgeSchemas
  {
    [UseSpace(space)]
      + Commands(InsertOf(VertexSchemas[space]), MapSeq(VertexRow, g.vertices), Batch, Batch)
      + Commands(InsertOf(EdgeSchemas[space]), MapSeq(EdgeRow, g.edges), Batch, Batch)
  }

  // ---------------------------------------------------------------------------
  // The loops

  /** The `values` buffer: the rows since the last flush, which ended at a batch boundary. */
  predicate RowsPending(rows: seq<Row>, i: nat, values: seq<Row>, k: nat)
  {
    |values| < Batch && |values| <= i <= |rows| && i - |values| == BatchEnd(k, Batch, Batch) &&
    values == rows[i - |values|..i]
  }

  lemma EmptyRows(rows: seq<Row>, i: nat, k: nat)
    requires i <= |rows| && i == BatchEnd(k, Batch, Batch)
    ensures RowsPending(rows, i, [], k)
  {
  }

  lemma AppendRowPending(rows: seq<Row>, i: nat, values: seq<Row>, k: nat)
    requires i < |rows| && RowsPending(rows, i, values, k) && |values| + 1 < Batch
    ensures RowsPending(rows, i + 1, values + [rows[i]], k)
  {
    assert rows[i + 1 - |values + [rows[i]]|..i + 1] == rows[i - |values|..i] + [rows[i]];
  }

  /** The state of a row loop: the buffer, and the statements sent so far, all accepted. */
  predicate RowLoading(s: Schema, rows: seq<Row>, i: nat, values: seq<Row>, k: nat,
                       prior: seq<string>, schedule: seq<string>, sent: seq<string>, accept: Verdict)
  {
    RowsPending(rows, i, values, k) &&
    prior + Commands(InsertOf(s), rows, Batch, Batch) <= schedule &&
    sent == prior + Commands(InsertOf(s), rows[..i - |values|], Batch, Batch) &&
    AllAccepted(sent, accept)
  }

  lemma StartRows(s: Schema, rows: seq<Row>, i: nat, k: nat,
                  prior: seq<string>, schedule: seq<string>, sent: seq<string>, accept: Verdict)
    requires i <= |rows| && i == BatchEnd(k, Batch, Batch)
    requires prior + Commands(InsertOf(s), rows, Batch, Batch) <= schedule
    requires sent == prior + Commands(InsertOf(s), rows[..i], Batch, Batch)
    requires AllAccepted(sent, accept)
    ensures RowLoading(s, rows, i, [], k, prior, schedule, sent, accept)
  {
    EmptyRows(rows, i, k);
  }

  lemma AppendRow(s: Schema, rows: seq<Row>, i: nat, values: seq<Row>, k: nat,
                  prior: seq<string>, schedule: seq<string>, sent: seq<string>, accept: Verdict)
    requires i < |rows| && |values| + 1 < Batch
    requires RowLoading(s, rows, i, values, k, prior, schedule, sent, accept)
    ensures RowLoading(s, rows, i + 1, values + [rows[i]], k, prior, schedule, sent, accept)
  {
    AppendRowPending(rows, i, values, k);
    assert i + 1 - |values + [rows[i]]| == i - |values|;
  }

  /**
   * The loop body shared by the vertex and the edge loop: push the row; at
   * 256 rows render the batch, send it (exit on rejection) and clear it.
   */
  method PushRow(s: Schema, ghost rows: seq<Row>, ghost i: nat, row: Row, values: seq<Row>, ghost k: nat,
                 ghost prior: seq<string>, ghost schedule: seq<string>, sent: seq<string>, accept: Verdict)
    returns (values': seq<Row>, ghost k': nat, sent': seq<string>, stopped: bool)
    requires i < |rows| && row == rows[i]
    requires RowLoading(s, rows, i, values, k, prior, schedule, sent, accept)
    ensures stopped ==> FirstRejection(schedule, accept).Some? && sent' == FailFast(schedule, accept)
    ensures !stopped ==> RowLoading(s, rows, i + 1, values', k', prior, schedule, sent', accept)
  {
    if |values| + 1 == Batch {
      var q := GetInsertQuery(s, values + [row]);
      assert q == InsertOf(s)(values + [rows[i]]);
      FullBatch(s, rows, i, values, k, prior, schedule, sent);
      sent', stopped := Execute(schedule, sent, q, accept);
      values', k' := [], k + 1;
      if !stopped {
        StartRows(s, rows, i + 1, k + 1, prior, schedule, sent', accept);
      }
    } else {
      values', k', sent', stopped := values + [row], k, sent, false;
      AppendRow(s, rows, i, values, k, prior, schedule, sent, accept);
    }
  }

  lemma FullBatch(s: Schema, rows: seq<Row>, i: nat, values: seq<Row>, k: nat,
                  prior: seq<string>, schedule: seq<string>, sent: seq<string>)
    requires i < |rows| && RowsPending(rows, i, values, k) && |values| + 1 == Batch
    requires prior + Commands(InsertOf(s), rows, Batch, Batch) <= schedule
    requires sent == prior + Commands(InsertOf(s), rows[..i - |values|], Batch, Batch)
    ensures i + 1 == BatchEnd(k + 1, Batch, Batch)
    ensures sent + [InsertOf(s)(values + [rows[i]])] == prior + Commands(InsertOf(s), rows[..i + 1], Batch, Batch)
    ensures sent + [InsertOf(s)(values + [rows[i]])] <= schedule
  {
    var batch := values + [rows[i]];
    FullBatchAt(rows, i, values, k);
    NextBatch(InsertOf(s), rows, k, Batch, Batch, prior, schedule, sent, batch);
  }

  /** The 256th row completes batch k. */
  lemma FullBatchAt(rows: seq<Row>, i: nat, values: seq<Row>, k: nat)
    requires i < |rows| && RowsPending(rows, i, values, k) && |values| + 1 == Batch
    ensures i + 1 == BatchEnd(k + 1, Batch, Batch) && i - |values| == BatchEnd(k, Batch, Batch)
    ensures values + [rows[i]] == rows[BatchEnd(k, Batch, Batch)..BatchEnd(k + 1, Batch, Batch)]
  {
    BatchEndNext(k, Batch, Batch);
    assert rows[i - |values|..i + 1] == rows[i - |values|..i] + [rows[i]];
  }

  /** After the loop: send the remaining rows, if there are any. */
  method FinishRows(s: Schema, ghost rows: seq<Row>, ghost end: nat, values: seq<Row>, ghost k: nat,
                    ghost prior: seq<string>, ghost schedule: seq<string>, sent: seq<string>, accept: Verdict)
    returns (sent': seq<string>, stopped: bool)
    requires end == |rows| && RowLoading(s, rows, end, values, k, prior, schedule, sent, accept)
    ensures stopped ==> FirstRejection(schedule, accept).Some? && sent' == FailFast(schedule, accept)
    ensures !stopped ==> sent' == prior + Commands(InsertOf(s), rows, Batch, Batch)
    ensures !stopped ==> AllAccepted(sent', accept)
  {
    sent', stopped := sent, false;
    LastBatch(s, rows, values, k, prior, sent);
    if |values| != 0 {
      var q := GetInsertQuery(s, values);
      assert q == InsertOf(s)(values);
      sent', stopped := Execute(schedule, sent, q, accept);
    }
  }

  lemma LastBatch(s: Schema, rows: seq<Row>, values: seq<Row>, k: nat, prior: seq<string>, sent: seq<string>)
    requires RowsPending(rows, |rows|, values, k)
    requires sent == prior + Commands(InsertOf(s), rows[..|rows| - |values|], Batch, Batch)
    ensures |values| == 0 ==> sent == prior + Commands(InsertOf(s), rows, Batch, Batch)
    ensures |values| > 0 ==> sent + [InsertOf(s)(values)] == prior + Commands(InsertOf(s), rows, Batch, Batch)
  {
    LastBatchAt(rows, values, k);
    if |values| == 0 {
      NoLastCommand(InsertOf(s), rows, k, Batch, Batch, prior, sent);
    } else {
      LastCommand(InsertOf(s), rows, k, Batch, Batch, prior, sent);
    }
  }

  /** The rows left in the buffer are the input from the last boundary on. */
  lemma LastBatchAt(rows: seq<Row>, values: seq<Row>, k: nat)
    requires RowsPending(rows, |rows|, values, k)
    ensures BatchEnd(k, Batch, Batch) + |values| == |rows| <= BatchEnd(k + 1, Batch, Batch)
    ensures values == rows[BatchEnd(k, Batch, Batch)..]
  {
    BatchEndNext(k, Batch, Batch);
  }

  /**
   * The loop both phases run: build each item's row, push it, and flush the
   * rest at the end.
   */
  method LoadRows<A>(s: Schema, toRow: A -> Row, items: seq<A>,
                     ghost prior: seq<string>, ghost schedule: seq<string>, sent: seq<string>, accept: Verdict)
    returns (sent': seq<string>, stopped: bool)
    requires prior + Commands(InsertOf(s), MapSeq(toRow, items), Batch, Batch) <= schedule
    requires sent == prior && AllAccepted(sent, accept)
    ensures stopped ==> FirstRejection(schedule, accept).Some? && sent' == FailFast(schedule, accept)
    ensures !stopped ==> sent' == prior + Commands(InsertOf(s), MapSeq(toRow, items), Batch, Batch)
    ensures !stopped ==> AllAccepted(sent', accept)
  {
    ghost var rows := MapSeq(toRow, items);
    assert rows[..0] == [];
    StartRows(s, rows, 0, 0, prior, schedule, sent, accept);
    var values;
    ghost var k;
    values, k, sent', stopped := PushRows(s, toRow, items, rows, prior, schedule, sent, accept);
    if !stopped {
      sent', stopped := FinishRows(s, rows, |rows|, values, k, prior, schedule, sent', accept);
    }
  }

  /** The loop proper: every item's row goes through PushRow. */
  method PushRows<A>(s: Schema, toRow: A -> Row, items: seq<A>, ghost rows: seq<Row>,
                     ghost prior: seq<string>, ghost schedule: seq<string>, sent: seq<string>, accept: Verdict)
    returns (values: seq<Row>, ghost k: nat, sent': seq<string>, stopped: bool)
    requires |rows| == |items| && forall i :: 0 <= i < |items| ==> rows[i] == toRow(items[i])
    requires RowLoading(s, rows, 0, [], 0, prior, schedule, sent, accept)
    ensures stopped ==> FirstRejection(schedule, accept).Some? && sent' == FailFast(schedule, accept)
    ensures !stopped ==> RowLoading(s, rows, |rows|, values, k, prior, schedule, sent', accept)
  {
    values, k, sent', stopped := [], 0, sent, false;
    var i := 0;
    while i < |items|
      invariant 0 <= i <= |items|
      invariant RowLoading(s, rows, i, values, k, prior, schedule, sent', accept)
    {
      values, k, sent', stopped := PushRow(s, rows, i, toRow(items[i]), values, k, prior, schedule, sent', accept);
      if stopped {
        return;
      }
      i := i + 1;
    }
  }

  /** Prefixes of the schedule, phase by phase. */
  lemma SchedulePhases(space: string, g: PropertyGraph)
    requires space in VertexSchemas && space in EdgeSchemas
    ensures var vc := Commands(InsertOf(VertexSchemas[space]), MapSeq(VertexRow, g.vertices), Batch, Batch);
      var ec := Commands(InsertOf(EdgeSchemas[space]), MapSeq(EdgeRow, g.edges), Batch, Batch);
      [UseSpace(space)] <= PropertySchedule(space, g) &&
      [UseSpace(space)] + vc <= PropertySchedule(space, g) &&
      ([UseSpace(space)] + vc) + ec == PropertySchedule(space, g)
  {
  }

  /** A space name both schema tables know; only these can be looked up at a flush. */
  predicate KnownSpace(space: string)
  {
    space in VertexSchemas && space in EdgeSchemas
  }

  /**
   * load_property_graph over the lines of the two files. A line the reader
   * cannot parse ends the program before anything is sent.
   *
   * `use <space>;` is sent for any name. For a name outside the schema
   * tables, `find(space_name)->second` dereferences `end()` at the first
   * flush, which is undefined behaviour; the model stops there with
   * `undefinedLookup` set. An empty graph flushes nothing and so finishes.
   */
  method LoadPropertyGraph(vertexLines: seq<string>, edgeLines: seq<string>, space: string, accept: Verdict)
    returns (sent: seq<string>, ok: bool, undefinedLookup: bool)
    ensures ReadGraph(vertexLines, edgeLines).Err? ==> sent == [] && !ok && !undefinedLookup
    ensures ReadGraph(vertexLines, edgeLines).Ok? && KnownSpace(space) ==>
      sent == FailFast(PropertySchedule(space, ReadGraph(vertexLines, edgeLines).value), accept) &&
      (ok <==> FirstRejection(PropertySchedule(space, ReadGraph(vertexLines, edgeLines).value), accept).None?) &&
      !undefinedLookup
    ensures ReadGraph(vertexLines, edgeLines).Ok? && !KnownSpace(space) ==>
      var g := ReadGraph(vertexLines, edgeLines).value;
      sent == [UseSpace(space)] &&
      (undefinedLookup <==> accept([], UseSpace(space)) && (g.vertices != [] || g.edges != [])) &&
      (ok <==> accept([], UseSpace(space)) && g.vertices == [] && g.edges == [])
  {
    var r := ReadPropertyGraph(vertexLines, edgeLines);
    if r.Err? {
      return [], false, false;
    }
    var g := r.value;
    var use := UseSpace(space);
    var stopped := !accept([], use);
    if !KnownSpace(space) {
      sent := [use];
      if stopped {
        return sent, false, false;
      }
      if g.vertices != [] || g.edges != [] {
        return sent, false, true;
      }
      return sent, true, false;
    }
    undefinedLookup := false;
    ghost var schedule := PropertySchedule(space, g);
    SchedulePhases(space, g);
    SendNext(schedule, accept, [], use);
    sent := [use];
    if stopped {
      return sent, false, false;
    }
    sent, stopped := LoadRows(VertexSchemas[space], VertexRow, g.vertices, sent, schedule, sent, accept);
    if stopped {
      return sent, false, false;
    }
    sent, stopped := LoadRows(EdgeSchemas[space], EdgeRow, g.edges, sent, schedule, sent, accept);
    if stopped {
      return sent, false, false;
    }
    Completed(schedule, accept);
    return sent, true, false;
  }

  // ---------------------------------------------------------------------------
  // What the statements carry

  /**
   * The insert statements, read back: each renders one batch of 1 to 256
   * rows, every batch but the last of a phase holds 256, and the batches in
   * order are exactly the vertex rows, then the edge rows, in file order.
   */
  lemma PropertyBatches(space: string, g: PropertyGraph)
    requires space in VertexSchemas && space in EdgeSchemas
    ensures var vb, eb := Lead(MapSeq(VertexRow, g.vertices), Batch, Batch), Lead(MapSeq(EdgeRow, g.edges), Batch, Batch);
      PropertySchedule(space, g) ==
        [UseSpace(space)] + MapSeq(InsertOf(VertexSchemas[space]), vb) + MapSeq(InsertOf(EdgeSchemas[space]), eb) &&
      Flatten(vb) == MapSeq(VertexRow, g.vertices) && Flatten(eb) == MapSeq(EdgeRow, g.edges) &&
      (forall i :: 0 <= i < |vb| ==> 0 < |vb[i]| <= Batch) && (forall i :: 0 <= i < |eb| ==> 0 < |eb[i]| <= Batch) &&
      (forall i :: 0 <= i < |vb| - 1 ==> |vb[i]| == Batch) && (forall i :: 0 <= i < |eb| - 1 ==> |eb[i]| == Batch)
  {
    EqualBatches(MapSeq(VertexRow, g.vertices), Batch);
    EqualBatches(MapSeq(EdgeRow, g.edges), Batch);
  }

  /**
   * Every insert statement the loader sends is well formed: the batch is never
   * empty, both schemas have columns, and an edge row always carries its
   * `src=>dst` id, so the trailing pops remove only separators.
   */
  lemma PropertyStatementsClean(space: string, g: PropertyGraph)
    requires space in VertexSchemas && space in EdgeSchemas
    ensures var vb, eb := Lead(MapSeq(VertexRow, g.vertices), Batch, Batch), Lead(MapSeq(EdgeRow, g.edges), Batch, Batch);
      (forall i :: 0 <= i < |vb| ==> InsertText(VertexSchemas[space], vb[i]) == CleanInsert(VertexSchemas[space], vb[i])) &&
      (forall i :: 0 <= i < |eb| ==> InsertText(EdgeSchemas[space], eb[i]) == CleanInsert(EdgeSchemas[space], eb[i]))
  {
    var vs, es := VertexSchemas[space], EdgeSchemas[space];
    var vrows, erows := MapSeq(VertexRow, g.vertices), MapSeq(EdgeRow, g.edges);
    SchemaShapes(space);
    forall i | 0 <= i < |Lead(vrows, Batch, Batch)|
      ensures InsertText(vs, Lead(vrows, Batch, Batch)[i]) == CleanInsert(vs, Lead(vrows, Batch, Batch)[i])
    {
      CleanBatch(vs, vrows, i);
    }
    forall i | 0 <= i < |Lead(erows, Batch, Batch)|
      ensures InsertText(es, Lead(erows, Batch, Batch)[i]) == CleanInsert(es, Lead(erows, Batch, Batch)[i])
    {
      EdgeBatchRows(erows, g.edges, i);
      CleanBatch(es, erows, i);
    }
  }

  /** Both data sets use a tag with columns and the property_e edge type. */
  lemma SchemaShapes(space: string)
    requires space in VertexSchemas && space in EdgeSchemas
    ensures VertexSchemas[space].kind == VertexKind && |VertexSchemas[space].orders| > 0
    ensures EdgeSchemas[space] == PropertyEdgeSchema && |PropertyEdgeSchema.orders| > 0
  {
  }

  /** A batch the loader forms is never empty, so its statement is well formed. */
  lemma CleanBatch(s: Schema, rows: seq<Row>, i: nat)
    requires |s.orders| > 0 && i < |Lead(rows, Batch, Batch)|
    requires s.kind == EdgeKind ==> forall j :: 0 <= j < |Lead(rows, Batch, Batch)[i]| ==> |Lead(rows, Batch, Batch)[i][j]| >= 3
    ensures InsertText(s, Lead(rows, Batch, Batch)[i]) == CleanInsert(s, Lead(rows, Batch, Batch)[i])
  {
    EqualBatches(rows, Batch);
    InsertTextClean(s, Lead(rows, Batch, Batch)[i]);
  }

  /** Each batch of edge rows holds only rows of three or more items. */
  lemma EdgeBatchRows(erows: seq<Row>, edges: seq<PropertyEdge>, i: nat)
    requires erows == MapSeq(EdgeRow, edges) && i < |Lead(erows, Batch, Batch)|
    ensures forall j :: 0 <= j < |Lead(erows, Batch, Batch)[i]| ==> |Lead(erows, Batch, Batch)[i][j]| >= 3
  {
    assert forall r :: r in erows ==> |r| >= 3;
    InBatch(erows, i);
  }

  /** Every row of a batch is a row of the input. */
  lemma InBatch(xs: seq<Row>, i: nat)
    requires i < |Lead(xs, Batch, Batch)|
    ensures forall j :: 0 <= j < |Lead(xs, Batch, Batch)[i]| ==> Lead(xs, Batch, Batch)[i][j] in xs
  {
    EqualBatches(xs, Batch);
    var bs := Lead(xs, Batch, Batch);
    forall j | 0 <= j < |bs[i]|
      ensures bs[i][j] in xs
    {
      InFlatten(bs, i, j);
    }
  }
}
