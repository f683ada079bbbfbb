/**
 * The two Nebula loaders. `load_data` reads an edge list into an adjacency
 * map and inserts every key as a vertex and every entry as an edge, 256
 * tuples per statement; `load_property_graph` reads a property graph and
 * inserts it through the schema's insert statement, 256 rows per statement.
 * Both stop the program (exit(0)) at the first statement the store rejects.
 */
module NebulaLoad {
  import opened Wrappers
  import opened Text
  import opened Batching
  import opened Store
  import opened NebulaSchema
  import opened NebulaParse

  /** Rows per insert statement. */
  const Batch: nat := 256

  // ---------------------------------------------------------------------------
  // load_data: the statements

  const VertexInit := "insert vertex v(id) values "
  const EdgeInit := "insert edge e(id) values "

  /** sprintf("%ld:(%ld)", v, v) */
  function VertexTuple(v: int): string
  {
    IntToDec(v) + ":(" + IntToDec(v) + ")"
  }

  /** sprintf("%ld->%ld:(\"%ld=>%ld\")", src, dst, src, dst) */
  function EdgeTuple(e: Pair): string
  {
    IntToDec(e.0) + "->" + IntToDec(e.1) + ":(\"" + IntToDec(e.0) + "=>" + IntToDec(e.1) + "\")"
  }

  /** One statement: the fixed prefix, the tuples separated by ',', then ';'. */
  function TupleCommand(init: string): seq<string> -> string
  {
    (batch: seq<string>) => init + Join(batch, ",") + ";"
  }

  /** The pairs (k, d) for each entry d of k's list. */
  function PairsFrom(k: int, ds: seq<int>): (r: seq<Pair>)
    ensures |r| == |ds|
    ensures forall i :: 0 <= i < |ds| ==> r[i] == (k, ds[i])
  {
    if |ds| == 0 then [] else PairsFrom(k, ds[..|ds| - 1]) + [(k, ds[|ds| - 1])]
  }

  /** The edges in the order the nested loop visits them: keys in map order, each list in order. */
  function EdgeList(data: map<int, seq<int>>, order: seq<int>): seq<Pair>
  {
    if |order| == 0 then []
    else EdgeList(data, order[..|order| - 1]) + PairsFrom(order[|order| - 1], Neighbours(data, order[|order| - 1]))
  }

  /** `order` is the map's iteration order: every key exactly once. */
  predicate KeyOrder(order: seq<int>, data: map<int, seq<int>>)
  {
    (forall i :: 0 <= i < |order| ==> order[i] in data) &&
    (forall k :: k in data ==> k in order) &&
    (forall i, j :: 0 <= i < j < |order| ==> order[i] != order[j])
  }

  function VertexCommands(order: seq<int>): seq<string>
  {
    Commands(TupleCommand(VertexInit), MapSeq(VertexTuple, order), Batch, Batch)
  }

  function EdgeCommands(data: map<int, seq<int>>, order: seq<int>): seq<string>
  {
    Commands(TupleCommand(EdgeInit), MapSeq(EdgeTuple, EdgeList(data, order)), Batch, Batch)
  }

  /** Everything load_data sends when the store accepts every statement. */
  function LoadDataSchedule(data: map<int, seq<int>>, order: seq<int>): seq<string>
  {
    VertexCommands(order) + EdgeCommands(data, order)
  }

  // ---------------------------------------------------------------------------
  // load_data: the loops

  /**
   * The buffer between two flushes: `cur` tuples appended since the last
   * flush, each followed by ','; the flushed tuples end at a batch boundary.
   */
  predicate Pending(init: string, tuples: seq<string>, i: nat, query: string, cur: nat, k: nat)
  {
    cur < Batch && cur <= i <= |tuples| && i - cur == BatchEnd(k, Batch, Batch) &&
    query == init + Terminated(tuples[i - cur..i], ",")
  }

  /** The state of a tuple loop: the buffer, and the statements sent so far, all accepted. */
  predicate Loading(init: string, tuples: seq<string>, i: nat, query: string, cur: nat, k: nat,
                    prior: seq<string>, schedule: seq<string>, sent: seq<string>, accept: Verdict)
  {
    Pending(init, tuples, i, query, cur, k) &&
    prior + Commands(TupleCommand(init), tuples, Batch, Batch) <= schedule &&
    sent == prior + Commands(TupleCommand(init), tuples[..i - cur], Batch, Batch) &&
    AllAccepted(sent, accept)
  }

  /**
   * The loop body shared by the vertex and the edge loop: append a tuple;
   * at 256 tuples close the statement with ';' and send it (exit on
   * rejection), otherwise append ','.
   */
  method PushTuple(init: string, ghost tuples: seq<string>, ghost i: nat, tuple: string,
                   query: string, cur: nat, ghost k: nat,
                   ghost prior: seq<string>, ghost schedule: seq<string>, sent: seq<string>, accept: Verdict)
    returns (query': string, cur': nat, ghost k': nat, ghost next: nat, sent': seq<string>, stopped: bool)
    requires i < |tuples| && tuple == tuples[i]
    requires Loading(init, tuples, i, query, cur, k, prior, schedule, sent, accept)
    ensures next == i + 1
    ensures stopped ==> FirstRejection(schedule, accept).Some? && sent' == FailFast(schedule, accept)
    ensures !stopped ==> Loading(init, tuples, next, query', cur', k', prior, schedule, sent', accept)
  {
    next := i + 1;
    if cur + 1 == Batch {
      var q := query + tuple + ";";
      FlushFull(init, tuples, i, query, cur, k, prior, schedule, sent);
      sent', stopped := Execute(schedule, sent, q, accept);
      query', cur', k' := init, 0, k + 1;
      if !stopped {
        StartBatch(init, tuples, i + 1, k + 1, prior, schedule, sent', accept);
      }
    } else {
      query', cur', k', sent', stopped := query + tuple + ",", cur + 1, k, sent, false;
      AppendPending(init, tuples, i, tuple, query, cur, k, prior, schedule, sent, accept);
    }
  }

  /** A loop state with an empty buffer at a batch boundary. */
  lemma StartBatch(init: string, tuples: seq<string>, i: nat, k: nat,
                   prior: seq<string>, schedule: seq<string>, sent: seq<string>, accept: Verdict)
    requires i <= |tuples| && i == BatchEnd(k, Batch, Batch)
    requires prior + Commands(TupleCommand(init), tuples, Batch, Batch) <= schedule
    requires sent == prior + Commands(TupleCommand(init), tuples[..i], Batch, Batch)
    requires AllAccepted(sent, accept)
    ensures Loading(init, tuples, i, init, 0, k, prior, schedule, sent, accept)
  {
    EmptyPending(init, tuples, i, k);
  }

  lemma EmptyPending(init: string, tuples: seq<string>, i: nat, k: nat)
    requires i <= |tuples| && i == BatchEnd(k, Batch, Batch)
    ensures Pending(init, tuples, i, init, 0, k)
  {
    assert tuples[i..i] == [];
  }

  lemma AppendPending(init: string, tuples: seq<string>, i: nat, tuple: string, query: string, cur: nat, k: nat,
                      prior: seq<string>, schedule: seq<string>, sent: seq<string>, accept: Verdict)
    requires i < |tuples| && tuple == tuples[i] && cur + 1 < Batch
    requires Loading(init, tuples, i, query, cur, k, prior, schedule, sent, accept)
    ensures Loading(init, tuples, i + 1, query + tuple + ",", cur + 1, k, prior, schedule, sent, accept)
  {
    var m := i - cur;
    assert i + 1 - (cur + 1) == m;
    TerminatedExtend(init, tuples, m, i, query);
  }

  lemma TerminatedExtend(init: string, tuples: seq<string>, m: nat, i: nat, query: string)
    requires m <= i < |tuples| && query == init + Terminated(tuples[m..i], ",")
    ensures query + tuples[i] + "," == init + Terminated(tuples[m..i + 1], ",")
  {
    assert tuples[m..i + 1] == tuples[m..i] + [tuples[i]];
    TerminatedSnoc(tuples[m..i], tuples[i], ",");
  }

  /** The 256th tuple closes a statement, which is the next command of the schedule. */
  lemma FlushFull(init: string, tuples: seq<string>, i: nat, query: string, cur: nat, k: nat,
                  prior: seq<string>, schedule: seq<string>, sent: seq<string>)
    requires i < |tuples| && Pending(init, tuples, i, query, cur, k) && cur + 1 == Batch
    requires prior + Commands(TupleCommand(init), tuples, Batch, Batch) <= schedule
    requires sent == prior + Commands(TupleCommand(init), tuples[..i - cur], Batch, Batch)
    ensures i + 1 == BatchEnd(k + 1, Batch, Batch)
    ensures sent + [query + tuples[i] + ";"] == prior + Commands(TupleCommand(init), tuples[..i + 1], Batch, Batch)
    ensures sent + [query + tuples[i] + ";"] <= schedule
  {
    BatchEndNext(k, Batch, Batch);
    CloseBatch(init, tuples, i - cur, i, query);
    NextCommand(TupleCommand(init), tuples, k, Batch, Batch, prior, schedule, sent);
  }

  lemma CloseBatch(init: string, tuples: seq<string>, m: nat, i: nat, query: string)
    requires m <= i < |tuples| && query == init + Terminated(tuples[m..i], ",")
    ensures query + tuples[i] + ";" == TupleCommand(init)(tuples[m..i + 1])
  {
    assert tuples[m..i + 1] == tuples[m..i] + [tuples[i]];
    JoinSnoc(tuples[m..i], tuples[i], ",");
  }

  /** After the loop: if tuples are pending, overwrite the last ',' with ';' and send. */
  method FinishTuples(init: string, ghost tuples: seq<string>, ghost end: nat, query: string, cur: nat, ghost k: nat,
                      ghost prior: seq<string>, ghost schedule: seq<string>, sent: seq<string>, accept: Verdict)
    returns (sent': seq<string>, stopped: bool)
    requires end == |tuples| && Loading(init, tuples, end, query, cur, k, prior, schedule, sent, accept)
    ensures stopped ==> FirstRejection(schedule, accept).Some? && sent' == FailFast(schedule, accept)
    ensures !stopped ==> sent' == prior + Commands(TupleCommand(init), tuples, Batch, Batch)
    ensures !stopped ==> AllAccepted(sent', accept)
  {
    sent' := sent;
    stopped := false;
    FlushLast(init, tuples, query, cur, k, prior, schedule, sent);
    if cur > 0 {
      var q := query[|query| - 1 := ';'];
      sent', stopped := Execute(schedule, sent, q, accept);
    }
  }

  lemma FlushLast(init: string, tuples: seq<string>, query: string, cur: nat, k: nat,
                  prior: seq<string>, schedule: seq<string>, sent: seq<string>)
    requires Pending(init, tuples, |tuples|, query, cur, k)
    requires sent == prior + Commands(TupleCommand(init), tuples[..|tuples| - cur], Batch, Batch)
    ensures cur == 0 ==> sent == prior + Commands(TupleCommand(init), tuples, Batch, Batch)
    ensures cur > 0 ==> (|query| > 0 &&
      sent + [query[|query| - 1 := ';']] == prior + Commands(TupleCommand(init), tuples, Batch, Batch))
  {
    var m := |tuples| - cur;
    BatchEndNext(k, Batch, Batch);
    if cur == 0 {
      NoLastCommand(TupleCommand(init), tuples, k, Batch, Batch, prior, sent);
    } else {
      ReplaceLastSeparator(init, tuples[m..], ',', ';');
      assert tuples[m..|tuples|] == tuples[m..];
      assert query[|query| - 1 := ';'] == TupleCommand(init)(tuples[m..]);
      LastCommand(TupleCommand(init), tuples, k, Batch, Batch, prior, sent);
    }
  }

  lemma {:induction false} EdgeListMono(data: map<int, seq<int>>, order: seq<int>, j: nat)
    requires j <= |order|
    ensures EdgeList(data, order[..j]) <= EdgeList(data, order)
    decreases |order|
  {
    if j < |order| {
      var init := order[..|order| - 1];
      assert init[..j] == order[..j];
      EdgeListMono(data, init, j);
    } else {
      assert order[..j] == order;
    }
  }

  /** The end of a key's list completes that key's part of the edge list. */
  lemma EdgeListKeyDone(data: map<int, seq<int>>, order: seq<int>, ki: nat)
    requires ki < |order|
    ensures var src, dsts := order[ki], Neighbours(data, order[ki]);
      EdgeList(data, order[..ki]) + PairsFrom(src, dsts[..|dsts|]) == EdgeList(data, order[..ki + 1])
  {
    var dsts := Neighbours(data, order[ki]);
    assert order[..ki + 1][..ki] == order[..ki];
    assert dsts[..|dsts|] == dsts;
  }

  /** Phase 1 of load_data: one vertex tuple per key, in map order. */
  method LoadVertices(order: seq<int>, ghost schedule: seq<string>, accept: Verdict)
    returns (sent: seq<string>, stopped: bool)
    requires VertexCommands(order) <= schedule
    ensures stopped ==> FirstRejection(schedule, accept).Some? && sent == FailFast(schedule, accept)
    ensures !stopped ==> sent == VertexCommands(order) && AllAccepted(sent, accept)
  {
    ghost var vts := MapSeq(VertexTuple, order);
    assert [] + Commands(TupleCommand(VertexInit), vts, Batch, Batch) == VertexCommands(order);
    assert vts[..0] == [];
    StartBatch(VertexInit, vts, 0, 0, [], schedule, [], accept);
    var query, cur;
    ghost var k;
    query, cur, k, sent, stopped := PushVertices(order, vts, schedule, accept);
    if !stopped {
      sent, stopped := FinishTuples(VertexInit, vts, |order|, query, cur, k, [], schedule, sent, accept);
    }
  }

  /** The vertex loop proper: one tuple per vertex, through PushTuple. */
  method PushVertices(order: seq<int>, ghost vts: seq<string>, ghost schedule: seq<string>, accept: Verdict)
    returns (query: string, cur: nat, ghost k: nat, sent: seq<string>, stopped: bool)
    requires |vts| == |order| && forall i :: 0 <= i < |order| ==> vts[i] == VertexTuple(order[i])
    requires Loading(VertexInit, vts, 0, VertexInit, 0, 0, [], schedule, [], accept)
    ensures stopped ==> FirstRejection(schedule, accept).Some? && sent == FailFast(schedule, accept)
    ensures !stopped ==> Loading(VertexInit, vts, |order|, query, cur, k, [], schedule, sent, accept)
  {
    query, cur, k, sent, stopped := VertexInit, 0, 0, [], false;
    var i := 0;
    while i < |order|
      invariant 0 <= i <= |order|
      invariant Loading(VertexInit, vts, i, query, cur, k, [], schedule, sent, accept)
    {
      ghost var next;
      query, cur, k, next, sent, stopped := PushTuple(VertexInit, vts, i, VertexTuple(order[i]), query, cur, k, [], schedule, sent, accept);
      if stopped {
        return;
      }
      i := i + 1;
    }
  }

  /** The inner loop of phase 2: the edges out of one key. */
  method LoadKeyEdges(src: int, dsts: seq<int>, ghost ets: seq<string>, ghost start: nat, query: string, cur: nat, ghost k: nat,
                      ghost prior: seq<string>, ghost schedule: seq<string>, sent: seq<string>, accept: Verdict)
    returns (query': string, cur': nat, ghost k': nat, ghost pos: nat, sent': seq<string>, stopped: bool)
    requires start + |dsts| <= |ets|
    requires forall d :: 0 <= d < |dsts| ==> ets[start + d] == EdgeTuple((src, dsts[d]))
    requires Loading(EdgeInit, ets, start, query, cur, k, prior, schedule, sent, accept)
    ensures stopped ==> FirstRejection(schedule, accept).Some? && sent' == FailFast(schedule, accept)
    ensures !stopped ==> pos == start + |dsts| && Loading(EdgeInit, ets, pos, query', cur', k', prior, schedule, sent', accept)
  {
    query', cur', k', sent', stopped := query, cur, k, sent, false;
    pos := start;
    var di := 0;
    while di < |dsts|
      invariant 0 <= di <= |dsts| && pos == start + di
      invariant Loading(EdgeInit, ets, pos, query', cur', k', prior, schedule, sent', accept)
    {
      TupleAtKey(ets, start, src, dsts, di, pos);
      query', cur', k', pos, sent', stopped := PushTuple(EdgeInit, ets, pos, EdgeTuple((src, dsts[di])), query', cur', k', prior, schedule, sent', accept);
      if stopped {
        return;
      }
      di := di + 1;
    }
  }

  /** The tuple for edge (src, dsts[di]) is the edge list's entry at start + di. */
  lemma TupleAtKey(ets: seq<string>, start: nat, src: int, dsts: seq<int>, di: nat, i: nat)
    requires start + |dsts| <= |ets| && di < |dsts| && i == start + di
    requires forall d :: 0 <= d < |dsts| ==> ets[start + d] == EdgeTuple((src, dsts[d]))
    ensures i < |ets| && ets[i] == EdgeTuple((src, dsts[di]))
  {
  }

  lemma KeyTupleAt(before: seq<Pair>, src: int, dsts: seq<int>, edges: seq<Pair>, ets: seq<string>, pos: nat, d: nat)
    requires before + PairsFrom(src, dsts) <= edges && ets == MapSeq(EdgeTuple, edges)
    requires pos == |before| && d < |dsts|
    ensures pos + d < |ets| && ets[pos + d] == EdgeTuple((src, dsts[d]))
  {
    IndexInPrefix(before, PairsFrom(src, dsts), edges, pos, d);
  }

  lemma IndexInPrefix<T>(a: seq<T>, b: seq<T>, c: seq<T>, p: nat, i: nat)
    requires a + b <= c && p == |a| && i < |b|
    ensures p + i < |c| && c[p + i] == b[i]
  {
    assert c[p + i] == (a + b)[p + i];
  }

  /** The key's part of the edge list follows the earlier keys' parts, inside the whole list. */
  lemma KeyEdges(data: map<int, seq<int>>, order: seq<int>, ki: nat)
    requires ki < |order|
    ensures var dsts := Neighbours(data, order[ki]);
      EdgeList(data, order[..ki]) + PairsFrom(order[ki], dsts) == EdgeList(data, order[..ki + 1]) &&
      EdgeList(data, order[..ki + 1]) <= EdgeList(data, order) &&
      |EdgeList(data, order[..ki + 1])| == |EdgeList(data, order[..ki])| + |dsts|
  {
    EdgeListKeyDone(data, order, ki);
    EdgeListMono(data, order, ki + 1);
    var dsts := Neighbours(data, order[ki]);
    assert dsts[..|dsts|] == dsts;
  }

  /** What the outer loop knows about key ki's list before running the inner loop. */
  lemma KeyStep(data: map<int, seq<int>>, order: seq<int>, ki: nat, ets: seq<string>, pos: nat)
    requires ki < |order| && order[ki] in data
    requires ets == MapSeq(EdgeTuple, EdgeList(data, order)) && pos == |EdgeList(data, order[..ki])|
    ensures var src := order[ki];
      pos + |data[src]| == |EdgeList(data, order[..ki + 1])| && pos + |data[src]| <= |ets| &&
      forall d :: 0 <= d < |data[src]| ==> ets[pos + d] == EdgeTuple((src, data[src][d]))
  {
    var src := order[ki];
    var dsts := data[src];
    var before := EdgeList(data, order[..ki]);
    assert Neighbours(data, src) == dsts;
    KeyEdges(data, order, ki);
    assert before + PairsFrom(src, dsts) <= EdgeList(data, order);
    assert |before + PairsFrom(src, dsts)| <= |ets|;
    forall d | 0 <= d < |dsts| ensures ets[pos + d] == EdgeTuple((src, dsts[d])) {
      KeyTupleAt(before, src, dsts, EdgeList(data, order), ets, pos, d);
    }
  }

  /** Phase 2 of load_data: for each key in map order, one edge tuple per list entry. */
  method LoadEdges(graph: map<int, seq<int>>, order: seq<int>,
                   ghost prior: seq<string>, ghost schedule: seq<string>, sent: seq<string>, accept: Verdict)
    returns (sent': seq<string>, stopped: bool)
    requires KeyOrder(order, graph)
    requires prior + EdgeCommands(graph, order) <= schedule
    requires sent == prior && AllAccepted(sent, accept)
    ensures stopped ==> FirstRejection(schedule, accept).Some? && sent' == FailFast(schedule, accept)
    ensures !stopped ==> sent' == prior + EdgeCommands(graph, order) && AllAccepted(sent', accept)
  {
    ghost var ets := MapSeq(EdgeTuple, EdgeList(graph, order));
    var query := EdgeInit;
    var cur := 0;
    ghost var k := 0;
    sent' := sent;
    assert order[..0] == [];
    assert ets[..0] == [];
    StartBatch(EdgeInit, ets, 0, 0, prior, schedule, sent', accept);
    ghost var pos: nat := 0;
    var ki := 0;
    while ki < |order|
      invariant 0 <= ki <= |order| && pos == |EdgeList(graph, order[..ki])|
      invariant Loading(EdgeInit, ets, pos, query, cur, k, prior, schedule, sent', accept)
    {
      var src := order[ki];
      KeyStep(graph, order, ki, ets, pos);
      query, cur, k, pos, sent', stopped := LoadKeyEdges(src, graph[src], ets, pos, query, cur, k, prior, schedule, sent', accept);
      if stopped {
        return;
      }
      ki := ki + 1;
    }
    assert order[..ki] == order;
    sent', stopped := FinishTuples(EdgeInit, ets, pos, query, cur, k, prior, schedule, sent', accept);
  }

  /**
   * Insert every key of the adjacency map as a vertex, then every entry as an
   * edge, batching 256 tuples per statement; stop at the first rejection.
   */
  method LoadGraph(graph: map<int, seq<int>>, order: seq<int>, accept: Verdict) returns (sent: seq<string>, ok: bool)
    requires KeyOrder(order, graph)
    ensures sent == FailFast(LoadDataSchedule(graph, order), accept)
    ensures ok <==> FirstRejection(LoadDataSchedule(graph, order), accept).None?
  {
    ghost var schedule := LoadDataSchedule(graph, order);
    var stopped: bool;
    sent, stopped := LoadVertices(order, schedule, accept);
    if stopped {
      return sent, false;
    }
    sent, stopped := LoadEdges(graph, order, sent, schedule, sent, accept);
    if stopped {
      return sent, false;
    }
    Completed(schedule, accept);
    return sent, true;
  }

  /**
   * load_data: read the pairs into the adjacency map (always directed: the
   * undirected flag is accepted and ignored) and load it.
   */
  method LoadData(pairs: seq<Pair>, isUndirected: bool, order: seq<int>, accept: Verdict) returns (sent: seq<string>, ok: bool)
    requires KeyOrder(order, AdjacencyOf(pairs, false))
    ensures sent == FailFast(LoadDataSchedule(AdjacencyOf(pairs, false), order), accept)
    ensures ok <==> FirstRejection(LoadDataSchedule(AdjacencyOf(pairs, false), order), accept).None?
  {
    var graph := ReadData(pairs, false);
    sent, ok := LoadGraph(graph, order, accept);
  }

  // ---------------------------------------------------------------------------
  // load_data: what the statements carry

  lemma {:induction false} PairsFromCount(k: int, ds: seq<int>, a: int, b: int)
    ensures multiset(PairsFrom(k, ds))[(a, b)] == if a == k then multiset(ds)[b] else 0
  {
    if |ds| > 0 {
      var init := ds[..|ds| - 1];
      var last := ds[|ds| - 1];
      PairsFromCount(k, init, a, b);
      SnocSplit(ds);
      assert PairsFrom(k, ds) == PairsFrom(k, init) + [(k, last)];
      CountSnoc(init, last, b);
      CountSnoc(PairsFrom(k, init), (k, last), (a, b));
    }
  }

  /** Keys in `order` are distinct, and the edges out of such keys are counted once each. */
  lemma {:induction false} EdgeListCountFrom(data: map<int, seq<int>>, order: seq<int>, a: int, b: int)
    requires forall i, j :: 0 <= i < j < |order| ==> order[i] != order[j]
    ensures multiset(EdgeList(data, order))[(a, b)] == if a in order then multiset(Neighbours(data, a))[b] else 0
  {
    if |order| > 0 {
      var init := order[..|order| - 1];
      var last := order[|order| - 1];
      EdgeListCountFrom(data, init, a, b);
      PairsFromCount(last, Neighbours(data, last), a, b);
      SnocSplit(order);
      CountConcat(EdgeList(data, init), PairsFrom(last, Neighbours(data, last)), (a, b));
      assert a in order <==> a in init || a == last;
      assert a == last ==> a !in init;
    }
  }

  /** Every entry of the adjacency map becomes exactly one edge tuple. */
  lemma EdgeListCount(data: map<int, seq<int>>, order: seq<int>, a: int, b: int)
    requires KeyOrder(order, data)
    ensures multiset(EdgeList(data, order))[(a, b)] == multiset(Neighbours(data, a))[b]
  {
    EdgeListCountFrom(data, order, a, b);
  }

  /**
   * load_data inserts every pair of the file as an edge, as often as it
   * occurs, and nothing else.
   */
  lemma EdgesArePairs(pairs: seq<Pair>, order: seq<int>)
    requires KeyOrder(order, AdjacencyOf(pairs, false))
    ensures multiset(EdgeList(AdjacencyOf(pairs, false), order)) == multiset(pairs)
  {
    AdjacencyIsIncident(pairs, false);
    forall e: Pair
      ensures multiset(EdgeList(AdjacencyOf(pairs, false), order))[e] == multiset(pairs)[e]
    {
      EdgeListCount(AdjacencyOf(pairs, false), order, e.0, e.1);
      DirectedCounts(pairs, e.0, e.1);
    }
  }

  /**
   * The statements load_data sends, read back: each statement is the fixed
   * prefix and a batch of 1 to 256 tuples, all batches but the last hold 256,
   * and the batches in order are the vertex tuples (one per key, in map
   * order) followed, in the edge statements, by the edge tuples in visiting order.
   */
  lemma LoadDataBatches(data: map<int, seq<int>>, order: seq<int>)
    ensures var vs, es := Lead(MapSeq(VertexTuple, order), Batch, Batch), Lead(MapSeq(EdgeTuple, EdgeList(data, order)), Batch, Batch);
      LoadDataSchedule(data, order) == MapSeq(TupleCommand(VertexInit), vs) + MapSeq(TupleCommand(EdgeInit), es) &&
      Flatten(vs) == MapSeq(VertexTuple, order) && Flatten(es) == MapSeq(EdgeTuple, EdgeList(data, order)) &&
      (forall i :: 0 <= i < |vs| ==> 0 < |vs[i]| <= Batch) && (forall i :: 0 <= i < |es| ==> 0 < |es[i]| <= Batch) &&
      (forall i :: 0 <= i < |vs| - 1 ==> |vs[i]| == Batch) && (forall i :: 0 <= i < |es| - 1 ==> |es[i]| == Batch)
  {
    EqualBatches(MapSeq(VertexTuple, order), Batch);
    EqualBatches(MapSeq(EdgeTuple, EdgeList(data, order)), Batch);
  }

  // ---------------------------------------------------------------------------
  // load_data and the undirected flag

  /**
   * load_data as written drops the flag: with the file "1 2" and
   * is_undirected set, the map read has the single key 1, so the run
   * inserts vertex 1 and the edge 1->2 only, never vertex 2 or the edge 2->1.
   */
  lemma UndirectedFlagIgnored()
    ensures AdjacencyOf([(1, 2)], false) == map[1 := [2]]
    ensures EdgeList(AdjacencyOf([(1, 2)], false), [1]) == [(1, 2)]
    ensures KeyOrder([1], AdjacencyOf([(1, 2)], false))
  {
    OnePairMap();
    OneKeyEdges();
  }

  lemma OnePairMap()
    ensures AdjacencyOf([(1, 2)], false) == map[1 := [2]]
  {
    var pairs: seq<Pair> := [(1, 2)];
    assert pairs[..0] == [];
    assert AdjacencyOf(pairs, false) == AddPair(map[], (1, 2), false);
    assert Neighbours(map[], 1) + [2] == [2];
  }

  lemma OneKeyEdges()
    ensures EdgeList(map[1 := [2]], [1]) == [(1, 2)]
  {
    var order: seq<int> := [1];
    assert order[..0] == [];
    assert Neighbours(map[1 := [2]], 1) == [2];
    assert [2][..0] == [];
    assert PairsFrom(1, [2]) == [(1, 2)];
  }

  /** load_data with the flag passed on to the file reader, as its signature and the design intend. */
  method LoadDataUndirected(pairs: seq<Pair>, isUndirected: bool, order: seq<int>, accept: Verdict) returns (sent: seq<string>, ok: bool)
    requires KeyOrder(order, AdjacencyOf(pairs, isUndirected))
    ensures sent == FailFast(LoadDataSchedule(AdjacencyOf(pairs, isUndirected), order), accept)
    ensures ok <==> FirstRejection(LoadDataSchedule(AdjacencyOf(pairs, isUndirected), order), accept).None?
  {
    var graph := ReadData(pairs, isUndirected);
    sent, ok := LoadGraph(graph, order, accept);
  }

  /**
   * With the flag honoured, an undirected load inserts each pair in both
   * directions: (a, b) is inserted once per (a, b) and once per (b, a) in the file.
   */
  lemma UndirectedEdgesBothWays(pairs: seq<Pair>, order: seq<int>, a: int, b: int)
    requires KeyOrder(order, AdjacencyOf(pairs, true))
    ensures multiset(EdgeList(AdjacencyOf(pairs, true), order))[(a, b)] == multiset(pairs)[(a, b)] + multiset(pairs)[(b, a)]
  {
    AdjacencyIsIncident(pairs, true);
    EdgeListCount(AdjacencyOf(pairs, true), order, a, b);
    UndirectedCounts(pairs, a, b);
  }
}
