/**
 * The partition of a row sequence into insert commands. Every loader in the
 * repository cuts its rows into consecutive batches; the backends differ only
 * in where the cuts fall:
 *  - Chunks(xs, n): full batches of n, then one partial batch (Nebula, and
 *    DuckDB's edge loader);
 *  - Lead(xs, first, n): a first batch of `first` rows, then Chunks of n
 *    (Umbra: first = 1025, n = 1024; DuckDB vertices: first = 1, n = 256).
 */
module Batching {

  /** Concatenation of a sequence of batches. */
  function Flatten<T>(xss: seq<seq<T>>): seq<T>
  {
    if |xss| == 0 then [] else Flatten(xss[..|xss| - 1]) + xss[|xss| - 1]
  }

  /** Map a rendering function over a sequence (std::transform). */
  function MapSeq<A, B>(f: A -> B, xs: seq<A>): (r: seq<B>)
    ensures |r| == |xs|
    ensures forall i :: 0 <= i < |xs| ==> r[i] == f(xs[i])
  {
    if |xs| == 0 then [] else MapSeq(f, xs[..|xs| - 1]) + [f(xs[|xs| - 1])]
  }

  lemma MapSeqAppend<A, B>(f: A -> B, xs: seq<A>, ys: seq<A>)
    ensures MapSeq(f, xs + ys) == MapSeq(f, xs) + MapSeq(f, ys)
  {
  }

  /** Mapping one more element appends its image. */
  lemma MapSeqPrefix<A, B>(f: A -> B, xs: seq<A>, k: nat)
    requires k < |xs|
    ensures MapSeq(f, xs[..k + 1]) == MapSeq(f, xs[..k]) + [f(xs[k])]
  {
  }

  /** A nonempty sequence is its prefix and its last element. */
  lemma SnocSplit<T>(xs: seq<T>)
    requires |xs| > 0
    ensures xs == xs[..|xs| - 1] + [xs[|xs| - 1]]
  {
  }

  lemma InConcat<T>(a: seq<T>, b: seq<T>, x: T)
    ensures x in a + b <==> x in a || x in b
  {
  }

  lemma WholeSlice<T>(xs: seq<T>, n: nat)
    requires n == |xs|
    ensures xs[..n] == xs
  {
  }

  lemma SliceSnoc<T>(xs: seq<T>, a: nat, b: nat)
    requires a <= b < |xs|
    ensures xs[a..b + 1] == xs[a..b] + [xs[b]]
  {
  }

  lemma FlattenSnoc<T>(xss: seq<seq<T>>, xs: seq<T>)
    ensures Flatten(xss + [xs]) == Flatten(xss) + xs
  {
    assert (xss + [xs])[..|xss|] == xss;
  }

  /** Every item of every batch is in the concatenation. */
  lemma {:induction false} InFlatten<T>(xss: seq<seq<T>>, i: nat, j: nat)
    requires i < |xss| && j < |xss[i]|
    ensures xss[i][j] in Flatten(xss)
  {
    var init := xss[..|xss| - 1];
    if i < |xss| - 1 {
      InFlatten(init, i, j);
    } else {
      assert Flatten(xss) == Flatten(init) + xss[i];
      assert Flatten(xss)[|Flatten(init)| + j] == xss[i][j];
    }
  }

  lemma {:induction false} FlattenAppend<T>(xss: seq<seq<T>>, yss: seq<seq<T>>)
    ensures Flatten(xss + yss) == Flatten(xss) + Flatten(yss)
    decreases |yss|
  {
    if |yss| == 0 {
      assert xss + yss == xss;
    } else {
      var init := yss[..|yss| - 1];
      assert (xss + yss)[..|xss + yss| - 1] == xss + init;
      FlattenAppend(xss, init);
    }
  }

  /** Full batches of `n` rows, then the remaining rows (if any) as one batch. */
  function Chunks<T>(xs: seq<T>, n: nat): seq<seq<T>>
    requires n > 0
    decreases |xs|
  {
    if |xs| == 0 then []
    else if |xs| <= n then [xs]
    else [xs[..n]] + Chunks(xs[n..], n)
  }

  /** A first batch of `first` rows, then batches of `n`. */
  function Lead<T>(xs: seq<T>, first: nat, n: nat): seq<seq<T>>
    requires first > 0 && n > 0
  {
    if |xs| <= first then Chunks(xs, first)
    else [xs[..first]] + Chunks(xs[first..], n)
  }

  /** Sending every batch sends every row once, in order. */
  lemma {:induction false} FlattenChunks<T>(xs: seq<T>, n: nat)
    requires n > 0
    ensures Flatten(Chunks(xs, n)) == xs
    decreases |xs|
  {
    if |xs| == 0 {
    } else if |xs| <= n {
      FlattenSingle(xs);
    } else {
      FlattenChunks(xs[n..], n);
      FlattenAppend([xs[..n]], Chunks(xs[n..], n));
      FlattenSingle(xs[..n]);
      TakeDrop(xs, n);
    }
  }

  lemma FlattenSingle<T>(xs: seq<T>)
    ensures Flatten([xs]) == xs
  {
    assert [xs][..0] == [];
  }

  lemma TakeDrop<T>(xs: seq<T>, n: nat)
    requires n <= |xs|
    ensures xs[..n] + xs[n..] == xs
  {
  }

  /** Every batch holds 1..n rows, and all but the last hold exactly n. */
  lemma {:induction false} ChunkSizes<T>(xs: seq<T>, n: nat)
    requires n > 0
    ensures forall i :: 0 <= i < |Chunks(xs, n)| ==> 0 < |Chunks(xs, n)[i]| <= n
    ensures forall i :: 0 <= i < |Chunks(xs, n)| - 1 ==> |Chunks(xs, n)[i]| == n
    decreases |xs|
  {
    if |xs| > n {
      ChunkSizes(xs[n..], n);
      var c := Chunks(xs, n);
      assert forall i :: 1 <= i < |c| ==> c[i] == Chunks(xs[n..], n)[i - 1];
    }
  }

  /** Where the k-th batch of Lead(_, first, n) ends: 0, first, first + n, first + 2n, ... */
  function BatchEnd(k: nat, first: nat, n: nat): nat
  {
    if k == 0 then 0 else if k == 1 then first else BatchEnd(k - 1, first, n) + n
  }

  lemma {:induction false} BatchEndShift(k: nat, first: nat, n: nat)
    requires k > 0
    ensures BatchEnd(k, first, n) - first == BatchEnd(k - 1, n, n)
    ensures BatchEnd(k, first, n) >= first
  {
    if k > 1 {
      BatchEndShift(k - 1, first, n);
    }
  }

  /** Batching a prefix that ends on a batch boundary does not disturb the rest. */
  lemma {:induction false} ChunksAppend<T>(xs: seq<T>, ys: seq<T>, n: nat, k: nat)
    requires n > 0 && |xs| == BatchEnd(k, n, n)
    ensures Chunks(xs + ys, n) == Chunks(xs, n) + Chunks(ys, n)
    decreases k
  {
    if k == 0 {
      assert xs + ys == ys;
    } else {
      BatchEndShift(k, n, n);
      var zs := xs + ys;
      if |xs| == n && |ys| == 0 {
        assert zs == xs;
      } else {
        assert zs[..n] == xs[..n];
        assert zs[n..] == xs[n..] + ys;
        ChunksAppend(xs[n..], ys, n, k - 1);
        if |xs| == n {
          assert xs[n..] == [];
          assert xs[..n] == xs;
        }
      }
    }
  }

  lemma LeadUnfold<T>(xs: seq<T>, first: nat, n: nat)
    requires first > 0 && n > 0 && |xs| >= first
    ensures Lead(xs, first, n) == [xs[..first]] + Chunks(xs[first..], n)
  {
    if |xs| == first {
      assert xs[..first] == xs && xs[first..] == [];
    }
  }

  /** Lead cut at the end of its k-th batch (k > 0): the batches of the prefix, then the rest. */
  lemma LeadSplit<T>(xs: seq<T>, k: nat, first: nat, n: nat)
    requires first > 0 && n > 0 && k > 0 && BatchEnd(k, first, n) <= |xs|
    ensures var m := BatchEnd(k, first, n);
      Lead(xs, first, n) == Lead(xs[..m], first, n) + Chunks(xs[m..], n)
  {
    var m := BatchEnd(k, first, n);
    var p := xs[..m];
    assert first <= m && |p[first..]| == BatchEnd(k - 1, n, n) by {
      BatchEndShift(k, first, n);
    }
    var head, mid, tail := xs[..first], Chunks(p[first..], n), Chunks(xs[m..], n);
    assert Chunks(xs[first..], n) == mid + tail by {
      SliceSplit(xs, first, m);
      ChunksAppend(p[first..], xs[m..], n, k - 1);
    }
    assert Lead(xs, first, n) == [head] + (mid + tail) by {
      LeadUnfold(xs, first, n);
    }
    assert Lead(p, first, n) == [head] + mid by {
      LeadUnfold(p, first, n);
      assert p[..first] == head;
    }
    ConsAssoc(head, mid, tail);
  }

  lemma SliceSplit<T>(xs: seq<T>, a: nat, b: nat)
    requires a <= b <= |xs|
    ensures xs[a..] == xs[..b][a..] + xs[b..]
  {
  }

  lemma ConsAssoc<T>(h: T, a: seq<T>, b: seq<T>)
    ensures [h] + (a + b) == ([h] + a) + b
  {
  }

  /** Flushing at the next boundary appends exactly the pending rows as one batch. */
  lemma LeadExtend<T>(xs: seq<T>, k: nat, first: nat, n: nat)
    requires first > 0 && n > 0 && BatchEnd(k + 1, first, n) <= |xs|
    ensures var m, m' := BatchEnd(k, first, n), BatchEnd(k + 1, first, n);
      m <= m' && Lead(xs[..m'], first, n) == Lead(xs[..m], first, n) + [xs[m..m']]
  {
    var m, m' := BatchEnd(k, first, n), BatchEnd(k + 1, first, n);
    var p := xs[..m'];
    assert p[..m] == xs[..m];
    assert p[m..] == xs[m..m'];
    if k == 0 {
      assert xs[..m] == [];
      assert p == xs[m..m'];
    } else {
      LeadSplit(p, k, first, n);
    }
  }

  /** At end of input the pending rows (if any) form the last batch. */
  lemma LeadFinish<T>(xs: seq<T>, k: nat, first: nat, n: nat)
    requires first > 0 && n > 0 && BatchEnd(k, first, n) <= |xs| <= BatchEnd(k + 1, first, n)
    ensures var m := BatchEnd(k, first, n);
      Lead(xs, first, n) == Lead(xs[..m], first, n) + (if m == |xs| then [] else [xs[m..]])
  {
    var m := BatchEnd(k, first, n);
    if k == 0 {
      assert xs[..m] == [] && xs[m..] == xs;
    } else {
      LeadSplit(xs, k, first, n);
      BatchEndShift(k + 1, first, n);
      assert |xs[m..]| <= n;
    }
  }

  /** Chunks is Lead with a first batch of the ordinary size. */
  lemma ChunksIsLead<T>(xs: seq<T>, n: nat)
    requires n > 0
    ensures Chunks(xs, n) == Lead(xs, n, n)
  {
  }

  /** Lead's batches concatenate back to the input. */
  lemma FlattenLead<T>(xs: seq<T>, first: nat, n: nat)
    requires first > 0 && n > 0
    ensures Flatten(Lead(xs, first, n)) == xs
  {
    if |xs| <= first {
      FlattenChunks(xs, first);
    } else {
      FlattenChunks(xs[first..], n);
      FlattenAppend([xs[..first]], Chunks(xs[first..], n));
      FlattenSingle(xs[..first]);
      TakeDrop(xs, first);
    }
  }

  /** Lead's first batch holds 1..first rows, every later one 1..n, all but the last exactly n. */
  lemma LeadSizes<T>(xs: seq<T>, first: nat, n: nat)
    requires first > 0 && n > 0
    ensures |Lead(xs, first, n)| > 0 ==> 0 < |Lead(xs, first, n)[0]| <= first
    ensures |xs| > first ==> |Lead(xs, first, n)[0]| == first
    ensures forall i :: 1 <= i < |Lead(xs, first, n)| ==> 0 < |Lead(xs, first, n)[i]| <= n
    ensures forall i :: 1 <= i < |Lead(xs, first, n)| - 1 ==> |Lead(xs, first, n)[i]| == n
  {
    ChunkSizes(xs, first);
    if |xs| > first {
      ChunkSizes(xs[first..], n);
      var c := Lead(xs, first, n);
      assert forall i :: 1 <= i < |c| ==> c[i] == Chunks(xs[first..], n)[i - 1];
    } else {
      assert |Chunks(xs, first)| <= 1;
    }
  }

  // ---------------------------------------------------------------------------
  // Commands: one rendered command per batch

  /** The command for each batch of `xs`, in order. */
  function Commands<T>(render: seq<T> -> string, xs: seq<T>, first: nat, n: nat): seq<string>
    requires first > 0 && n > 0
  {
    MapSeq(render, Lead(xs, first, n))
  }

  /** Flushing at the next boundary sends the pending rows as one more command. */
  lemma CommandsExtend<T>(render: seq<T> -> string, xs: seq<T>, k: nat, first: nat, n: nat)
    requires first > 0 && n > 0 && BatchEnd(k + 1, first, n) <= |xs|
    ensures var m, m' := BatchEnd(k, first, n), BatchEnd(k + 1, first, n);
      m <= m' &&
      Commands(render, xs[..m'], first, n) == Commands(render, xs[..m], first, n) + [render(xs[m..m'])]
  {
    var m, m' := BatchEnd(k, first, n), BatchEnd(k + 1, first, n);
    LeadExtend(xs, k, first, n);
    MapSeqAppend(render, Lead(xs[..m], first, n), [xs[m..m']]);
  }

  /** The commands for the rows up to a boundary are a prefix of all the commands. */
  lemma CommandsPrefix<T>(render: seq<T> -> string, xs: seq<T>, k: nat, first: nat, n: nat)
    requires first > 0 && n > 0 && BatchEnd(k, first, n) <= |xs|
    ensures Commands(render, xs[..BatchEnd(k, first, n)], first, n) <= Commands(render, xs, first, n)
  {
    var m := BatchEnd(k, first, n);
    if k == 0 {
      assert xs[..m] == [];
    } else {
      LeadSplit(xs, k, first, n);
      MapSeqAppend(render, Lead(xs[..m], first, n), Chunks(xs[m..], n));
    }
  }

  /** At end of input the commands are those up to the last boundary plus one for the pending rows, if any. */
  lemma CommandsFinish<T>(render: seq<T> -> string, xs: seq<T>, k: nat, first: nat, n: nat)
    requires first > 0 && n > 0 && BatchEnd(k, first, n) <= |xs| <= BatchEnd(k + 1, first, n)
    ensures var m := BatchEnd(k, first, n);
      Commands(render, xs, first, n) ==
        Commands(render, xs[..m], first, n) + (if m == |xs| then [] else [render(xs[m..])])
  {
    var m := BatchEnd(k, first, n);
    LeadFinish(xs, k, first, n);
    MapSeqAppend(render, Lead(xs[..m], first, n), if m == |xs| then [] else [xs[m..]]);
  }

  /** The next boundary lies `n` rows on (`first` rows for the first one). */
  lemma BatchEndNext(k: nat, first: nat, n: nat)
    ensures BatchEnd(k + 1, first, n) == BatchEnd(k, first, n) + (if k == 0 then first else n)
  {
  }

  /**
   * A loader that has sent `prior` and the commands up to boundary k, and
   * now sends the command for the next batch, has sent a longer prefix of
   * its schedule.
   */
  lemma NextCommand<T>(render: seq<T> -> string, xs: seq<T>, k: nat, first: nat, n: nat,
                       prior: seq<string>, schedule: seq<string>, sent: seq<string>)
    requires first > 0 && n > 0 && BatchEnd(k + 1, first, n) <= |xs|
    requires prior + Commands(render, xs, first, n) <= schedule
    requires sent == prior + Commands(render, xs[..BatchEnd(k, first, n)], first, n)
    ensures var cmd := render(xs[BatchEnd(k, first, n)..BatchEnd(k + 1, first, n)]);
      sent + [cmd] == prior + Commands(render, xs[..BatchEnd(k + 1, first, n)], first, n) &&
      sent + [cmd] <= schedule
  {
    CommandsExtend(render, xs, k, first, n);
    CommandsPrefix(render, xs, k + 1, first, n);
  }

  /** NextCommand, for a batch given by value. */
  lemma NextBatch<T>(render: seq<T> -> string, xs: seq<T>, k: nat, first: nat, n: nat,
                     prior: seq<string>, schedule: seq<string>, sent: seq<string>, batch: seq<T>)
    requires first > 0 && n > 0 && BatchEnd(k + 1, first, n) <= |xs|
    requires batch == xs[BatchEnd(k, first, n)..BatchEnd(k + 1, first, n)]
    requires prior + Commands(render, xs, first, n) <= schedule
    requires sent == prior + Commands(render, xs[..BatchEnd(k, first, n)], first, n)
    ensures sent + [render(batch)] == prior + Commands(render, xs[..BatchEnd(k + 1, first, n)], first, n)
    ensures sent + [render(batch)] <= schedule
  {
    NextCommand(render, xs, k, first, n, prior, schedule, sent);
  }

  /** The final flush: the commands sent are then all of this phase's commands. */
  lemma LastCommand<T>(render: seq<T> -> string, xs: seq<T>, k: nat, first: nat, n: nat,
                       prior: seq<string>, sent: seq<string>)
    requires first > 0 && n > 0 && BatchEnd(k, first, n) < |xs| <= BatchEnd(k + 1, first, n)
    requires sent == prior + Commands(render, xs[..BatchEnd(k, first, n)], first, n)
    ensures sent + [render(xs[BatchEnd(k, first, n)..])] == prior + Commands(render, xs, first, n)
  {
    CommandsFinish(render, xs, k, first, n);
  }

  /** With nothing pending at the end, every command of the phase has been sent. */
  lemma NoLastCommand<T>(render: seq<T> -> string, xs: seq<T>, k: nat, first: nat, n: nat,
                         prior: seq<string>, sent: seq<string>)
    requires first > 0 && n > 0 && BatchEnd(k, first, n) == |xs|
    requires sent == prior + Commands(render, xs[..BatchEnd(k, first, n)], first, n)
    ensures sent == prior + Commands(render, xs, first, n)
  {
    assert xs[..|xs|] == xs;
  }

  /** Equal batches of n: they rejoin to the input, hold 1 to n items, and all but the last hold n. */
  lemma EqualBatches<T>(xs: seq<T>, n: nat)
    requires n > 0
    ensures Flatten(Lead(xs, n, n)) == xs
    ensures forall i :: 0 <= i < |Lead(xs, n, n)| ==> 0 < |Lead(xs, n, n)[i]| <= n
    ensures forall i :: 0 <= i < |Lead(xs, n, n)| - 1 ==> |Lead(xs, n, n)[i]| == n
  {
    ChunksIsLead(xs, n);
    FlattenChunks(xs, n);
    ChunkSizes(xs, n);
  }
}
