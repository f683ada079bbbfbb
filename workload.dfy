/**
 * What the three read/write workloads share: operation tags, the C remainder
 * used to sample ids, and the reported average latency.
 */
module Workload {
  import opened Wrappers
  import opened Shuffle

  /** The tags of the `ops` vectors: 0 is a read, 1 a write. */
  datatype Op = Read | Write

  /** Number of occurrences of `op` in `ops`. */
  function CountOf(ops: seq<Op>, op: Op): (c: nat)
    ensures c == multiset(ops)[op]
    ensures c <= |ops|
  {
    if |ops| == 0 then 0
    else
      assert ops == ops[..|ops| - 1] + [ops[|ops| - 1]];
      CountOf(ops[..|ops| - 1], op) + (if ops[|ops| - 1] == op then 1 else 0)
  }

  /**
   * C's `a % b` for a non-negative dividend (rand() never returns a negative
   * number): the result has the dividend's sign, so for a >= 0 it lies in
   * [0, |b|). A zero divisor is undefined behaviour and excluded.
   */
  function CRem(a: nat, b: int): (r: nat)
    requires b != 0
    ensures r < Abs(b)
  {
    a % Abs(b)
  }

  function Abs(b: int): nat
  {
    if b < 0 then -b else b
  }

  /** Sampling `rand() % m` gives an index in [0, m) whenever m > 0. */
  lemma CRemRange(a: nat, m: int)
    requires m > 0
    ensures 0 <= CRem(a, m) < m
    ensures a < m ==> CRem(a, m) == a
  {
  }

  const U64: nat := 0x1_0000_0000_0000_0000

  function Sum(xs: seq<int>): int
  {
    if |xs| == 0 then 0 else Sum(xs[..|xs| - 1]) + xs[|xs| - 1]
  }

  /**
   * std::accumulate(v.begin(), v.end(), 0UL) / v.size(): each int64 latency is
   * added to an unsigned 64-bit accumulator (so the sum wraps modulo 2^64) and
   * the total is divided by the count with unsigned division. An empty vector is
   * a division by zero in the source; the model reports no average (None).
   */
  function UnsignedMean(xs: seq<int>): (r: Option<nat>)
    ensures r.None? <==> |xs| == 0
  {
    if |xs| == 0 then None else Some((Sum(xs) % U64) / |xs|)
  }

  lemma {:induction false} SumBounds(xs: seq<int>, lo: int, hi: int)
    requires forall i :: 0 <= i < |xs| ==> lo <= xs[i] <= hi
    ensures |xs| * lo <= Sum(xs) <= |xs| * hi
  {
    if |xs| > 0 {
      SumBounds(xs[..|xs| - 1], lo, hi);
      assert |xs| * lo == (|xs| - 1) * lo + lo;
      assert |xs| * hi == (|xs| - 1) * hi + hi;
    }
  }

  lemma MulCancel(n: int, a: int, b: int)
    requires n > 0 && n * a < n * b
    ensures a < b
  {
  }

  lemma DivBounds(s: int, n: int, lo: int, hi: int)
    requires n > 0 && n * lo <= s <= n * hi
    ensures lo <= s / n <= hi
  {
    var q := s / n;
    assert s == n * q + s % n && 0 <= s % n < n;
    assert n * (lo - 1) == n * lo - n;
    MulCancel(n, lo - 1, q);
    assert n * (hi + 1) == n * hi + n;
    MulCancel(n, q, hi + 1);
  }

  /**
   * When no wrap-around happens (latencies in [lo, hi] with 0 <= lo and a total
   * below 2^64) the reported average lies between the smallest and the largest
   * possible latency.
   */
  lemma MeanWithinBounds(xs: seq<int>, lo: int, hi: int)
    requires |xs| > 0 && 0 <= lo
    requires forall i :: 0 <= i < |xs| ==> lo <= xs[i] <= hi
    requires Sum(xs) < U64
    ensures UnsignedMean(xs).Some? && lo <= UnsignedMean(xs).value <= hi
  {
    SumBounds(xs, lo, hi);
    assert 0 <= Sum(xs);
    assert Sum(xs) % U64 == Sum(xs);
    DivBounds(Sum(xs), |xs|, lo, hi);
  }

  /** A constant latency is reported as itself. */
  lemma MeanOfConstant(xs: seq<int>, c: nat)
    requires |xs| > 0 && c * |xs| < U64
    requires forall i :: 0 <= i < |xs| ==> xs[i] == c
    ensures UnsignedMean(xs) == Some(c)
  {
    SumBounds(xs, c, c);
    assert Sum(xs) == |xs| * c;
    MeanWithinBounds(xs, c, c);
  }

  // ---------------------------------------------------------------------------
  // The tag vector

  function Min(a: nat, b: nat): nat
  {
    if a < b then a else b
  }

  /** Tags laid out reads-first hold min(readCount, n) reads and the rest writes. */
  lemma {:induction false} BuiltCounts(ops: seq<Op>, readCount: nat)
    requires forall i :: 0 <= i < |ops| ==> (ops[i] == Read <==> i < readCount)
    ensures CountOf(ops, Read) == Min(readCount, |ops|)
    ensures CountOf(ops, Write) == |ops| - Min(readCount, |ops|)
  {
    if |ops| > 0 {
      var init := ops[..|ops| - 1];
      assert forall i :: 0 <= i < |init| ==> init[i] == ops[i];
      BuiltCounts(init, readCount);
      assert CountOf(ops, Read) == CountOf(init, Read) + (if ops[|ops| - 1] == Read then 1 else 0);
      assert CountOf(ops, Write) == CountOf(init, Write) + (if ops[|ops| - 1] == Write then 1 else 0);
    }
  }

  /** Any shuffle leaves the number of reads and writes unchanged. */
  lemma ShuffledCounts(ops: seq<Op>, picks: seq<nat>)
    requires |picks| == |ops|
    ensures CountOf(SwapPass(ops, picks), Read) == CountOf(ops, Read)
    ensures CountOf(SwapPass(ops, picks), Write) == CountOf(ops, Write)
  {
    SwapPassPermutes(ops, picks);
  }

  /** Clamping a C `int` loop bound: `for (i = 0; i < c; i++)` runs max(c, 0) times. */
  function Runs(c: int): (r: nat)
    ensures r == (if c < 0 then 0 else c)
  {
    if c < 0 then 0 else c
  }

  /**
   * Two filling loops: `readCount` pushes of the read tag, then `writeCount`
   * pushes of the write tag (a negative count pushes nothing).
   */
  method BuildTags(readCount: int, writeCount: int) returns (ops: seq<Op>)
    ensures |ops| == Runs(readCount) + Runs(writeCount)
    ensures forall i :: 0 <= i < |ops| ==> (ops[i] == Read <==> i < Runs(readCount))
  {
    ops := [];
    var i := 0;
    while i < readCount
      invariant 0 <= i && |ops| == i && (i <= readCount || i == 0)
      invariant forall j :: 0 <= j < i ==> ops[j] == Read
    {
      ops := ops + [Read];
      i := i + 1;
    }
    i := 0;
    while i < writeCount
      invariant 0 <= i && |ops| == Runs(readCount) + i && (i <= writeCount || i == 0)
      invariant forall j :: 0 <= j < |ops| ==> (ops[j] == Read <==> j < Runs(readCount))
    {
      ops := ops + [Write];
      i := i + 1;
    }
  }

  /** The tag vector before the shuffle: the reads, then the writes. */
  function TagLayout(readCount: int, writeCount: int): (r: seq<Op>)
    ensures |r| == Runs(readCount) + Runs(writeCount)
    ensures forall i :: 0 <= i < |r| ==> (r[i] == Read <==> i < Runs(readCount))
  {
    seq(Runs(readCount) + Runs(writeCount), i => if i < Runs(readCount) then Read else Write)
  }

  /** The tag vector: `readCount` reads then `writeCount` writes, shuffled in place by the swap pass. */
  method ShuffledTags(readCount: int, writeCount: int, picks: seq<nat>) returns (ops: seq<Op>)
    requires |picks| == Runs(readCount) + Runs(writeCount)
    ensures |ops| == Runs(readCount) + Runs(writeCount)
    ensures CountOf(ops, Read) == Runs(readCount) && CountOf(ops, Write) == Runs(writeCount)
    ensures ops == SwapPass(TagLayout(readCount, writeCount), picks)
  {
    var built := BuildTags(readCount, writeCount);
    assert built == TagLayout(readCount, writeCount);
    BuiltCounts(built, Runs(readCount));
    var a := ArrayOf(built);
    ShuffleInPlace(a, picks);
    ops := a[..];
    ShuffledCounts(built, picks);
  }

  /** The entries of `times` at the positions whose tag is `op`, in order: a per-kind latency vector. */
  function Durations(ops: seq<Op>, times: seq<int>, op: Op): (r: seq<int>)
    requires |times| == |ops|
    ensures |r| == CountOf(ops, op)
  {
    if |ops| == 0 then []
    else
      var n := |ops| - 1;
      Durations(ops[..n], times[..n], op) + (if ops[n] == op then [times[n]] else [])
  }

  lemma DurationsSnoc(ops: seq<Op>, times: seq<int>, op: Op, o: Op, t: int)
    requires |times| == |ops|
    ensures Durations(ops + [o], times + [t], op) == Durations(ops, times, op) + (if o == op then [t] else [])
  {
    assert (ops + [o])[..|ops|] == ops;
    assert (times + [t])[..|times|] == times;
  }

  /** Every operation lands in exactly one of the two latency vectors. */
  lemma DurationsSplit(ops: seq<Op>, times: seq<int>)
    requires |times| == |ops|
    ensures |Durations(ops, times, Read)| + |Durations(ops, times, Write)| == |ops|
  {
    OpsAreReadOrWrite(ops);
  }

  lemma {:induction false} OpsAreReadOrWrite(ops: seq<Op>)
    ensures CountOf(ops, Read) + CountOf(ops, Write) == |ops|
  {
    if |ops| > 0 {
      OpsAreReadOrWrite(ops[..|ops| - 1]);
    }
  }
}
