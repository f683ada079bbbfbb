/**
 * Nebula's read/write workload: after `use <space>;` and the max-id query,
 * max_ops operation tags are built (reads first), shuffled, and dispatched one
 * by one; a read asks for the out-neighbours of one sampled vertex, a write
 * inserts one edge between two sampled vertices, and the first failing
 * statement ends the run.
 *
 * The id returned by the max-id query is an input (`maxVid`), and so are the
 * random numbers: one pick per position for the shuffle and one pair of draws
 * per operation (a read uses only the first).
 */
module NebulaWorkload {
  import opened Text
  import opened Store
  import opened Workload
  import opened Shuffle
  import NebulaPropertyLoad

  const MaxOps: nat := 2000000

  const MaxIdQuery: string := "match (v1:v) return max(id(v1)) as maxId;"

  /** `rand() % (max_vid - 1) + 1`; max_vid == 1 is a division by zero. */
  function SampleVid(r: nat, maxVid: int): (v: int)
    requires maxVid != 1
    ensures maxVid > 1 ==> 1 <= v <= maxVid - 1
    ensures maxVid <= 0 ==> 1 <= v <= 1 - maxVid
  {
    CRem(r, maxVid - 1) + 1
  }

  function ReadQuery(vid: int): string
  {
    "match (v1:v)-->(v2:v) where id(v1) == " + IntToDec(vid) + " return id(v2);"
  }

  function WriteQuery(src: int, dst: int): string
  {
    "insert edge e(id) values " + IntToDec(src) + "->" + IntToDec(dst)
      + ": (\"" + IntToDec(src) + "=>" + IntToDec(dst) + "\");"
  }

  /** The statement one operation sends, from its pair of draws. */
  function OpQuery(op: Op, draws: (nat, nat), maxVid: int): string
    requires maxVid != 1
  {
    match op
    case Read => ReadQuery(SampleVid(draws.0, maxVid))
    case Write => WriteQuery(SampleVid(draws.0, maxVid), SampleVid(draws.1, maxVid))
  }

  /** Every statement the run sends when nothing fails, in order. */
  function WorkloadSchedule(space: string, ops: seq<Op>, draws: seq<(nat, nat)>, maxVid: int): (r: seq<string>)
    requires |draws| == |ops| && maxVid != 1
    ensures |r| == |ops| + 2
    ensures r[0] == NebulaPropertyLoad.UseSpace(space) && r[1] == MaxIdQuery
    ensures forall i :: 0 <= i < |ops| ==> r[i + 2] == OpQuery(ops[i], draws[i], maxVid)
  {
    var head := [NebulaPropertyLoad.UseSpace(space), MaxIdQuery];
    var q := OpQueries(ops, draws, maxVid);
    assert forall i :: 0 <= i < |q| ==> (head + q)[i + 2] == q[i];
    head + q
  }

  /** One statement per operation, in order. */
  function OpQueries(ops: seq<Op>, draws: seq<(nat, nat)>, maxVid: int): (r: seq<string>)
    requires |draws| == |ops| && maxVid != 1
    ensures |r| == |ops|
    ensures forall i :: 0 <= i < |ops| ==> r[i] == OpQuery(ops[i], draws[i], maxVid)
  {
    seq(|ops|, i requires 0 <= i < |ops| => OpQuery(ops[i], draws[i], maxVid))
  }

  /** The tag vector before the shuffle: position i is a read exactly when i < readCount. */
  method BuildOps(n: nat, readCount: nat) returns (ops: seq<Op>)
    ensures |ops| == n
    ensures forall i :: 0 <= i < n ==> (ops[i] == Read <==> i < readCount)
  {
    ops := [];
    var i := 0;
    while i < n
      invariant 0 <= i <= n && |ops| == i
      invariant forall j :: 0 <= j < i ==> (ops[j] == Read <==> j < readCount)
    {
      if i < readCount {
        ops := ops + [Read];
      } else {
        ops := ops + [Write];
      }
      i := i + 1;
    }
  }

  /**
   * The dispatch phase of read_write_test: `sent` is the schedule up to and
   * including the first rejected statement, and `ok` says whether the whole
   * run went through.
   */
  method RunWorkload(space: string, ops: seq<Op>, draws: seq<(nat, nat)>, maxVid: int, accept: Verdict)
      returns (sent: seq<string>, ok: bool)
    requires |draws| == |ops| && maxVid != 1
    ensures sent == FailFast(WorkloadSchedule(space, ops, draws, maxVid), accept)
    ensures ok <==> FirstRejection(WorkloadSchedule(space, ops, draws, maxVid), accept).None?
  {
    ghost var schedule := WorkloadSchedule(space, ops, draws, maxVid);
    var stopped;
    assert schedule[..1] == [] + [NebulaPropertyLoad.UseSpace(space)];
    sent, stopped := Execute(schedule, [], NebulaPropertyLoad.UseSpace(space), accept);
    if stopped {
      return sent, false;
    }
    assert schedule[..2] == sent + [MaxIdQuery];
    sent, stopped := Execute(schedule, sent, MaxIdQuery, accept);
    if stopped {
      return sent, false;
    }
    sent, ok := SendOps(schedule, ops, draws, maxVid, sent, accept);
  }

  /** The loop over the tag vector, once the first two statements were accepted. */
  method SendOps(ghost schedule: seq<string>, ops: seq<Op>, draws: seq<(nat, nat)>, maxVid: int,
                 sent0: seq<string>, accept: Verdict)
      returns (sent: seq<string>, ok: bool)
    requires |draws| == |ops| && maxVid != 1 && |schedule| == |ops| + 2
    requires forall i :: 0 <= i < |ops| ==> schedule[i + 2] == OpQuery(ops[i], draws[i], maxVid)
    requires sent0 == schedule[..2] && AllAccepted(sent0, accept)
    ensures sent == FailFast(schedule, accept)
    ensures ok <==> FirstRejection(schedule, accept).None?
  {
    sent := sent0;
    var i := 0;
    while i < |ops|
      invariant 0 <= i <= |ops|
      invariant sent == schedule[..i + 2] && AllAccepted(sent, accept)
    {
      var cmd := OpQuery(ops[i], draws[i], maxVid);
      assert schedule[..i + 3] == sent + [cmd];
      var stopped;
      sent, stopped := Execute(schedule, sent, cmd, accept);
      if stopped {
        return sent, false;
      }
      i := i + 1;
    }
    assert sent == schedule;
    Completed(schedule, accept);
    ok := true;
  }

  /**
   * read_write_test: the shuffled tag vector holds min(readCount, max_ops)
   * reads and the rest writes, and the statements sent are those of the
   * dispatch phase over it.
   */
  method ReadWriteTest(space: string, readCount: nat, shufflePicks: seq<nat>, draws: seq<(nat, nat)>,
                       maxVid: int, accept: Verdict)
      returns (ops: seq<Op>, sent: seq<string>, ok: bool)
    requires |shufflePicks| == MaxOps && |draws| == MaxOps && maxVid != 1
    ensures |ops| == MaxOps
    ensures CountOf(ops, Read) == Min(readCount, MaxOps)
    ensures CountOf(ops, Write) == MaxOps - Min(readCount, MaxOps)
    ensures sent == FailFast(WorkloadSchedule(space, ops, draws, maxVid), accept)
    ensures ok <==> FirstRejection(WorkloadSchedule(space, ops, draws, maxVid), accept).None?
  {
    var built := BuildOps(MaxOps, readCount);
    BuiltCounts(built, readCount);
    var a := ArrayOf(built);
    ShuffleInPlace(a, shufflePicks);
    ops := a[..];
    ShuffledCounts(built, shufflePicks);
    sent, ok := RunWorkload(space, ops, draws, maxVid, accept);
  }

  /**
   * Every statement after the first two is a read of one sampled vertex or a
   * write of one sampled edge, as its tag says, and every sampled id lies in
   * [1, max_vid - 1] when max_vid > 1.
   */
  lemma ScheduleSamplesInRange(space: string, ops: seq<Op>, draws: seq<(nat, nat)>, maxVid: int, i: nat)
    requires |draws| == |ops| && maxVid > 1 && i < |ops|
    ensures var q := WorkloadSchedule(space, ops, draws, maxVid)[i + 2];
      if ops[i] == Read then
        exists v :: 1 <= v <= maxVid - 1 && q == ReadQuery(v)
      else
        exists s, d :: 1 <= s <= maxVid - 1 && 1 <= d <= maxVid - 1 && q == WriteQuery(s, d)
  {
    var s := SampleVid(draws[i].0, maxVid);
    var d := SampleVid(draws[i].1, maxVid);
    if ops[i] == Read {
      assert 1 <= s <= maxVid - 1 && WorkloadSchedule(space, ops, draws, maxVid)[i + 2] == ReadQuery(s);
    } else {
      assert 1 <= s <= maxVid - 1 && 1 <= d <= maxVid - 1;
      assert WorkloadSchedule(space, ops, draws, maxVid)[i + 2] == WriteQuery(s, d);
    }
  }
}
