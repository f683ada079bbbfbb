/**
 * The external store, seen only through its verdicts. `session.execute`,
 * `PQexec` and `con.Query` become one oracle: given the commands already sent
 * in this run and the next command, it says whether the store accepts it.
 * A loader or workload is then described by the SCHEDULE of commands it would
 * send if everything succeeded, and by its error policy:
 *  - fail-fast (Nebula's exit(0), DuckDB's return): the sent commands are the
 *    schedule up to and including the first rejected one;
 *  - carry-on (Umbra prints and continues): the whole schedule is sent.
 */
module Store {
  import opened Wrappers

  /** accept(history, command): does the store accept `command` after `history`? */
  type Verdict = (seq<string>, string) -> bool

  /** The j-th command of the schedule is accepted when sent after the j before it. */
  predicate AcceptedAt(schedule: seq<string>, accept: Verdict, j: nat)
    requires j < |schedule|
  {
    accept(schedule[..j], schedule[j])
  }

  function FirstRejectionFrom(schedule: seq<string>, accept: Verdict, k: nat): (r: Option<nat>)
    requires k <= |schedule|
    ensures r.Some? ==> k <= r.value < |schedule| && !AcceptedAt(schedule, accept, r.value)
    ensures r.Some? ==> forall j :: k <= j < r.value ==> AcceptedAt(schedule, accept, j)
    ensures r.None? ==> forall j :: k <= j < |schedule| ==> AcceptedAt(schedule, accept, j)
    decreases |schedule| - k
  {
    if k == |schedule| then None
    else if !AcceptedAt(schedule, accept, k) then Some(k)
    else FirstRejectionFrom(schedule, accept, k + 1)
  }

  /** The index of the first command the store rejects, if any. */
  function FirstRejection(schedule: seq<string>, accept: Verdict): (r: Option<nat>)
    ensures r.Some? ==> r.value < |schedule| && !AcceptedAt(schedule, accept, r.value)
    ensures r.Some? ==> forall j :: 0 <= j < r.value ==> AcceptedAt(schedule, accept, j)
    ensures r.None? ==> forall j :: 0 <= j < |schedule| ==> AcceptedAt(schedule, accept, j)
  {
    FirstRejectionFrom(schedule, accept, 0)
  }

  /** The commands a fail-fast run sends: everything up to and including the first rejection. */
  function FailFast(schedule: seq<string>, accept: Verdict): seq<string>
  {
    match FirstRejection(schedule, accept)
    case None => schedule
    case Some(k) => schedule[..k + 1]
  }

  /** Every command in `sent` was accepted, given the ones sent before it. */
  predicate AllAccepted(sent: seq<string>, accept: Verdict)
  {
    forall j :: 0 <= j < |sent| ==> AcceptedAt(sent, accept, j)
  }

  /** A run that sent an accepted prefix of the schedule and then had its next command rejected. */
  lemma StoppedAt(schedule: seq<string>, accept: Verdict, sent: seq<string>)
    requires |sent| < |schedule| && sent == schedule[..|sent|]
    requires AllAccepted(sent, accept)
    requires !accept(sent, schedule[|sent|])
    ensures FirstRejection(schedule, accept) == Some(|sent|)
    ensures FailFast(schedule, accept) == sent + [schedule[|sent|]]
  {
    var k := |sent|;
    forall j | 0 <= j < k ensures AcceptedAt(schedule, accept, j) {
      assert schedule[..j] == sent[..j];
      assert AcceptedAt(sent, accept, j);
    }
    assert !AcceptedAt(schedule, accept, k);
    assert schedule[..k + 1] == sent + [schedule[k]];
  }

  /** A run that sent the whole schedule with every command accepted. */
  lemma Completed(schedule: seq<string>, accept: Verdict)
    requires AllAccepted(schedule, accept)
    ensures FirstRejection(schedule, accept) == None
    ensures FailFast(schedule, accept) == schedule
  {
  }

  /** Appending an accepted command keeps the sent log accepted. */
  lemma AcceptedSnoc(sent: seq<string>, accept: Verdict, cmd: string)
    requires AllAccepted(sent, accept) && accept(sent, cmd)
    ensures AllAccepted(sent + [cmd], accept)
  {
    var s' := sent + [cmd];
    forall j | 0 <= j < |s'| ensures AcceptedAt(s', accept, j) {
      if j < |sent| {
        assert s'[..j] == sent[..j];
        assert AcceptedAt(sent, accept, j);
      } else {
        assert s'[..j] == sent;
      }
    }
  }

  /** A fail-fast run sends a prefix of its schedule, and when it stopped, its last command was the rejected one. */
  lemma FailFastIsPrefix(schedule: seq<string>, accept: Verdict)
    ensures FailFast(schedule, accept) <= schedule
    ensures FirstRejection(schedule, accept).None? ==> AllAccepted(FailFast(schedule, accept), accept)
    ensures FirstRejection(schedule, accept).Some? ==>
      var sent := FailFast(schedule, accept);
      |sent| > 0 && !accept(sent[..|sent| - 1], sent[|sent| - 1])
  {
    match FirstRejection(schedule, accept)
    case None =>
    case Some(k) =>
      var sent := schedule[..k + 1];
      assert sent[..k] == schedule[..k];
      assert !AcceptedAt(schedule, accept, k);
  }

  /**
   * The step of a fail-fast loop: the next command of the schedule is sent; if
   * the store accepts it the run goes on with a longer accepted prefix, if not
   * the run ends having sent exactly FailFast(schedule).
   */
  lemma SendNext(schedule: seq<string>, accept: Verdict, sent: seq<string>, cmd: string)
    requires sent + [cmd] <= schedule && AllAccepted(sent, accept)
    ensures accept(sent, cmd) ==> AllAccepted(sent + [cmd], accept)
    ensures !accept(sent, cmd) ==>
      FirstRejection(schedule, accept) == Some(|sent|) && FailFast(schedule, accept) == sent + [cmd]
  {
    assert schedule[..|sent|] == sent && schedule[|sent|] == cmd by {
      assert (sent + [cmd])[..|sent|] == sent;
    }
    if accept(sent, cmd) {
      AcceptedSnoc(sent, accept, cmd);
    } else {
      StoppedAt(schedule, accept, sent);
    }
  }

  /**
   * One statement of a fail-fast run: send `cmd`, the next command of the
   * schedule; `stopped` says the store rejected it, and the run then ends
   * having sent exactly FailFast(schedule).
   */
  method Execute(ghost schedule: seq<string>, sent: seq<string>, cmd: string, accept: Verdict)
    returns (sent': seq<string>, stopped: bool)
    requires sent + [cmd] <= schedule && AllAccepted(sent, accept)
    ensures sent' == sent + [cmd]
    ensures stopped <==> !accept(sent, cmd)
    ensures stopped ==> FirstRejection(schedule, accept) == Some(|sent|) && sent' == FailFast(schedule, accept)
    ensures !stopped ==> AllAccepted(sent', accept)
  {
    SendNext(schedule, accept, sent, cmd);
    stopped := !accept(sent, cmd);
    sent' := sent + [cmd];
  }

  // ---------------------------------------------------------------------------
  // Runs that only report errors

  /** The positions in `log` of the commands the store rejected, in order. */
  function Rejected(log: seq<string>, accept: Verdict): seq<nat>
  {
    if |log| == 0 then []
    else
      var n := |log| - 1;
      Rejected(log[..n], accept) + (if accept(log[..n], log[n]) then [] else [n])
  }

  /** The error log names exactly the rejected commands, each once and in sending order. */
  lemma {:induction false} RejectedExactly(log: seq<string>, accept: Verdict)
    ensures forall j :: j in Rejected(log, accept) ==> j < |log|
    ensures forall j :: 0 <= j < |log| ==> (j in Rejected(log, accept) <==> !AcceptedAt(log, accept, j))
    ensures forall a, b :: 0 <= a < b < |Rejected(log, accept)| ==> Rejected(log, accept)[a] < Rejected(log, accept)[b]
  {
    if |log| > 0 {
      var n := |log| - 1;
      var init := log[..n];
      RejectedExactly(init, accept);
      forall j | 0 <= j < n
        ensures AcceptedAt(log, accept, j) == AcceptedAt(init, accept, j)
      {
        assert log[..j] == init[..j];
      }
      var r := Rejected(init, accept);
      assert forall a :: 0 <= a < |r| ==> r[a] in r && r[a] < n;
    }
  }

  /**
   * One command of a run that reports errors and carries on: the command is
   * sent whatever the verdict, and a rejection only adds its position to the
   * error log.
   */
  method Report(sent: seq<string>, errors: seq<nat>, cmd: string, accept: Verdict)
    returns (sent': seq<string>, errors': seq<nat>)
    requires errors == Rejected(sent, accept)
    ensures sent' == sent + [cmd]
    ensures errors' == Rejected(sent', accept)
  {
    if !accept(sent, cmd) {
      errors' := errors + [|sent|];
    } else {
      errors' := errors;
    }
    sent' := sent + [cmd];
    assert sent'[..|sent|] == sent;
  }
}
