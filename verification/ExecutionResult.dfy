/** What the operator is told about a batch of transactions (tidal/execution_result.py). */
module ExecutionResult {
  import opened Common

  datatype ReceiptStatus = Confirmed | Reverted | Failed

  /** What the send loop remembers of one transaction; no status means it is still pending. */
  datatype Record = Record(operation: string, hash: string, nonce: nat, status: Option<ReceiptStatus>)

  datatype ExecutionStatus = NoOp | AllConfirmed | Partial | Pending | AllFailed

  datatype Summary = Summary(status: ExecutionStatus, confirmed: nat, pending: nat, failed: nat, unsubmitted: nat)

  predicate IsConfirmed(r: Record) {
    r.status == Some(Confirmed)
  }

  predicate IsFailed(r: Record) {
    r.status == Some(Reverted) || r.status == Some(Failed)
  }

  function Count(p: Record -> bool, records: seq<Record>): (n: nat)
    ensures n <= |records|
  {
    if |records| == 0 then 0 else Count(p, records[..|records| - 1]) + if p(records[|records| - 1]) then 1 else 0
  }

  lemma {:induction false} CountsDisjoint(records: seq<Record>)
    ensures Count(IsConfirmed, records) + Count(IsFailed, records) <= |records|
  {
    if |records| > 0 {
      CountsDisjoint(records[..|records| - 1]);
    }
  }

  function SummarizeExecution(records: seq<Record>, expected: nat): Summary {
    CountsDisjoint(records);
    var confirmed, failed := Count(IsConfirmed, records), Count(IsFailed, records);
    var pending := |records| - confirmed - failed;
    var unsubmitted := if expected < |records| then 0 else expected - |records|;
    var status := if |records| == 0 && expected == 0 then NoOp
                  else if confirmed > 0 && pending == 0 && failed == 0 && unsubmitted == 0 then AllConfirmed
                  else if confirmed > 0 || (pending > 0 && failed > 0) then Partial
                  else if pending > 0 then Pending
                  else AllFailed;
    Summary(status, confirmed, pending, failed, unsubmitted)
  }

  ghost predicate Any(p: Record -> bool, records: seq<Record>) {
    exists r :: r in records && p(r)
  }

  predicate IsPending(r: Record) {
    r.status == None
  }

  /** Some record counts exactly if the count is positive. */
  lemma {:induction false} CountPositive(p: Record -> bool, records: seq<Record>)
    ensures Count(p, records) > 0 <==> Any(p, records)
  {
    if |records| > 0 {
      var n := |records| - 1;
      CountPositive(p, records[..n]);
      assert records == records[..n] + [records[n]];
    }
  }

  lemma {:induction false} CountsAdd(records: seq<Record>)
    ensures Count(IsConfirmed, records) + Count(IsFailed, records) + Count(IsPending, records) == |records|
  {
    if |records| > 0 {
      var last := records[|records| - 1].status;
      CountsAdd(records[..|records| - 1]);
      match last
      case None =>
      case Some(s) => assert s == Confirmed || s == Reverted || s == Failed;
    }
  }

  /** The verdict on any records: confirmed if there are some, all are, and none is missing;
      partial if only some are, or none is but both kinds of other record are there; pending
      or failed if all records are of that kind; a no-op if nothing was expected or done. */
  lemma VerdictMeans(records: seq<Record>, expected: nat)
    ensures var status := SummarizeExecution(records, expected).status;
            var confirmed, pending := Any(IsConfirmed, records), Any(IsPending, records);
            var failed := exists r :: r in records && (r.status == Some(Reverted) || r.status == Some(Failed));
            var missing := |records| < expected;
            && (status.NoOp? <==> records == [] && expected == 0)
            && (status.AllConfirmed? <==> confirmed && !pending && !failed && !missing)
            && (status.Partial? <==>
                  if confirmed then pending || failed || missing else pending && failed)
            && (status.Pending? <==> !confirmed && pending && !failed)
            && (status.AllFailed? <==> !confirmed && !pending && (failed || missing))
  {
    CountPositive(IsConfirmed, records);
    CountPositive(IsFailed, records);
    CountPositive(IsPending, records);
    CountsAdd(records);
    assert Any(IsFailed, records) <==>
           exists r :: r in records && (r.status == Some(Reverted) || r.status == Some(Failed));
    if |records| > 0 {
      assert records[0] in records;
      assert IsConfirmed(records[0]) || IsPending(records[0]) || IsFailed(records[0]) by { OneOf(records[0]); }
    }
  }

  lemma OneOf(r: Record)
    ensures IsConfirmed(r) || IsPending(r) || IsFailed(r)
  {
    match r.status
    case None =>
    case Some(s) => assert s == Confirmed || s == Reverted || s == Failed;
  }

  /** Records of a run that stopped at the first transaction it could not confirm. */
  ghost predicate StoppedEarly(records: seq<Record>, expected: nat) {
    && |records| <= expected
    && (forall i :: 0 <= i < |records| - 1 ==> IsConfirmed(records[i]))
    && (|records| < expected ==> |records| > 0 && !IsConfirmed(records[|records| - 1]))
  }

  lemma {:induction false} AllCount(p: Record -> bool, records: seq<Record>)
    requires forall r :: r in records ==> p(r)
    ensures Count(p, records) == |records|
  {
    if |records| > 0 {
      AllCount(p, records[..|records| - 1]);
    }
  }

  lemma {:induction false} NoneCount(p: Record -> bool, records: seq<Record>)
    requires forall r :: r in records ==> !p(r)
    ensures Count(p, records) == 0
  {
    if |records| > 0 {
      NoneCount(p, records[..|records| - 1]);
    }
  }

  lemma CountsOfRun(records: seq<Record>, expected: nat)
    requires StoppedEarly(records, expected) && |records| > 0
    ensures var last := records[|records| - 1];
            && Count(IsConfirmed, records) == |records| - 1 + (if IsConfirmed(last) then 1 else 0)
            && Count(IsFailed, records) == if IsFailed(last) then 1 else 0
  {
    var init := records[..|records| - 1];
    AllCount(IsConfirmed, init);
    NoneCount(IsFailed, init);
  }

  /** The summary of a run that stops at its first unconfirmed transaction: every expected
      transaction is counted once, at most one is pending or failed, and the verdict says
      exactly how the run ended. */
  lemma SummaryOfRun(records: seq<Record>, expected: nat)
    requires StoppedEarly(records, expected)
    ensures var s := SummarizeExecution(records, expected);
            && s.confirmed + s.pending + s.failed + s.unsubmitted == expected
            && s.pending + s.failed <= 1
    ensures var s := SummarizeExecution(records, expected).status; var last := |records| - 1;
            && (s.AllConfirmed? <==> expected > 0 && |records| == expected && forall r :: r in records ==>
                IsConfirmed(r))
            && (s.NoOp? <==> expected == 0)
            && (s.Partial? <==> |records| > 1 && !IsConfirmed(records[last]))
            && (s.Pending? <==> |records| == 1 && records[0].status.None?)
            && (s.AllFailed? <==> |records| == 1 && IsFailed(records[0]))
  {
    hide Count;
    if |records| > 0 {
      CountsOfRun(records, expected);
      var last := records[|records| - 1];
      assert last in records;
      match last.status {
        case None =>
        case Some(s) => assert s == Confirmed || s == Reverted || s == Failed;
      }
    }
  }
}
