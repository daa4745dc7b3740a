/** Repeated scan failures: streak identity (tidal/alerts/service.py) and the persisted
    at-most-three-attempts delivery of each streak's message (tidal/alerts/dispatcher.py). */
module Alerts {
  import opened Common

  const MAX_ATTEMPTS: nat := 3
  const REPEATED_RUNS: nat := 3

  datatype Identity = Identity(
    sourceType: Option<string>,
    source: Option<string>,
    token: Option<string>,
    stage: string,
    errorCode: string)

  datatype RunStatus = Success | PartialSuccess | Failed | Running
  datatype ScanRun = ScanRun(id: string, status: RunStatus)
  datatype ErrorRow = ErrorRow(id: nat, runId: string, identity: Identity)

  /** One scan: its run, and the error rows stored under the run's id. */
  datatype Scan = Scan(run: ScanRun, errors: seq<ErrorRow>)

  /** An alert's occurrence: the failing identity and the row that opened its streak. */
  datatype Occurrence = Occurrence(identity: Identity, oldestId: nat)

  /** The failures of one run, each identity with its last error row. */
  type Failures = map<Identity, nat>

  // --------------------------------------------------------------- service

  predicate Eligible(run: ScanRun) {
    run.status.Success? || run.status.PartialSuccess?
  }

  predicate CountsFor(row: ErrorRow, run: ScanRun) {
    row.runId == run.id && row.identity.stage != "PRICE_READ"
  }

  ghost predicate FailsIn(errors: seq<ErrorRow>, run: ScanRun, identity: Identity) {
    exists k :: 0 <= k < |errors| && CountsFor(errors[k], run) && errors[k].identity == identity
  }

  /** The identities failing in a run, each with its last error row. */
  function FailureMap(errors: seq<ErrorRow>, run: ScanRun): Failures {
    if |errors| == 0 then map[]
    else
      var last := errors[|errors| - 1];
      var m := FailureMap(errors[..|errors| - 1], run);
      if CountsFor(last, run) then m[last.identity := last.id] else m
  }

  ghost predicate LastRow(errors: seq<ErrorRow>, run: ScanRun, identity: Identity, k: nat) {
    && k < |errors| && CountsFor(errors[k], run) && errors[k].identity == identity
    && forall j :: k < j < |errors| && CountsFor(errors[j], run) ==> errors[j].identity != identity
  }

  /** Exactly the identities that fail outside price reads, each with the id of its last row. */
  lemma {:induction false} FailuresMean(errors: seq<ErrorRow>, run: ScanRun, identity: Identity)
    ensures identity in FailureMap(errors, run) <==> FailsIn(errors, run, identity)
    ensures identity in FailureMap(errors, run) ==>
              exists k: nat :: LastRow(errors, run, identity, k) && errors[k].id == FailureMap(errors, run)[identity]
  {
    if |errors| > 0 {
      var n := |errors| - 1;
      var init, last := errors[..n], errors[n];
      FailuresMean(init, run, identity);
      if FailsIn(init, run, identity) {
        var k :| 0 <= k < |init| && CountsFor(init[k], run) && init[k].identity == identity;
        assert errors[k] == init[k];
      }
      if FailsIn(errors, run, identity) {
        var k :| 0 <= k < |errors| && CountsFor(errors[k], run) && errors[k].identity == identity;
        assert k < n ==> init[k] == errors[k];
      }
      if CountsFor(last, run) && last.identity == identity {
        assert LastRow(errors, run, identity, n);
      } else if identity in FailureMap(init, run) {
        var k: nat :| LastRow(init, run, identity, k) && init[k].id == FailureMap(init, run)[identity];
        assert LastRow(errors, run, identity, k) && errors[k] == init[k];
      }
    }
  }

  method FailuresOf(errors: seq<ErrorRow>, run: ScanRun) returns (m: Failures)
    ensures m == FailureMap(errors, run)
  {
    m := map[];
    assert errors[..0] == [];
    for n := 0 to |errors|
      invariant m == FailureMap(errors[..n], run)
    {
      assert errors[..n + 1][..n] == errors[..n];
      if CountsFor(errors[n], run) {
        m := m[errors[n].identity := errors[n].id];
      }
    }
    assert errors[..|errors|] == errors;
  }

  /** The failures of the eligible runs, newest first. */
  function HistoryOf(scans: seq<Scan>): seq<Failures> {
    if |scans| == 0 then []
    else
      var last, before := scans[|scans| - 1], HistoryOf(scans[..|scans| - 1]);
      if Eligible(last.run) then [FailureMap(last.errors, last.run)] + before else before
  }

  method CollectHistory(scans: seq<Scan>) returns (history: seq<Failures>)
    ensures history == HistoryOf(scans)
  {
    history := [];
    assert scans[..0] == [];
    for n := 0 to |scans|
      invariant history == HistoryOf(scans[..n])
    {
      assert scans[..n + 1][..n] == scans[..n];
      if Eligible(scans[n].run) {
        var m := FailuresOf(scans[n].errors, scans[n].run);
        history := [m] + history;
      }
    }
    assert scans[..|scans|] == scans;
  }

  /** How many of the newest runs in a row failed with this identity. */
  function StreakLength(history: seq<Failures>, identity: Identity): (n: nat)
    ensures n <= |history|
    ensures forall k :: 0 <= k < n ==> identity in history[k]
    ensures n < |history| ==> identity !in history[n]
  {
    if |history| == 0 || identity !in history[0] then 0
    else 1 + StreakLength(history[1..], identity)
  }

  /** The row that opened the current streak. */
  function OpeningRow(history: seq<Failures>, identity: Identity): nat
    requires StreakLength(history, identity) > 0
  {
    history[StreakLength(history, identity) - 1][identity]
  }

  /** Alerts over the newest-first failure history: one for exactly each identity failing
      in the newest three runs, carrying the row that opened its streak. */
  method RepeatedFailures(history: seq<Failures>) returns (alerts: map<Identity, nat>)
    ensures forall i :: i in alerts <==> StreakLength(history, i) >= REPEATED_RUNS
    ensures forall i :: i in alerts <==> |history| >= 3 && i in history[0] && i in history[1] && i in history[2]
    ensures forall i :: i in alerts ==> alerts[i] == OpeningRow(history, i)
  {
    if |history| < REPEATED_RUNS {
      return map[];
    }
    alerts := map[];
    var repeated := history[0].Keys * history[1].Keys * history[2].Keys;
    ghost var all := repeated;
    while repeated != {}
      invariant repeated <= all
      invariant alerts.Keys == all - repeated
      invariant forall i :: i in alerts ==> StreakLength(history, i) > 0 && alerts[i] == OpeningRow(history, i)
      decreases |repeated|
    {
      var identity :| identity in repeated;
      var oldest := history[0][identity];
      var k := 0;
      while k < |history| && identity in history[k]
        invariant 0 <= k <= |history|
        invariant forall j :: 0 <= j < k ==> identity in history[j]
        invariant k > 0 ==> oldest == history[k - 1][identity]
      {
        oldest := history[k][identity];
        k := k + 1;
      }
      assert k == StreakLength(history, identity);
      alerts := alerts[identity := oldest];
      repeated := repeated - {identity};
    }
    forall i ensures i in all <==> StreakLength(history, i) >= REPEATED_RUNS {
      var n := StreakLength(history, i);
    }
  }

  /** However long a streak grows, its occurrence stays the one that opened it. */
  lemma {:induction false} StreakKeepsOccurrence(history: seq<Failures>, newer: seq<Failures>, identity: Identity)
    requires StreakLength(history, identity) > 0
    requires forall k :: 0 <= k < |newer| ==> identity in newer[k]
    ensures StreakLength(newer + history, identity) == |newer| + StreakLength(history, identity)
    ensures OpeningRow(newer + history, identity) == OpeningRow(history, identity)
  {
    if |newer| == 0 {
      assert newer + history == history;
    } else {
      StreakKeepsOccurrence(history, newer[1..], identity);
      assert (newer + history)[1..] == newer[1..] + history;
    }
  }

  ghost predicate DistinctRows(history: seq<Failures>) {
    forall j, k, a, b ::
      (&& 0 <= j < |history| && 0 <= k < |history|
       && a in history[j] && b in history[k] && history[j][a] == history[k][b])
      ==> j == k && a == b
  }

  /** Two alerts share an occurrence only if they are the same streak: a streak broken by
      one clean run and started again is a new occurrence. */
  lemma BrokenStreakIsNew(older: seq<Failures>, gap: Failures, newer: seq<Failures>, identity: Identity)
    requires DistinctRows(newer + [gap] + older)
    requires StreakLength(older, identity) > 0 && identity !in gap
    requires StreakLength(newer, identity) > 0
    ensures OpeningRow(newer + [gap] + older, identity) != OpeningRow(older, identity)
  {
    var h := newer + [gap] + older;
    var n, m := StreakLength(h, identity), StreakLength(older, identity);
    assert h[0] == newer[0] && h[|newer|] == gap;
    assert n <= |newer|;
    assert h[|newer| + 1 + (m - 1)] == older[m - 1];
  }

  // ------------------------------------------------------------ dispatcher

  datatype Destination = AdminAlerts | OperationsAlerts
  datatype Delivery = Delivery(attempts: nat, sent: bool, failed: bool)

  /** Attempts so far for one (message, destination) in a delivery log. */
  ghost function Count<K>(log: seq<(K, Destination)>, key: (K, Destination)): nat {
    if |log| == 0 then 0
    else Count(log[..|log| - 1], key) + if log[|log| - 1] == key then 1 else 0
  }

  lemma CountAppend<K>(log: seq<(K, Destination)>, e: (K, Destination), key: (K, Destination))
    ensures Count(log + [e], key) == Count(log, key) + if e == key then 1 else 0
  {
    assert (log + [e])[..|log|] == log;
  }

  /** No further attempt is due: delivered, or out of attempts. */
  predicate Done<K(==)>(rows: map<(K, Destination), Delivery>, key: (K, Destination)) {
    key in rows && (rows[key].sent || rows[key].attempts >= MAX_ATTEMPTS)
  }

  function Attempts<K(==)>(rows: map<(K, Destination), Delivery>, key: (K, Destination)): nat {
    if key in rows then rows[key].attempts else 0
  }

  /** Every stored success is a send the sink took. */
  ghost predicate SentTaken<K(!new)>(rows: map<(K, Destination), Delivery>, sends: seq<(K, Destination)>,
                                     answers: seq<bool>)
    requires |answers| == |sends|
  {
    forall k :: k in rows && rows[k].sent ==> exists i :: 0 <= i < |sends| && sends[i] == k && answers[i]
  }

  /** Every send from `from` on that the sink took is stored as a success; but not the last,
      if the process died before that (`lost`). */
  ghost predicate TakenStored<K(!new)>(from: nat, sends: seq<(K, Destination)>, answers: seq<bool>,
                                       rows: map<(K, Destination), Delivery>, lost: bool)
    requires |answers| == |sends|
  {
    forall i :: from <= i < |sends| && answers[i] && !(lost && i == |sends| - 1) ==>
      sends[i] in rows && rows[sends[i]].sent
  }

  /** From `from` on nothing is sent again once the sink took it. */
  ghost predicate NoRepeat<K(!new)>(from: nat, sends: seq<(K, Destination)>, answers: seq<bool>)
    requires |answers| == |sends|
  {
    forall i, j :: from <= i < j < |sends| && answers[i] ==> sends[j] != sends[i]
  }

  /** The persisted delivery table. `sends` records every call of the sink, `answers`
      whether the sink took it. */
  class DeliveryStore<K(==,!new)> {
    var rows: map<(K, Destination), Delivery>
    var sends: seq<(K, Destination)>
    var answers: seq<bool>

    constructor ()
      ensures Valid() && rows == map[] && sends == [] && answers == []
    {
      rows, sends, answers := map[], [], [];
    }

    ghost predicate Valid()
      reads this
    {
      && (forall k :: k !in rows ==> Count(sends, k) == 0)
      && (forall k :: k in rows ==> Count(sends, k) <= rows[k].attempts <= MAX_ATTEMPTS)
      && |answers| == |sends| && SentTaken(rows, sends, answers)
    }

    /** One message to one destination. The process may stop at any point between two
        durable writes or the send itself; then `crashed` holds and the row stands as is.
        If it stopped after the send and before its outcome was stored, that is `lost`. */
    method Deliver(key: (K, Destination)) returns (crashed: bool, lost: bool)
      requires Valid()
      modifies this
      ensures Valid()
      ensures forall k :: k != key ==> Count(sends, k) == Count(old(sends), k)
      ensures forall k :: k != key ==> (k in rows <==> k in old(rows)) && (k in rows ==> rows[k] == old(rows)[k])
      ensures Done(old(rows), key) ==> sends == old(sends) && rows == old(rows)
      ensures !crashed ==> Done(rows, key) || Attempts(rows, key) == Attempts(old(rows), key) + 1
      ensures Attempts(old(rows), key) <= Attempts(rows, key) <= Attempts(old(rows), key) + 1
      ensures Count(sends, key) <= Count(old(sends), key) + 1
      ensures sends == old(sends) || sends == old(sends) + [key]
      ensures !crashed ==>
                (sends == old(sends) + [key] <==>
                 key !in old(rows) || (!old(rows)[key].sent && old(rows)[key].attempts < 3))
      ensures old(answers) <= answers
      ensures sends != old(sends) && !lost ==>
                key in rows && rows[key].sent == answers[|old(sends)|] && rows[key].failed == !answers[|old(sends)|]
      ensures lost ==> crashed && sends != old(sends)
      ensures key in old(rows) && old(rows)[key].sent ==> key in rows && rows[key].sent
    {
      hide SentTaken, Count;
      crashed, lost := true, false;
      if key !in rows {
        PutUnsent(rows, sends, answers, key, Delivery(0, false, false));
        rows := rows[key := Delivery(0, false, false)];
      }
      if * { return; }
      var row := rows[key];
      if row.sent || row.attempts >= MAX_ATTEMPTS {
        return false, false;
      }
      PutUnsent(rows, sends, answers, key, row.(attempts := row.attempts + 1, failed := false));
      rows := rows[key := row.(attempts := row.attempts + 1, failed := false)];
      if * { return; }
      lost := SendOnce(key);
      if lost { return; }
      crashed := *;
    }

    /** The send itself, and storing what became of it. */
    method SendOnce(key: (K, Destination)) returns (lost: bool)
      requires Valid() && key in rows && !rows[key].sent && Count(sends, key) < rows[key].attempts
      modifies this
      ensures Valid() && sends == old(sends) + [key] && old(answers) <= answers
      ensures rows.Keys == old(rows).Keys && forall k :: k in rows && k != key ==> rows[k] == old(rows)[k]
      ensures rows[key].attempts == old(rows)[key].attempts
      ensures forall k :: Count(sends, k) == Count(old(sends), k) + if k == key then 1 else 0
      ensures !lost ==> rows[key].sent == answers[|old(sends)|] && rows[key].failed == !answers[|old(sends)|]
    {
      hide SentTaken, Count;
      var taken: bool := *;
      LogSend(rows, sends, answers, key, taken);
      sends, answers := sends + [key], answers + [taken];
      if * { return true; }
      if taken {
        PutSent(rows, sends, answers, key, rows[key].(sent := true, failed := false));
        rows := rows[key := rows[key].(sent := true, failed := false)];
      } else {
        PutUnsent(rows, sends, answers, key, rows[key].(failed := true));
        rows := rows[key := rows[key].(failed := true)];
      }
      lost := false;
    }

    method Dispatch(messages: seq<K>, destinations: seq<Destination>) returns (crashed: bool, lost: bool)
      requires Valid()
      modifies this
      ensures Valid()
      ensures Kept(old(rows), old(sends), rows, sends)
      ensures Only(old(sends), sends, messages, destinations)
      ensures !crashed ==> Served(old(rows), rows, messages, destinations)
      ensures OnlyNew(old(sends), sends, messages, destinations)
      ensures old(answers) <= answers && TakenStored(|old(sends)|, sends, answers, rows, lost)
      ensures NoRepeat(|old(sends)|, sends, answers)
      ensures lost ==> crashed
    {
      hide Done, Attempts, Count, TakenStored, NoRepeat, SentTaken;
      NothingSentYet(|sends|, sends, answers, rows);
      for i := 0 to |messages|
        invariant Valid()
        invariant Kept(old(rows), old(sends), rows, sends)
        invariant Only(old(sends), sends, messages, destinations) && OnlyNew(old(sends), sends, messages, destinations)
        invariant Served(old(rows), rows, messages[..i], destinations)
        invariant old(answers) <= answers && TakenStored(|old(sends)|, sends, answers, rows, false)
        invariant NoRepeat(|old(sends)|, sends, answers)
      {
        for j := 0 to |destinations|
          invariant Valid()
          invariant Kept(old(rows), old(sends), rows, sends)
          invariant Only(old(sends), sends, messages, destinations)
          invariant OnlyNew(old(sends), sends, messages, destinations)
          invariant Served(old(rows), rows, messages[..i], destinations)
          invariant Served(old(rows), rows, [messages[i]], destinations[..j])
          invariant old(answers) <= answers && TakenStored(|old(sends)|, sends, answers, rows, false)
          invariant NoRepeat(|old(sends)|, sends, answers)
        {
          ghost var rows0, sends0, answers0 := rows, sends, answers;
          crashed, lost := Deliver((messages[i], destinations[j]));
          OneMoreSend(|old(sends)|, rows0, sends0, answers0, rows, sends, answers,
                      (messages[i], destinations[j]), lost);
          Delivered(rows0, sends0, rows, sends, (messages[i], destinations[j]));
          KeptTransitive(old(rows), old(sends), rows0, sends0, rows, sends);
          if crashed {
            return;
          }
          ServedKept(old(rows), rows0, sends0, rows, sends, messages[..i], destinations);
          ServedKept(old(rows), rows0, sends0, rows, sends, [messages[i]], destinations[..j]);
          assert destinations[..j + 1] == destinations[..j] + [destinations[j]];
        }
        assert destinations[..|destinations|] == destinations;
        assert messages[..i + 1] == messages[..i] + [messages[i]];
      }
      assert messages[..|messages|] == messages;
      crashed, lost := false, false;
    }
  }

  lemma NothingSentYet<K(!new)>(from: nat, sends: seq<(K, Destination)>, answers: seq<bool>,
                                rows: map<(K, Destination), Delivery>)
    requires |answers| == |sends| == from
    ensures TakenStored(from, sends, answers, rows, false) && NoRepeat(from, sends, answers)
  {
  }

  lemma PutUnsent<K(!new)>(rows: map<(K, Destination), Delivery>, sends: seq<(K, Destination)>, answers: seq<bool>,
                           key: (K, Destination), row: Delivery)
    requires |answers| == |sends| && SentTaken(rows, sends, answers) && !row.sent
    ensures SentTaken(rows[key := row], sends, answers)
  {
  }

  lemma PutSent<K(!new)>(rows: map<(K, Destination), Delivery>, sends: seq<(K, Destination)>, answers: seq<bool>,
                         key: (K, Destination), row: Delivery)
    requires |answers| == |sends| > 0 && SentTaken(rows, sends, answers)
    requires sends[|sends| - 1] == key && answers[|sends| - 1]
    ensures SentTaken(rows[key := row], sends, answers)
  {
  }

  lemma LogSend<K(!new)>(rows: map<(K, Destination), Delivery>, sends: seq<(K, Destination)>, answers: seq<bool>,
                         key: (K, Destination), delivered: bool)
    requires |answers| == |sends| && SentTaken(rows, sends, answers)
    ensures SentTaken(rows, sends + [key], answers + [delivered])
    ensures forall k :: Count(sends + [key], k) == Count(sends, k) + if k == key then 1 else 0
  {
    hide Count;
    forall k ensures Count(sends + [key], k) == Count(sends, k) + if k == key then 1 else 0 {
      CountAppend(sends, key, k);
    }
    forall k | k in rows && rows[k].sent
      ensures exists i :: 0 <= i < |sends| + 1 && (sends + [key])[i] == k && (answers + [delivered])[i]
    {
      var i :| 0 <= i < |sends| && sends[i] == k && answers[i];
      assert (sends + [key])[i] == k;
    }
  }

  /** What a delivery adds to the log is stored, and nothing stored is sent again. */
  lemma OneMoreSend<K(!new)>(from: nat, rows0: map<(K, Destination), Delivery>, sends0: seq<(K, Destination)>,
                             answers0: seq<bool>, rows1: map<(K, Destination), Delivery>,
                             sends1: seq<(K, Destination)>, answers1: seq<bool>, key: (K, Destination), lost: bool)
    requires |answers0| == |sends0| && |answers1| == |sends1| && answers0 <= answers1 && from <= |sends0|
    requires TakenStored(from, sends0, answers0, rows0, false) && NoRepeat(from, sends0, answers0)
    requires sends1 == sends0 || sends1 == sends0 + [key]
    requires Done(rows0, key) ==> sends1 == sends0
    requires lost ==> sends1 != sends0
    requires sends1 != sends0 && !lost ==> key in rows1 && rows1[key].sent == answers1[|sends0|]
    requires forall k :: k != key ==> (k in rows1 <==> k in rows0) && (k in rows1 ==> rows1[k] == rows0[k])
    requires key in rows0 && rows0[key].sent ==> key in rows1 && rows1[key].sent
    ensures TakenStored(from, sends1, answers1, rows1, lost) && NoRepeat(from, sends1, answers1)
  {
    forall i | 0 <= i < |sends0| ensures sends1[i] == sends0[i] && answers1[i] == answers0[i] {
    }
    forall i | from <= i < |sends0| && answers0[i] ensures sends0[i] in rows1 && rows1[sends0[i]].sent {
      assert sends0[i] in rows0 && rows0[sends0[i]].sent;
    }
  }

  /** Finished pairs stay finished and are never sent again; attempts only grow. */
  ghost predicate Kept<K(!new)>(rows0: map<(K, Destination), Delivery>, sends0: seq<(K, Destination)>,
                                rows1: map<(K, Destination), Delivery>, sends1: seq<(K, Destination)>)
  {
    && (forall k :: Done(rows0, k) ==> Done(rows1, k) && Count(sends1, k) == Count(sends0, k))
    && (forall k :: Attempts(rows0, k) <= Attempts(rows1, k))
  }

  ghost predicate Only<K(!new)>(sends0: seq<(K, Destination)>, sends1: seq<(K, Destination)>,
                                messages: seq<K>, destinations: seq<Destination>)
  {
    forall k: (K, Destination) :: k.0 !in messages || k.1 !in destinations ==> Count(sends1, k) == Count(sends0, k)
  }

  /** The log grew by sends of these messages to these destinations. */
  ghost predicate OnlyNew<K(!new)>(sends0: seq<(K, Destination)>, sends1: seq<(K, Destination)>,
                                   messages: seq<K>, destinations: seq<Destination>)
  {
    sends0 <= sends1 && forall i :: |sends0| <= i < |sends1| ==> sends1[i].0 in messages && sends1[i].1 in destinations
  }

  /** Every pair is finished, or one attempt further than before. */
  ghost predicate Served<K(!new)>(rows0: map<(K, Destination), Delivery>, rows1: map<(K, Destination), Delivery>,
                                  messages: seq<K>, destinations: seq<Destination>)
  {
    forall m, d :: m in messages && d in destinations ==>
      Done(rows1, (m, d)) || Attempts(rows1, (m, d)) > Attempts(rows0, (m, d))
  }

  lemma Delivered<K(!new)>(rows0: map<(K, Destination), Delivery>, sends0: seq<(K, Destination)>,
                           rows1: map<(K, Destination), Delivery>, sends1: seq<(K, Destination)>, key: (K, Destination))
    requires forall k :: k != key ==> Count(sends1, k) == Count(sends0, k)
    requires forall k :: k != key ==> (k in rows1 <==> k in rows0) && (k in rows1 ==> rows1[k] == rows0[k])
    requires Done(rows0, key) ==> sends1 == sends0 && rows1 == rows0
    requires Attempts(rows0, key) <= Attempts(rows1, key)
    ensures Kept(rows0, sends0, rows1, sends1)
  {
    hide Count;
    forall k ensures Attempts(rows0, k) <= Attempts(rows1, k) {
      assert k == key || (k in rows1 <==> k in rows0);
    }
    forall k | Done(rows0, k) ensures Done(rows1, k) && Count(sends1, k) == Count(sends0, k) {
      assert k == key || (k in rows1 <==> k in rows0);
    }
  }

  lemma KeptTransitive<K(!new)>(rows0: map<(K, Destination), Delivery>, sends0: seq<(K, Destination)>,
                                rows1: map<(K, Destination), Delivery>, sends1: seq<(K, Destination)>,
                                rows2: map<(K, Destination), Delivery>, sends2: seq<(K, Destination)>)
    requires Kept(rows0, sends0, rows1, sends1) && Kept(rows1, sends1, rows2, sends2)
    ensures Kept(rows0, sends0, rows2, sends2)
  {
    hide Done, Attempts, Count;
    forall k ensures Attempts(rows0, k) <= Attempts(rows2, k) {
      assert Attempts(rows0, k) <= Attempts(rows1, k) <= Attempts(rows2, k);
    }
  }

  lemma ServedKept<K(!new)>(rows0: map<(K, Destination), Delivery>,
                            rows1: map<(K, Destination), Delivery>, sends1: seq<(K, Destination)>,
                            rows2: map<(K, Destination), Delivery>, sends2: seq<(K, Destination)>,
                            messages: seq<K>, destinations: seq<Destination>)
    requires Served(rows0, rows1, messages, destinations) && Kept(rows1, sends1, rows2, sends2)
    ensures Served(rows0, rows2, messages, destinations)
  {
    hide Done, Attempts, Count;
    forall m, d | m in messages && d in destinations
      ensures Done(rows2, (m, d)) || Attempts(rows2, (m, d)) > Attempts(rows0, (m, d))
    {
      assert Done(rows1, (m, d)) || Attempts(rows1, (m, d)) > Attempts(rows0, (m, d));
      assert Attempts(rows1, (m, d)) <= Attempts(rows2, (m, d));
    }
  }

  // ------------------------------------------------------------ whole runs

  /** What stood when an alert pass ended: the failure history it read, the delivery rows,
      every send so far and whether the sink took it, and how the pass ended. */
  datatype Pass = Pass(
    history: seq<Failures>,
    rows: map<(Occurrence, Destination), Delivery>,
    sends: seq<(Occurrence, Destination)>,
    answers: seq<bool>,
    crashed: bool,
    lost: bool)

  /** The identity has failed in the newest three eligible runs, in a streak this row opened. */
  predicate Due(history: seq<Failures>, o: Occurrence) {
    StreakLength(history, o.identity) >= REPEATED_RUNS && o.oldestId == OpeningRow(history, o.identity)
  }

  /** One pass against the one before it: only due occurrences are sent, finished ones never
      again, none more than three times; what the sink took is stored, unless the pass died
      on it; and unless it crashed, every due one was finished or attempted. */
  ghost predicate PassFollows(before: Pass, p: Pass, destinations: seq<Destination>) {
    && before.sends <= p.sends
    && (forall i :: |before.sends| <= i < |p.sends| ==> Due(p.history, p.sends[i].0) && p.sends[i].1 in destinations)
    && Kept(before.rows, before.sends, p.rows, p.sends)
    && (forall k :: Count(p.sends, k) <= 3)
    && |before.answers| == |before.sends| && |p.answers| == |p.sends| && before.answers <= p.answers
    && SentTaken(p.rows, p.sends, p.answers)
    && TakenStored(|before.sends|, p.sends, p.answers, p.rows, p.lost)
    && NoRepeat(|before.sends|, p.sends, p.answers)
    && (!p.crashed ==> forall o, d :: Due(p.history, o) && d in destinations ==>
          Done(p.rows, (o, d)) || Attempts(p.rows, (o, d)) > Attempts(before.rows, (o, d)))
  }

  const NO_PASS: Pass := Pass([], map[], [], [], false, false)

  function PassBefore(passes: seq<Pass>, n: nat): Pass
    requires n <= |passes|
  {
    if n == 0 then NO_PASS else passes[n - 1]
  }

  /** A record of alert passes, one after each scan. */
  ghost predicate Operated(scans: seq<Scan>, destinations: seq<Destination>, passes: seq<Pass>) {
    && |passes| <= |scans|
    && forall n :: 0 <= n < |passes| ==>
         && passes[n].history == HistoryOf(scans[..n + 1])
         && PassFollows(PassBefore(passes, n), passes[n], destinations)
  }

  /** Any number of scans, each followed by an alert pass that may crash anywhere and is
      simply run again after the next scan. */
  method Operate(scans: seq<Scan>, destinations: seq<Destination>) returns (passes: seq<Pass>)
    ensures |passes| == |scans| && Operated(scans, destinations, passes)
  {
    hide PassFollows, HistoryOf, Count;
    var store := new DeliveryStore<Occurrence>();
    passes := [];
    for n := 0 to |scans|
      invariant fresh(store) && store.Valid() && |passes| == n && Operated(scans, destinations, passes)
      invariant PassBefore(passes, n).rows == store.rows && PassBefore(passes, n).sends == store.sends
      invariant PassBefore(passes, n).answers == store.answers
    {
      var history := CollectHistory(scans[..n + 1]);
      var messages := DueMessages(history);
      ghost var rows0, sends0 := store.rows, store.sends;
      var crashed, lost := store.Dispatch(messages, destinations);
      var pass := Pass(history, store.rows, store.sends, store.answers, crashed, lost);
      ValidBounds(store);
      FollowsFrom(PassBefore(passes, n), pass, messages, destinations);
      OneMorePass(scans, destinations, passes, pass);
      passes := passes + [pass];
    }
  }

  method DueMessages(history: seq<Failures>) returns (messages: seq<Occurrence>)
    ensures forall o :: o in messages <==> Due(history, o)
  {
    hide StreakLength, OpeningRow;
    var alerts := RepeatedFailures(history);
    messages := [];
    var pending := alerts.Keys;
    while pending != {}
      invariant pending <= alerts.Keys
      invariant forall o :: o in messages <==> o.identity in alerts.Keys - pending && o.oldestId == alerts[o.identity]
      decreases |pending|
    {
      var identity :| identity in pending;
      messages := messages + [Occurrence(identity, alerts[identity])];
      pending := pending - {identity};
    }
  }

  lemma ValidBounds(store: DeliveryStore<Occurrence>)
    requires store.Valid()
    ensures forall k :: Count(store.sends, k) <= 3
  {
    hide Count;
    forall k ensures Count(store.sends, k) <= 3 {
      if k in store.rows {
        assert Count(store.sends, k) <= store.rows[k].attempts;
      }
    }
  }

  lemma FollowsFrom(before: Pass, p: Pass, messages: seq<Occurrence>, destinations: seq<Destination>)
    requires forall o :: o in messages <==> Due(p.history, o)
    requires Kept(before.rows, before.sends, p.rows, p.sends) && OnlyNew(before.sends, p.sends, messages, destinations)
    requires !p.crashed ==> Served(before.rows, p.rows, messages, destinations)
    requires forall k :: Count(p.sends, k) <= 3
    requires |before.answers| == |before.sends| && |p.answers| == |p.sends| && before.answers <= p.answers
    requires SentTaken(p.rows, p.sends, p.answers)
    requires TakenStored(|before.sends|, p.sends, p.answers, p.rows, p.lost)
    requires NoRepeat(|before.sends|, p.sends, p.answers)
    ensures PassFollows(before, p, destinations)
  {
    hide Due, Kept, Count, Done, Attempts, SentTaken, TakenStored, NoRepeat;
  }

  lemma OneMorePass(scans: seq<Scan>, destinations: seq<Destination>, passes: seq<Pass>, p: Pass)
    requires Operated(scans, destinations, passes) && |passes| < |scans|
    requires p.history == HistoryOf(scans[..|passes| + 1]) && PassFollows(PassBefore(passes, |passes|), p, destinations)
    ensures Operated(scans, destinations, passes + [p])
  {
    hide PassFollows, HistoryOf;
    var more := passes + [p];
    forall n | 0 <= n < |more|
      ensures more[n].history == HistoryOf(scans[..n + 1]) && PassFollows(PassBefore(more, n), more[n], destinations)
    {
      assert PassBefore(more, n) == PassBefore(passes, n);
    }
  }

  // --------------------------------------------------- one unbroken streak

  /** The identity fails in every eligible run of these scans. */
  ghost predicate FailsThroughout(scans: seq<Scan>, identity: Identity) {
    forall j :: 0 <= j < |scans| && Eligible(scans[j].run) ==> identity in FailureMap(scans[j].errors, scans[j].run)
  }

  /** Further failing scans keep the streak and the row that opened it. */
  lemma {:induction false} StreakGoesOn(scans: seq<Scan>, more: seq<Scan>, identity: Identity)
    requires StreakLength(HistoryOf(scans), identity) > 0 && FailsThroughout(more, identity)
    ensures StreakLength(HistoryOf(scans + more), identity) > 0
    ensures OpeningRow(HistoryOf(scans + more), identity) == OpeningRow(HistoryOf(scans), identity)
  {
    if |more| == 0 {
      assert scans + more == scans;
    } else {
      var n := |more| - 1;
      StreakGoesOn(scans, more[..n], identity);
      assert (scans + more)[..|scans + more| - 1] == scans + more[..n];
      if Eligible(more[n].run) {
        StreakKeepsOccurrence(HistoryOf(scans + more[..n]), [FailureMap(more[n].errors, more[n].run)], identity);
      }
    }
  }

  /** Sends of an identity to a destination from position `from` on. */
  ghost function SendsOf(log: seq<(Occurrence, Destination)>, from: nat, identity: Identity, d: Destination): nat {
    if |log| <= from then 0
    else
      var n := |log| - 1;
      SendsOf(log[..n], from, identity, d) + if log[n].0.identity == identity && log[n].1 == d then 1 else 0
  }

  lemma {:induction false} OneKey(log: seq<(Occurrence, Destination)>, from: nat, o: Occurrence, d: Destination)
    requires forall i :: from <= i < |log| && log[i].0.identity == o.identity ==> log[i].0 == o
    ensures SendsOf(log, from, o.identity, d) <= Count(log, (o, d))
  {
    if |log| > from {
      OneKey(log[..|log| - 1], from, o, d);
    }
  }

  /** The pass after scan `n`, against the one before it. */
  lemma PassAt(scans: seq<Scan>, destinations: seq<Destination>, passes: seq<Pass>, n: nat)
    requires Operated(scans, destinations, passes) && n < |passes|
    ensures |passes| <= |scans| && passes[n].history == HistoryOf(scans[..n + 1])
    ensures PassFollows(PassBefore(passes, n), passes[n], destinations)
  {
    hide PassFollows, HistoryOf;
  }

  lemma FollowsKept(before: Pass, p: Pass, destinations: seq<Destination>)
    requires PassFollows(before, p, destinations)
    ensures before.sends <= p.sends && Kept(before.rows, before.sends, p.rows, p.sends)
  {
    hide Kept, Count, Done, Attempts, Due;
  }

  lemma FollowsDue(before: Pass, p: Pass, destinations: seq<Destination>, i: nat)
    requires PassFollows(before, p, destinations) && |before.sends| <= i < |p.sends|
    ensures Due(p.history, p.sends[i].0)
  {
    hide Kept, Count, Done, Attempts, Due;
  }

  lemma FollowsBounded(before: Pass, p: Pass, destinations: seq<Destination>, key: (Occurrence, Destination))
    requires PassFollows(before, p, destinations)
    ensures Count(p.sends, key) <= 3
  {
    hide Kept, Count, Done, Attempts, Due;
  }

  lemma KeptRefl<K(!new)>(rows: map<(K, Destination), Delivery>, sends: seq<(K, Destination)>)
    ensures Kept(rows, sends, rows, sends)
  {
    hide Count;
  }

  lemma {:induction false} SendsGrow(scans: seq<Scan>, destinations: seq<Destination>, passes: seq<Pass>, m: nat,
                                     n: nat)
    requires Operated(scans, destinations, passes) && m <= n <= |passes|
    ensures PassBefore(passes, m).sends <= PassBefore(passes, n).sends
    ensures Kept(PassBefore(passes, m).rows, PassBefore(passes, m).sends,
                  PassBefore(passes, n).rows, PassBefore(passes, n).sends)
    decreases n
  {
    hide Kept, Operated, PassFollows;
    var a := PassBefore(passes, m);
    if m < n {
      SendsGrow(scans, destinations, passes, m, n - 1);
      var b, c := PassBefore(passes, n - 1), passes[n - 1];
      PassAt(scans, destinations, passes, n - 1);
      FollowsKept(b, c, destinations);
      KeptTransitive(a.rows, a.sends, b.rows, b.sends, c.rows, c.sends);
    } else {
      KeptRefl(a.rows, a.sends);
    }
  }

  /** Every send of the identity since pass `m` names the row that opened the streak. */
  lemma {:induction false} StreakNamesOne(
      scans: seq<Scan>, destinations: seq<Destination>, passes: seq<Pass>, identity: Identity, m: nat, n: nat, i: nat)
    requires Operated(scans, destinations, passes) && m < n <= |passes| <= |scans|
    requires StreakLength(HistoryOf(scans[..m + 1]), identity) > 0 && FailsThroughout(scans[m + 1..n], identity)
    requires |PassBefore(passes, m).sends| <= i < |PassBefore(passes, n).sends|
    requires PassBefore(passes, n).sends[i].0.identity == identity
    ensures PassBefore(passes, n).sends[i].0 == Occurrence(identity, OpeningRow(HistoryOf(scans[..m + 1]), identity))
    decreases n
  {
    hide HistoryOf, StreakLength, OpeningRow, Operated, PassFollows, Due, FailsThroughout;
    var p, before := passes[n - 1], PassBefore(passes, n - 1);
    PassAt(scans, destinations, passes, n - 1);
    FollowsKept(before, p, destinations);
    if i < |before.sends| {
      assert before.sends[i] == p.sends[i];
      ThroughoutPrefix(scans, identity, m, n);
      StreakNamesOne(scans, destinations, passes, identity, m, n - 1, i);
    } else {
      assert scans[..m + 1] + scans[m + 1..n] == scans[..n];
      StreakGoesOn(scans[..m + 1], scans[m + 1..n], identity);
      FollowsDue(before, p, destinations, i);
      DueNames(p.history, p.sends[i].0);
    }
  }

  lemma DueNames(history: seq<Failures>, o: Occurrence)
    requires Due(history, o) && StreakLength(history, o.identity) > 0
    ensures o.oldestId == OpeningRow(history, o.identity)
  {
    hide OpeningRow;
  }

  lemma ThroughoutPrefix(scans: seq<Scan>, identity: Identity, m: nat, n: nat)
    requires m < n <= |scans| && FailsThroughout(scans[m + 1..n], identity)
    ensures n - 1 > m ==> FailsThroughout(scans[m + 1..n - 1], identity)
  {
    hide FailureMap;
    if n - 1 > m {
      assert scans[m + 1..n - 1] == scans[m + 1..n][..n - 1 - (m + 1)];
    }
  }

  /** Over all scans, restarts and crash points: while an identity keeps failing from the
      scan of pass `m` to that before pass `n`, everything sent about it carries the one row
      that opened the streak, and each destination gets at most three sends. */
  lemma StreakSends(scans: seq<Scan>, destinations: seq<Destination>, passes: seq<Pass>, identity: Identity,
                    d: Destination,
                    m: nat, n: nat)
    requires Operated(scans, destinations, passes) && m < n <= |passes|
    requires StreakLength(HistoryOf(scans[..m + 1]), identity) > 0 && FailsThroughout(scans[m + 1..n], identity)
    ensures var from, log := |PassBefore(passes, m).sends|, PassBefore(passes, n).sends;
            var o := Occurrence(identity, OpeningRow(HistoryOf(scans[..m + 1]), identity));
            && (forall i :: from <= i < |log| && log[i].0.identity == identity ==> log[i].0 == o)
            && SendsOf(log, from, identity, d) <= 3
  {
    hide HistoryOf, StreakLength, OpeningRow, PassFollows, FailsThroughout, Operated;
    PassAt(scans, destinations, passes, n - 1);
    var from, log := |PassBefore(passes, m).sends|, PassBefore(passes, n).sends;
    var o := Occurrence(identity, OpeningRow(HistoryOf(scans[..m + 1]), identity));
    forall i | from <= i < |log| && log[i].0.identity == identity ensures log[i].0 == o {
      StreakNamesOne(scans, destinations, passes, identity, m, n, i);
    }
    OneKey(log, from, o, d);
    FollowsBounded(PassBefore(passes, n - 1), passes[n - 1], destinations, (o, d));
  }

  lemma {:induction false} CountKept<K>(s: seq<(K, Destination)>, t: seq<(K, Destination)>, key: (K, Destination),
                                        i: nat)
    requires s <= t && |s| <= i < |t| && t[i] == key
    ensures Count(t, key) > Count(s, key)
  {
    var n := |t| - 1;
    if i < n {
      CountKept(s, t[..n], key, i);
    } else {
      CountGrows(s, t[..n], key);
    }
  }

  lemma {:induction false} CountGrows<K>(s: seq<(K, Destination)>, t: seq<(K, Destination)>, key: (K, Destination))
    requires s <= t
    ensures Count(s, key) <= Count(t, key)
    decreases |t|
  {
    if |s| < |t| {
      CountGrows(s, t[..|t| - 1], key);
    } else {
      assert s == t;
    }
  }

  /** And once a pass has stored a success, that occurrence is never sent there again. */
  lemma NoneAfterSuccess(scans: seq<Scan>, destinations: seq<Destination>, passes: seq<Pass>,
                         key: (Occurrence, Destination),
                         m: nat, n: nat, i: nat)
    requires Operated(scans, destinations, passes) && m <= n < |passes|
    requires key in passes[m].rows && passes[m].rows[key].sent
    requires |passes[m].sends| <= i < |passes[n].sends|
    ensures passes[n].sends[i] != key
  {
    hide Operated;
    SendsGrow(scans, destinations, passes, m + 1, n + 1);
    assert Done(passes[m].rows, key);
    hide Count, Done, Attempts;
    if passes[n].sends[i] == key {
      CountKept(passes[m].sends, passes[n].sends, key, i);
      assert false;
    }
  }

  lemma FollowsAnswers(before: Pass, p: Pass, destinations: seq<Destination>)
    requires PassFollows(before, p, destinations)
    ensures |before.answers| == |before.sends| && |p.answers| == |p.sends| && before.answers <= p.answers
    ensures TakenStored(|before.sends|, p.sends, p.answers, p.rows, p.lost)
    ensures NoRepeat(|before.sends|, p.sends, p.answers)
  {
    hide Kept, Count, Done, Attempts, Due, TakenStored, NoRepeat, SentTaken;
  }

  /** Once the sink took an occurrence it is never sent to that destination again: not in
      the rest of that pass nor in any later one, unless the process died right after the
      send, before the success could be stored. */
  lemma NoneAfterTaken(scans: seq<Scan>, destinations: seq<Destination>, passes: seq<Pass>,
                       m: nat, i: nat, n: nat, j: nat)
    requires Operated(scans, destinations, passes) && m <= n < |passes|
    requires |PassBefore(passes, m).sends| <= i < |passes[m].sends| && i < |passes[m].answers| && passes[m].answers[i]
    requires !(passes[m].lost && i == |passes[m].sends| - 1)
    requires i < j < |passes[n].sends|
    ensures |passes[m].sends| <= |passes[n].sends| && passes[n].sends[i] == passes[m].sends[i]
    ensures passes[n].sends[j] != passes[m].sends[i]
  {
    hide Operated, PassFollows, Kept, HistoryOf;
    PassAt(scans, destinations, passes, m);
    FollowsAnswers(PassBefore(passes, m), passes[m], destinations);
    SendsGrow(scans, destinations, passes, m + 1, n + 1);
    assert passes[m].sends <= passes[n].sends;
    if j < |passes[m].sends| {
      assert passes[n].sends[j] == passes[m].sends[j];
    } else {
      NoneAfterSuccess(scans, destinations, passes, passes[m].sends[i], m, n, j);
    }
  }

  // ------------------------------------------------------ what a scan adds

  /** A successful or partly successful scan adds its failures to the history: the
      identities of its run's error rows, price reads aside. Any other scan adds nothing. */
  lemma ScanAdds(scans: seq<Scan>, scan: Scan)
    ensures var before, after := HistoryOf(scans), HistoryOf(scans + [scan]);
            if scan.run.status == Failed || scan.run.status == Running then after == before
            else
              && |after| == |before| + 1 && after[1..] == before
              && forall identity :: identity in after[0] <==>
                   exists k :: 0 <= k < |scan.errors| && scan.errors[k].runId == scan.run.id
                               && scan.errors[k].identity == identity && identity.stage != "PRICE_READ"
  {
    hide FailureMap;
    assert (scans + [scan])[..|scans|] == scans;
    if Eligible(scan.run) {
      var m := FailureMap(scan.errors, scan.run);
      forall identity ensures identity in m <==>
          exists k :: 0 <= k < |scan.errors| && scan.errors[k].runId == scan.run.id
                      && scan.errors[k].identity == identity && identity.stage != "PRICE_READ"
      {
        FailuresMean(scan.errors, scan.run, identity);
        if FailsIn(scan.errors, scan.run, identity) {
          var k :| 0 <= k < |scan.errors| && CountsFor(scan.errors[k], scan.run)
                   && scan.errors[k].identity == identity;
        }
        if k :| 0 <= k < |scan.errors| && scan.errors[k].runId == scan.run.id
                && scan.errors[k].identity == identity && identity.stage != "PRICE_READ" {
          assert CountsFor(scan.errors[k], scan.run);
        }
      }
    }
  }
}
