/** Sending transactions from a command line that may die at any moment
    (broadcast_prepared_action and its helpers in tidal/operator_cli_support.py). */
module SendProtocol {
  import opened Common
  import opened Outbox
  import opened ExecutionResult

  // ------------------------------------------------------------- the network

  /** What happened at the signer, on the network and at the control plane, per
      control-plane base URL. A hash is seen once a receipt with status 0 or 1 came back for
      it, and with which; a report was offered to the control plane, which may or may not have taken it. */
  datatype Event =
    | Signed(url: string, hash: string)
    | Sent(url: string, hash: string)
    | Seen(url: string, hash: string, status: int)
    | Reported(url: string, action: string, payload: Payload)
  {
    predicate Commits() {
      Signed? || Sent?
    }
  }

  /** The hashes sent for this URL and not seen since. */
  function Unresolved(trace: seq<Event>, url: string): set<string> {
    if |trace| == 0 then {}
    else
      var before, last := Unresolved(trace[..|trace| - 1], url), trace[|trace| - 1];
      if last.url != url || last.Signed? || last.Reported? then before
      else if last.Sent? then before + {last.hash}
      else before - {last.hash}
  }

  predicate SentUnseen(trace: seq<Event>, i: nat, url: string, hash: string) {
    && i < |trace| && trace[i] == Sent(url, hash)
    && forall j :: i < j < |trace| ==> !SeenHash(trace[j], url, hash)
  }

  predicate SeenHash(e: Event, url: string, hash: string) {
    e.Seen? && e.url == url && e.hash == hash
  }

  /** Sent at some point, and not seen after that. */
  lemma {:induction false} UnresolvedMeans(trace: seq<Event>, url: string, hash: string)
    ensures hash in Unresolved(trace, url) <==> exists i :: 0 <= i < |trace| && SentUnseen(trace, i, url, hash)
  {
    if |trace| > 0 {
      var n := |trace| - 1;
      var init, last := trace[..n], trace[n];
      UnresolvedMeans(init, url, hash);
      forall i | 0 <= i < n
        ensures SentUnseen(trace, i, url, hash) <==> SentUnseen(init, i, url, hash) && !SeenHash(last, url, hash)
      {
        assert forall j :: i < j < n ==> init[j] == trace[j];
      }
      assert SentUnseen(trace, n, url, hash) <==> last == Sent(url, hash);
    }
  }

  /** Nothing is ever signed or sent for a URL that has an unresolved hash. */
  ghost predicate Careful(trace: seq<Event>) {
    forall i :: 0 <= i < |trace| && trace[i].Commits() ==> Unresolved(trace[..i], trace[i].url) == {}
  }

  /** At no moment of a careful run is more than one hash of a URL unresolved. */
  lemma {:induction false} AtMostOneUnresolved(trace: seq<Event>, url: string, n: nat)
    requires Careful(trace) && n <= |trace|
    ensures |Unresolved(trace[..n], url)| <= 1
  {
    if n > 0 {
      AtMostOneUnresolved(trace, url, n - 1);
      var last := trace[n - 1];
      assert trace[..n][..n - 1] == trace[..n - 1];
      var before := Unresolved(trace[..n - 1], url);
      if last.url == url && last.Seen? {
        assert before - {last.hash} <= before;
        SubsetSmaller(before - {last.hash}, before);
      }
    }
  }

  lemma {:induction false} SubsetSmaller(a: set<string>, b: set<string>)
    requires a <= b
    ensures |a| <= |b|
    decreases a
  {
    if x :| x in a {
      SubsetSmaller(a - {x}, b - {x});
    }
  }

  lemma UnresolvedAppend(trace: seq<Event>, e: Event, url: string)
    ensures Unresolved(trace + [e], url) ==
            if e.url != url || e.Signed? || e.Reported? then Unresolved(trace, url)
            else if e.Sent? then Unresolved(trace, url) + {e.hash}
            else Unresolved(trace, url) - {e.hash}
  {
    assert (trace + [e])[..|trace|] == trace;
  }

  /** The receipt lookup's answer: an error, or a receipt with some status or none. */
  datatype Answer = NoReceipt | Status(value: Option<int>)
  {
    predicate Final() {
      this == Status(Some(0)) || this == Status(Some(1))
    }
  }

  class Network {
    var trace: seq<Event>

    constructor (past: seq<Event>)
      ensures trace == past
    {
      trace := past;
    }

    method Sign(url: string, signed: Option<string>)
      modifies this
      ensures trace == if signed.Some? then old(trace) + [Signed(url, signed.value)] else old(trace)
    {
      if signed.Some? {
        trace := trace + [Signed(url, signed.value)];
      }
    }

    /** The response may be lost although the transaction was taken. */
    method SendRaw(url: string, hash: string) returns (unknown: bool)
      modifies this
      ensures trace == old(trace) + [Sent(url, hash)]
    {
      trace := trace + [Sent(url, hash)];
      unknown := *;
    }

    /** Offer a report to the control plane. */
    method Report(url: string, action: string, payload: Payload) returns (delivered: bool)
      modifies this
      ensures trace == old(trace) + [Reported(url, action, payload)]
    {
      trace := trace + [Reported(url, action, payload)];
      delivered := *;
    }

    method GetReceipt(url: string, hash: string) returns (answer: Answer)
      modifies this
      ensures trace == if answer.Final() then old(trace) + [Seen(url, hash, answer.value.value)] else old(trace)
    {
      answer := *;
      if answer.Final() {
        trace := trace + [Seen(url, hash, answer.value.value)];
      }
    }
  }

  // -------------------------------------------------------------- invariant

  /** Reports carry what their kind says, under the index in their payload. */
  ghost predicate WellFormed(rows: Table) {
    forall k :: k in rows ==> k.txIndex == rows[k].payload.txIndex && (k.kind.Receipt? <==> rows[k].payload.Outcome?)
  }

  function Sibling(k: Key): Key {
    k.(kind := Submission)
  }

  /** A broadcast report and the retained submission of the same transaction name the same
      hash and nonce, so upgrading one into the other loses nothing. */
  ghost predicate Agree(rows: Table) {
    forall k :: k in rows && k.kind.Broadcast? && Sibling(k) in rows ==> rows[Sibling(k)].payload == rows[k].payload
  }

  /** A row of this kind names the hash. */
  ghost predicate Names(rows: Table, url: string, hash: string, kind: Kind) {
    exists k :: k in rows && k.kind == kind && k.url == url && rows[k].payload.Identity? && rows[k].payload.hash == hash
  }

  /** What was there before: whether hashes may be kept by broadcast reports alone, the rows
      found, and how much had happened. */
  datatype Legacy = Legacy(broadcasts: bool, known: Table, length: nat)

  /** Every unresolved hash is retained as a submission; or, if rows of older clients are
      about, at least as an undelivered broadcast report. */
  ghost predicate Retained(rows: Table, trace: seq<Event>, legacy: Legacy) {
    forall url, hash :: hash in Unresolved(trace, url) ==>
      Names(rows, url, hash, Submission) || (legacy.broadcasts && Names(rows, url, hash, Broadcast))
  }

  /** The receipt at `j` says how the transaction reported just before it ended: with
      status 1 if it was confirmed, with status 0 if not. */
  predicate Learned(trace: seq<Event>, j: int, url: string, action: string, i: nat, confirmed: bool) {
    && 0 < j < |trace|
    && trace[j - 1].Reported? && trace[j - 1].url == url && trace[j - 1].action == action
    && trace[j - 1].payload.Identity? && trace[j - 1].payload.txIndex == i
    && trace[j] == Seen(url, trace[j - 1].payload.hash, if confirmed then 1 else 0)
  }

  ghost predicate Told(trace: seq<Event>, url: string, action: string, i: nat, confirmed: bool) {
    exists j :: Learned(trace, j, url, action, i, confirmed)
  }

  /** Every outcome reported from `from` on is the one the receipt just seen gave. */
  ghost predicate ReportsTrue(trace: seq<Event>, from: nat) {
    forall j :: from <= j < |trace| && trace[j].Reported? && trace[j].payload.Outcome? ==>
      Learned(trace, j - 1, trace[j].url, trace[j].action, trace[j].payload.txIndex, trace[j].payload.confirmed)
  }

  /** Every queued receipt report is one of `known` or says what some receipt gave. */
  ghost predicate QueuedTrue(rows: Table, trace: seq<Event>, known: Table) {
    forall k :: k in rows && k.kind.Receipt? && rows[k].payload.Outcome? ==>
      || (k in known && known[k].payload == rows[k].payload)
      || Told(trace, k.url, k.action, k.txIndex, rows[k].payload.confirmed)
  }

  ghost predicate Honest(rows: Table, trace: seq<Event>, legacy: Legacy) {
    ReportsTrue(trace, legacy.length) && QueuedTrue(rows, trace, legacy.known)
  }

  ghost predicate Inv(rows: Table, trace: seq<Event>, legacy: Legacy) {
    && WellFormed(rows) && Agree(rows) && Retained(rows, trace, legacy) && Careful(trace)
    && Honest(rows, trace, legacy)
  }

  lemma StillHonest(rows: Table, after: Table, trace: seq<Event>, legacy: Legacy)
    requires Honest(rows, trace, legacy)
    requires forall k :: k in after && k.kind.Receipt? ==> k in rows && after[k].payload == rows[k].payload
    ensures Honest(after, trace, legacy)
  {
    hide Told, ReportsTrue;
  }

  lemma HonestPut(rows: Table, after: Table, trace: seq<Event>, key: Key, payload: Payload, legacy: Legacy)
    requires Honest(rows, trace, legacy) && IsPut(rows, after, key, payload)
    requires payload.Outcome? && payload.txIndex == key.txIndex
    requires Told(trace, key.url, key.action, key.txIndex, payload.confirmed)
    ensures Honest(after, trace, legacy)
  {
    hide Told, ReportsTrue;
  }

  lemma HonestAppend(rows: Table, trace: seq<Event>, e: Event, legacy: Legacy)
    requires Honest(rows, trace, legacy)
    requires e.Reported? && e.payload.Outcome? ==>
               Learned(trace, |trace| - 1, e.url, e.action, e.payload.txIndex, e.payload.confirmed)
    ensures Honest(rows, trace + [e], legacy)
  {
    var more := trace + [e];
    forall j, url, action, i, confirmed | Learned(trace, j, url, action, i, confirmed)
      ensures Learned(more, j, url, action, i, confirmed)
    {
    }
    hide Learned;
    forall k | k in rows && k.kind.Receipt? && rows[k].payload.Outcome?
               && Told(trace, k.url, k.action, k.txIndex, rows[k].payload.confirmed)
      ensures Told(more, k.url, k.action, k.txIndex, rows[k].payload.confirmed)
    {
      var j :| Learned(trace, j, k.url, k.action, k.txIndex, rows[k].payload.confirmed);
      assert Learned(more, j, k.url, k.action, k.txIndex, rows[k].payload.confirmed);
    }
    forall j | legacy.length <= j < |more| && more[j].Reported? && more[j].payload.Outcome?
      ensures Learned(more, j - 1, more[j].url, more[j].action, more[j].payload.txIndex, more[j].payload.confirmed)
    {
      assert j < |trace| ==> more[j] == trace[j];
    }
  }

  /** No identity is lost: each named before is named after, a broadcast perhaps as a
      submission. */
  ghost predicate NamesKept(rows: Table, after: Table) {
    && (forall url, hash :: Names(rows, url, hash, Submission) ==> Names(after, url, hash, Submission))
    && (forall url, hash :: Names(rows, url, hash, Broadcast) ==>
          Names(after, url, hash, Broadcast) || Names(after, url, hash, Submission))
  }

  lemma StillRetained(rows: Table, after: Table, trace: seq<Event>, legacy: Legacy)
    requires Retained(rows, trace, legacy) && NamesKept(rows, after)
    ensures Retained(after, trace, legacy)
  {
    hide Unresolved, Names;
  }

  /** Every identity of before is in the table still, or a submission has it. */
  lemma RowsKept(rows: Table, after: Table)
    requires forall k :: k in rows && rows[k].payload.Identity? ==>
               (k in after && after[k].payload == rows[k].payload)
               || (k.kind.Broadcast? && Sibling(k) in after && after[Sibling(k)].payload == rows[k].payload)
    requires WellFormed(rows)
    ensures NamesKept(rows, after)
  {
    forall url, hash | Names(rows, url, hash, Submission) ensures Names(after, url, hash, Submission) {
      var k :| k in rows && k.kind == Submission && k.url == url && rows[k].payload.Identity?
               && rows[k].payload.hash == hash;
    }
    forall url, hash | Names(rows, url, hash, Broadcast)
      ensures Names(after, url, hash, Broadcast) || Names(after, url, hash, Submission)
    {
      var k :| k in rows && k.kind == Broadcast && k.url == url && rows[k].payload.Identity?
               && rows[k].payload.hash == hash;
      assert k in after || Sibling(k) in after;
    }
  }

  /** Storing a transaction's identity beside what is known of that transaction already. */
  lemma PutIdentity(rows: Table, after: Table, trace: seq<Event>, key: Key, payload: Payload, legacy: Legacy)
    requires Inv(rows, trace, legacy) && IsPut(rows, after, key, payload)
    requires !key.kind.Receipt? && payload.Identity? && payload.txIndex == key.txIndex
    requires key in rows ==> rows[key].payload == payload
    requires Sibling(key) in rows ==> rows[Sibling(key)].payload == payload
    requires key.(kind := Broadcast) in rows ==> rows[key.(kind := Broadcast)].payload == payload
    ensures Inv(after, trace, legacy)
  {
    hide Unresolved, Careful, Names, NamesKept, Retained, Honest;
    RowsKept(rows, after);
    StillRetained(rows, after, trace, legacy);
    StillHonest(rows, after, trace, legacy);
  }

  lemma PutOutcome(rows: Table, after: Table, trace: seq<Event>, key: Key, payload: Payload, legacy: Legacy)
    requires Inv(rows, trace, legacy) && IsPut(rows, after, key, payload)
    requires key.kind.Receipt? && payload.Outcome? && payload.txIndex == key.txIndex
    requires Told(trace, key.url, key.action, key.txIndex, payload.confirmed)
    ensures Inv(after, trace, legacy)
  {
    hide Unresolved, Careful, Names, NamesKept, Retained, Honest, Told;
    RowsKept(rows, after);
    StillRetained(rows, after, trace, legacy);
    HonestPut(rows, after, trace, key, payload, legacy);
  }

  /** Dropping a delivery report whose transaction is retained, or a submission whose hash
      is resolved. */
  lemma Drop(rows: Table, trace: seq<Event>, key: Key, legacy: Legacy)
    requires Inv(rows, trace, legacy)
    requires key in rows && key.kind.Submission? ==> rows[key].payload.hash !in Unresolved(trace, key.url)
    requires key in rows && key.kind.Broadcast? ==> Sibling(key) in rows
    ensures Inv(rows - {key}, trace, legacy)
  {
    hide Careful, Honest;
    var after := rows - {key};
    StillHonest(rows, after, trace, legacy);
    if key in rows && key.kind.Submission? {
      var gone := rows[key].payload.hash;
      hide Unresolved;
      forall url, hash | hash in Unresolved(trace, url)
        ensures Names(after, url, hash, Submission) || (legacy.broadcasts && Names(after, url, hash, Broadcast))
      {
        if Names(rows, url, hash, Submission) {
          var k :| k in rows && k.kind == Submission && k.url == url && rows[k].payload.Identity?
                   && rows[k].payload.hash == hash;
          assert k in after;
        } else {
          var k :| k in rows && k.kind == Broadcast && k.url == url && rows[k].payload.Identity?
                   && rows[k].payload.hash == hash;
          assert k in after;
        }
      }
    } else {
      hide Unresolved, Names, NamesKept, Retained;
      RowsKept(rows, after);
      StillRetained(rows, after, trace, legacy);
    }
  }

  /** Every broadcast report that goes leaves its submission behind. */
  ghost predicate BroadcastsSafe(rows: Table, after: Table) {
    forall k :: k in rows && k !in after && k.kind.Broadcast? ==> Sibling(k) in after
  }

  lemma Flushed(rows: Table, after: Table, trace: seq<Event>, url: string, legacy: Legacy)
    requires Inv(rows, trace, legacy) && OnlyDelivered(rows, after, url) && BroadcastsSafe(rows, after)
    ensures Inv(after, trace, legacy)
  {
    hide Careful, Unresolved, Names, NamesKept, Retained, Honest;
    RowsKept(rows, after);
    StillRetained(rows, after, trace, legacy);
    StillHonest(rows, after, trace, legacy);
  }

  lemma CarefulAppend(trace: seq<Event>, e: Event)
    requires Careful(trace) && (e.Commits() ==> Unresolved(trace, e.url) == {})
    ensures Careful(trace + [e])
  {
    hide Unresolved;
    var more := trace + [e];
    forall i | 0 <= i < |more| && more[i].Commits() ensures Unresolved(more[..i], more[i].url) == {} {
      assert more[..i] == trace[..i];
      assert i == |trace| ==> trace[..i] == trace;
    }
  }

  /** Signing and sending need nothing unresolved, and sending a retained identity; an
      outcome is reported right after the receipt that gave it. */
  lemma Happens(rows: Table, trace: seq<Event>, e: Event, legacy: Legacy)
    requires Inv(rows, trace, legacy)
    requires e.Commits() ==> Unresolved(trace, e.url) == {}
    requires e.Sent? ==> Names(rows, e.url, e.hash, Submission)
    requires e.Reported? && e.payload.Outcome? ==>
               Learned(trace, |trace| - 1, e.url, e.action, e.payload.txIndex, e.payload.confirmed)
    ensures Inv(rows, trace + [e], legacy)
  {
    hide Unresolved, Careful, Names, Honest, Learned;
    HonestAppend(rows, trace, e, legacy);
    CarefulAppend(trace, e);
    forall url, hash | hash in Unresolved(trace + [e], url)
      ensures Names(rows, url, hash, Submission) || (legacy.broadcasts && Names(rows, url, hash, Broadcast))
    {
      UnresolvedAppend(trace, e, url);
    }
  }

  ghost predicate NoneOfKind(rows: Table, url: string, kind: Kind) {
    forall k :: k in rows && k.url == url ==> k.kind != kind
  }

  lemma NothingKept(rows: Table, trace: seq<Event>, url: string, legacy: Legacy)
    requires Inv(rows, trace, legacy) && NoneOfKind(rows, url, Submission) && NoneOfKind(rows, url, Broadcast)
    ensures Unresolved(trace, url) == {}
  {
    hide Unresolved, Careful, Honest;
    assert forall hash :: !Names(rows, url, hash, Submission) && !Names(rows, url, hash, Broadcast);
  }

  // -------------------------------------------------------- reporting upward

  /** Queue a report, offer it, and drop it once taken. It may stop at a crash between any
      two of these; failures of either side are only warned about, and a queued report that
      was not taken stays queued. */
  method SendActionReport(outbox: ActionReportOutbox, net: Network, url: string, action: string, payload: Payload,
                          ghost legacy: Legacy)
      returns (crashed: bool, queued: bool, delivered: bool)
    requires Inv(outbox.rows, net.trace, legacy)
    requires payload.Identity? ==>
               var key := Key(Normalize(url), action, payload.txIndex, Submission);
               key in outbox.rows && outbox.rows[key].payload == payload
    requires payload.Outcome? ==>
               Learned(net.trace, |net.trace| - 1, Normalize(url), action, payload.txIndex, payload.confirmed)
    requires outbox.Valid()
    modifies outbox, net
    ensures outbox.Valid()
    ensures Inv(outbox.rows, net.trace, legacy)
    ensures ReportedOnly(old(outbox.rows), outbox.rows, Normalize(url), action, payload)
    ensures net.trace == old(net.trace) + [Reported(Normalize(url), action, payload)]
            || (crashed && net.trace == old(net.trace))
    ensures !crashed && queued && !delivered ==> StaysQueued(outbox.rows, Normalize(url), action, payload)
  {
    hide Unresolved, Inv, Normalize, ReportedOnly, Learned;
    var kind := if payload.Identity? then Broadcast else Receipt;
    ghost var rows := outbox.rows;
    var key := Key(Normalize(url), action, payload.txIndex, kind);
    if payload.Identity? {
      queued := outbox.QueueBroadcast(url, action, payload);
    } else {
      queued := outbox.QueueReceipt(url, action, payload);
    }
    delivered := false;
    Reporting(rows, outbox.rows, net.trace, key, payload, legacy);
    if * {
      return true, queued, delivered;
    }
    Happens(outbox.rows, net.trace, Reported(Normalize(url), action, payload), legacy);
    delivered := net.Report(Normalize(url), action, payload);
    if !delivered || !queued {
      return false, queued, delivered;
    }
    ReportDelivered(rows, outbox.rows, net.trace, key, payload, legacy);
    var _ := outbox.MarkDelivered(url, action, payload.txIndex, kind);
    crashed := *;
  }

  ghost predicate StaysQueued(rows: Table, url: string, action: string, payload: Payload) {
    var key := Key(url, action, payload.txIndex, if payload.Identity? then Broadcast else Receipt);
    key in rows && rows[key].payload == payload
  }

  /** At most the one report of this transaction was written or dropped. */
  ghost predicate ReportedOnly(before: Table, after: Table, url: string, action: string, payload: Payload) {
    var key := Key(url, action, payload.txIndex, if payload.Identity? then Broadcast else Receipt);
    && (forall k :: k != key ==> (k in before <==> k in after) && (k in before && k in after ==>
        before[k].payload == after[k].payload))
    && (key in after ==> after[key].payload == payload || (key in before && after[key] == before[key]))
  }

  lemma AgreeAt(rows: Table, trace: seq<Event>, key: Key, legacy: Legacy)
    requires Inv(rows, trace, legacy)
    ensures key.kind.Broadcast? && key in rows && Sibling(key) in rows ==>
            rows[key].payload == rows[Sibling(key)].payload
  {
    hide Unresolved, Careful, Retained, Honest;
  }

  lemma Reporting(before: Table, after: Table, trace: seq<Event>, key: Key, payload: Payload, legacy: Legacy)
    requires Inv(before, trace, legacy) && (after == before || IsPut(before, after, key, payload))
    requires key.txIndex == payload.txIndex && key.kind == (if payload.Identity? then Broadcast else Receipt)
    requires payload.Identity? ==> Sibling(key) in before && before[Sibling(key)].payload == payload
    requires payload.Outcome? ==>
               Learned(trace, |trace| - 1, key.url, key.action, payload.txIndex, payload.confirmed)
    ensures Inv(after, trace, legacy) && ReportedOnly(before, after, key.url, key.action, payload)
  {
    AgreeAt(before, trace, key, legacy);
    hide Inv;
    if after != before {
      if payload.Identity? {
        PutIdentity(before, after, trace, key, payload, legacy);
      } else {
        PutOutcome(before, after, trace, key, payload, legacy);
      }
    }
  }

  lemma ReportDelivered(before: Table, mid: Table, trace: seq<Event>, key: Key, payload: Payload, legacy: Legacy)
    requires Inv(mid, trace, legacy) && ReportedOnly(before, mid, key.url, key.action, payload)
    requires key.txIndex == payload.txIndex && key.kind == (if payload.Identity? then Broadcast else Receipt)
    requires payload.Identity? ==> Sibling(key) in mid
    ensures Inv(mid - {key}, trace, legacy) && ReportedOnly(before, mid - {key}, key.url, key.action, payload)
  {
    hide Inv;
    Drop(mid, trace, key, legacy);
  }

  // ------------------------------------------------------- restart, then send

  datatype Tx = Tx(operation: string, sender: Option<string>, gasEstimate: Option<nat>, gasLimit: Option<nat>)

  /** One invocation: what to send, and what signer, control plane and chain will answer.
      Signing depends on the transaction's place in the list and on its nonce. */
  datatype Job = Job(
    url: string,
    action: string,
    sender: string,
    transactions: seq<Tx>,
    baseFee: Option<nat>,
    baseFeeCap: Option<nat>,
    firstNonce: nat,
    sign: (nat, nat) -> Option<string>,
    reply: Key -> Reply)

  /** A normal return with its records, or an exception or crash at any point. */
  datatype Exit = Returned(records: seq<Record>) | Stopped

  const FLUSH_LIMIT: nat := 100
  const RECONCILE_LIMIT: nat := 20

  /** Everything but submissions is as it was. */
  ghost predicate ReportsKept(before: Table, after: Table) {
    forall k: Key :: !k.kind.Submission? ==> (k in before <==> k in after) && (k in before ==> after[k] == before[k])
  }

  /** A listed broadcast report has its submission beside it. */
  predicate Upgraded(rows: Table, r: Report) {
    r.key.kind.Broadcast? ==> Sibling(r.key) in rows && rows[Sibling(r.key)].payload == r.entry.payload
  }

  /** Turn undelivered broadcast reports back into retained submissions: afterwards every
      listed one has its submission beside it. */
  method UpgradeBroadcasts(outbox: ActionReportOutbox, net: Network, url: string, ghost legacy: Legacy)
      returns (ok: bool, ghost list: seq<Report>)
    requires Inv(outbox.rows, net.trace, legacy)
    requires outbox.Valid()
    modifies outbox
    ensures outbox.Valid()
    ensures Inv(outbox.rows, net.trace, legacy) && ReportsKept(old(outbox.rows), outbox.rows)
    ensures PendingList(old(outbox.rows), Normalize(url), false, 100, list)
    ensures ok ==> forall r :: r in list ==> Upgraded(outbox.rows, r)
  {
    hide Unresolved, Inv, Normalize, PendingList, Upgraded, IsPut, UniqueIds;
    ghost var was := outbox.rows;
    var reports := outbox.PendingReports(url, false, FLUSH_LIMIT);
    list := reports;
    for i := 0 to |reports|
      invariant outbox.Valid() && Inv(outbox.rows, net.trace, legacy) && ReportsKept(was, outbox.rows)
      invariant forall j :: 0 <= j < i ==> Upgraded(outbox.rows, reports[j])
    {
      if * {
        return false, list;
      }
      var report := reports[i];
      ListedReport(was, Normalize(url), false, FLUSH_LIMIT, reports, i);
      if report.key.kind.Broadcast? {
        ghost var rows := outbox.rows;
        var queued := outbox.QueueSubmission(url, report.key.action, report.entry.payload);
        if outbox.rows != rows || queued {
          UpgradeOne(rows, outbox.rows, net.trace, report, legacy);
          forall j | 0 <= j < i ensures Upgraded(outbox.rows, reports[j]) {
            UpgradeKeeps(was, rows, outbox.rows, url, reports, i, j);
          }
        }
        if !queued {
          return false, list;
        }
      } else {
        OtherReport(outbox.rows, report);
      }
    }
    ok := true;
  }

  lemma OtherReport(rows: Table, r: Report)
    requires !r.key.kind.Broadcast?
    ensures Upgraded(rows, r)
  {
  }

  lemma ListedReport(rows: Table, url: string, submissions: bool, limit: nat, list: seq<Report>, i: nat)
    requires PendingList(rows, url, submissions, limit, list) && i < |list|
    ensures list[i].key in rows && rows[list[i].key] == list[i].entry && Listed(list[i].key, url, submissions)
    ensures list[i].key == Key(url, list[i].key.action, list[i].key.txIndex, list[i].key.kind)
    ensures forall j :: 0 <= j < i ==> list[j].key != list[i].key
  {
    hide Earlier, Selected;
    assert list[i] in list;
  }

  /** Upgrading one report leaves the others upgraded: their siblings differ. */
  lemma UpgradeKeeps(was: Table, rows: Table, after: Table, url: string, list: seq<Report>, i: nat, j: nat)
    requires PendingList(was, Normalize(url), false, FLUSH_LIMIT, list) && j < i < |list| && list[i].key.kind.Broadcast?
    requires Upgraded(rows, list[j])
    requires after.Keys == rows.Keys + {Sibling(list[i].key)}
    requires forall k :: k in rows && k != Sibling(list[i].key) ==> after[k] == rows[k]
    ensures Upgraded(after, list[j])
  {
    hide Normalize;
    ListedReport(was, Normalize(url), false, FLUSH_LIMIT, list, i);
    assert !list[j].key.kind.Broadcast? || Sibling(list[j].key) != Sibling(list[i].key);
  }

  lemma UpgradeOne(rows: Table, after: Table, trace: seq<Event>, report: Report, legacy: Legacy)
    requires Inv(rows, trace, legacy) && report.key in rows && rows[report.key] == report.entry
    requires report.key.kind.Broadcast?
    requires IsPut(rows, after, Key(report.key.url, report.key.action, report.entry.payload.txIndex,
                   Submission), report.entry.payload)
    ensures Inv(after, trace, legacy) && ReportsKept(rows, after) && Upgraded(after, report)
    ensures after.Keys == rows.Keys + {Sibling(report.key)}
    ensures forall k :: k in rows && k != Sibling(report.key) ==> after[k] == rows[k]
  {
    hide Unresolved, Careful, Retained, Honest;
    var key := Key(report.key.url, report.key.action, report.entry.payload.txIndex, Submission);
    assert key == Sibling(report.key) && key.(kind := Broadcast) == report.key;
    PutIdentity(rows, after, trace, key, report.entry.payload, legacy);
  }

  /** Nothing was signed or sent in between. */
  ghost predicate NothingSent(before: seq<Event>, after: seq<Event>) {
    before <= after && forall i :: |before| <= i < |after| ==> !after[i].Commits()
  }

  /** The listed submissions from `i` on are still stored. */
  ghost predicate StillStored(rows: Table, list: seq<Report>, i: nat) {
    forall j :: i <= j < |list| ==> list[j].key in rows && rows[list[j].key].payload == list[j].entry.payload
  }

  /** An outcome of this transaction was reported in between. */
  ghost predicate OutcomeReported(before: seq<Event>, after: seq<Event>, url: string, action: string, i: nat) {
    exists j :: |before| <= j < |after| && after[j].Reported? && after[j].url == url && after[j].action == action
                && after[j].payload.Outcome? && after[j].payload.txIndex == i
  }

  lemma ReportedStays(before: seq<Event>, mid: seq<Event>, after: seq<Event>, url: string, action: string, i: nat)
    requires OutcomeReported(before, mid, url, action, i) && mid <= after
    ensures OutcomeReported(before, after, url, action, i)
  {
  }

  lemma ReportedSince(before: seq<Event>, mid: seq<Event>, after: seq<Event>, url: string, action: string, i: nat)
    requires OutcomeReported(mid, after, url, action, i) && before <= mid
    ensures OutcomeReported(before, after, url, action, i)
  {
  }

  /** Every submission of before is still there, or was among the first `n` of the list and
      its outcome has been reported. */
  ghost predicate Accounted(was: Table, rows: Table, list: seq<Report>, n: nat, before: seq<Event>, after: seq<Event>) {
    forall k :: k in was && k.kind.Submission? ==>
      || k in rows
      || exists j :: 0 <= j < n && j < |list| && list[j].key == k
                     && OutcomeReported(before, after, k.url, k.action, k.txIndex)
  }

  lemma AccountedMore(was: Table, mid: Table, rows: Table, list: seq<Report>, n: nat, before: seq<Event>,
                      midway: seq<Event>, after: seq<Event>)
    requires n < |list| && before <= midway <= after
    requires Accounted(was, mid, list, n, before, midway)
    requires forall k :: k in mid && k.kind.Submission? && k != list[n].key ==> k in rows
    requires OutcomeReported(midway, after, list[n].key.url, list[n].key.action, list[n].key.txIndex)
    ensures Accounted(was, rows, list, n + 1, before, after)
  {
    hide OutcomeReported;
    ReportedSince(before, midway, after, list[n].key.url, list[n].key.action, list[n].key.txIndex);
    forall k | k in was && k.kind.Submission? && k !in rows
      ensures exists j :: 0 <= j < n + 1 && j < |list| && list[j].key == k
                          && OutcomeReported(before, after, k.url, k.action, k.txIndex)
    {
      if k in mid {
        assert list[n].key == k;
      } else {
        var j :| 0 <= j < n && j < |list| && list[j].key == k
                 && OutcomeReported(before, midway, k.url, k.action, k.txIndex);
        ReportedStays(before, midway, after, k.url, k.action, k.txIndex);
      }
    }
  }

  /** Look up every retained hash; go on only if nothing is left unresolved or unreported:
      then every submission found has had its outcome reported. */
  method ReconcileSavedSubmissions(outbox: ActionReportOutbox, net: Network, url: string, ghost legacy: Legacy)
      returns (ok: bool)
    requires Inv(outbox.rows, net.trace, legacy)
    requires outbox.Valid()
    modifies outbox, net
    ensures outbox.Valid()
    ensures Inv(outbox.rows, net.trace, legacy) && NothingSent(old(net.trace), net.trace)
    ensures ok ==> NoneOfKind(outbox.rows, Normalize(url), Submission)
    ensures ok ==> NoneOfKind(outbox.rows, Normalize(url), Broadcast)
    ensures ok ==> forall k :: k in old(outbox.rows) && k.kind.Submission? && k.url == Normalize(url) ==>
                     OutcomeReported(old(net.trace), net.trace, k.url, k.action, k.txIndex)
  {
    hide Unresolved, Inv, Normalize, PendingList, StillStored, Listed, ReportedOnly, NoneOfKind, OutcomeReported,
         Accounted;
    var reports := outbox.PendingReports(url, true, RECONCILE_LIMIT);
    AllStored(outbox.rows, Normalize(url), RECONCILE_LIMIT, reports);
    ghost var was, before := outbox.rows, net.trace;
    AllThere(was, reports, before);
    for i := 0 to |reports|
      invariant outbox.Valid() && Inv(outbox.rows, net.trace, legacy) && NothingSent(before, net.trace)
      invariant StillStored(outbox.rows, reports, i)
      invariant Accounted(was, outbox.rows, reports, i, before, net.trace)
    {
      ghost var rows, mid := outbox.rows, net.trace;
      ListedReport(was, Normalize(url), true, RECONCILE_LIMIT, reports, i);
      var resolved := ReconcileOne(outbox, net, url, reports, i, legacy);
      if !resolved {
        return false;
      }
      AccountedMore(was, rows, outbox.rows, reports, i, before, mid, net.trace);
    }
    var submissions := outbox.PendingCount(url, Some(Submission));
    var broadcasts := outbox.PendingCount(url, Some(Broadcast));
    if submissions > 0 || broadcasts > 0 {
      return false;
    }
    CountedNone(outbox.rows, Normalize(url), Submission);
    CountedNone(outbox.rows, Normalize(url), Broadcast);
    AllReported(was, outbox.rows, reports, before, net.trace, Normalize(url));
    ok := true;
  }

  lemma AllThere(rows: Table, list: seq<Report>, trace: seq<Event>)
    ensures Accounted(rows, rows, list, 0, trace, trace)
  {
  }

  lemma AllReported(was: Table, rows: Table, list: seq<Report>, before: seq<Event>, after: seq<Event>, url: string)
    requires Accounted(was, rows, list, |list|, before, after) && NoneOfKind(rows, url, Submission)
    ensures forall k :: k in was && k.kind.Submission? && k.url == url ==>
              OutcomeReported(before, after, k.url, k.action, k.txIndex)
  {
    hide OutcomeReported;
  }

  lemma AllStored(rows: Table, url: string, limit: nat, list: seq<Report>)
    requires PendingList(rows, url, true, limit, list)
    ensures StillStored(rows, list, 0)
    ensures forall i :: 0 <= i < |list| ==> list[i].key.kind.Submission? && list[i].key.url == url
    ensures forall i, j :: 0 <= i < j < |list| ==> list[i].key != list[j].key
  {
    hide Earlier, Selected;
    forall i | 0 <= i < |list|
      ensures list[i].key in rows && rows[list[i].key] == list[i].entry && Listed(list[i].key, url, true)
    {
      assert list[i] in list;
    }
  }

  lemma CountedNone(rows: Table, url: string, kind: Kind)
    requires |set k | k in rows && k.url == url && (Some(kind).None? || k.kind == Some(kind).value)| == 0
    ensures NoneOfKind(rows, url, kind)
  {
    var s := set k | k in rows && k.url == url && (Some(kind).None? || k.kind == Some(kind).value);
    forall k | k in rows && k.url == url ensures k.kind != kind {
      assert k !in s;
    }
  }

  /** One retained submission: report it again, look its receipt up, report that, let go. */
  method ReconcileOne(outbox: ActionReportOutbox, net: Network, url: string, reports: seq<Report>, i: nat,
                      ghost legacy: Legacy)
      returns (resolved: bool)
    requires Inv(outbox.rows, net.trace, legacy) && i < |reports| && StillStored(outbox.rows, reports, i)
    requires forall j :: 0 <= j < |reports| ==> reports[j].key.kind.Submission? && reports[j].key.url == Normalize(url)
    requires forall j, k :: 0 <= j < k < |reports| ==> reports[j].key != reports[k].key
    requires outbox.Valid()
    modifies outbox, net
    ensures outbox.Valid()
    ensures Inv(outbox.rows, net.trace, legacy) && NothingSent(old(net.trace), net.trace)
    ensures resolved ==> StillStored(outbox.rows, reports, i + 1)
    ensures forall k :: k in old(outbox.rows) && k.kind.Submission? && k != reports[i].key ==> k in outbox.rows
    ensures resolved ==> OutcomeReported(old(net.trace), net.trace, reports[i].key.url, reports[i].key.action,
                                         reports[i].key.txIndex)
  {
    hide Unresolved, Normalize, Agree, Retained, Careful, ReportedOnly, Honest;
    var key, identity := reports[i].key, reports[i].entry.payload;
    assert identity.Identity? && identity.txIndex == key.txIndex;
    assert key == Key(Normalize(url), key.action, identity.txIndex, Submission);
    hide Inv, StillStored, NothingSent, OutcomeReported;
    ghost var was, rows := net.trace, outbox.rows;
    var crashed, _, _ := SendActionReport(outbox, net, url, key.action, identity, legacy);
    StoredAfterReport(rows, outbox.rows, key.url, key.action, identity, reports, i);
    SubmissionsStay(rows, outbox.rows, key.url, key.action, identity);
    QuietStep(was, was, net.trace, Reported(Normalize(url), key.action, identity));
    if crashed {
      return false;
    }
    ghost var mid := net.trace;
    var answer := net.GetReceipt(Normalize(url), identity.hash);
    if !answer.Final() {
      return false;
    }
    var status := answer.value.value;
    SeenOne(outbox.rows, mid, Seen(Normalize(url), identity.hash, status), legacy);
    QuietStep(was, mid, net.trace, Seen(Normalize(url), identity.hash, status));
    if * {
      return false;
    }
    rows, mid := outbox.rows, net.trace;
    var outcome := Outcome(identity.txIndex, status == 1);
    var died, _, _ := SendActionReport(outbox, net, url, key.action, outcome, legacy);
    StoredAfterReport(rows, outbox.rows, key.url, key.action, outcome, reports, i);
    SubmissionsStay(rows, outbox.rows, key.url, key.action, outcome);
    QuietStep(was, mid, net.trace, Reported(Normalize(url), key.action, outcome));
    if died {
      return false;
    }
    ReportedLast(was, mid, Reported(Normalize(url), key.action, outcome));
    UnresolvedAppend(mid, Reported(Normalize(url), key.action, outcome), Normalize(url));
    LetGo(outbox.rows, net.trace, reports, i, legacy);
    resolved := outbox.MarkDelivered(url, key.action, identity.txIndex, Submission);
    if * {
      return false;
    }
  }

  lemma SubmissionsStay(before: Table, after: Table, url: string, action: string, payload: Payload)
    requires ReportedOnly(before, after, url, action, payload)
    ensures forall k :: k in before && k.kind.Submission? ==> k in after
  {
  }

  lemma ReportedLast(was: seq<Event>, mid: seq<Event>, e: Event)
    requires was <= mid && e.Reported? && e.payload.Outcome?
    ensures OutcomeReported(was, mid + [e], e.url, e.action, e.payload.txIndex)
  {
    assert (mid + [e])[|mid|] == e;
  }

  lemma QuietStep(was: seq<Event>, mid: seq<Event>, now: seq<Event>, e: Event)
    requires (was == mid || NothingSent(was, mid)) && !e.Commits() && (now == mid || now == mid + [e])
    ensures NothingSent(was, now)
  {
  }

  lemma SeenOne(rows: Table, trace: seq<Event>, e: Event, legacy: Legacy)
    requires Inv(rows, trace, legacy) && e.Seen?
    ensures Inv(rows, trace + [e], legacy) && e.hash !in Unresolved(trace + [e], e.url)
  {
    hide Inv;
    Happens(rows, trace, e, legacy);
    UnresolvedAppend(trace, e, e.url);
  }

  lemma StoredAfterReport(before: Table, after: Table, url: string, action: string, payload: Payload,
      list: seq<Report>, i: nat)
    requires StillStored(before, list, i) && ReportedOnly(before, after, url, action, payload)
    requires forall j :: 0 <= j < |list| ==> list[j].key.kind.Submission?
    ensures StillStored(after, list, i)
  {
  }

  lemma LetGo(rows: Table, trace: seq<Event>, list: seq<Report>, i: nat, legacy: Legacy)
    requires Inv(rows, trace, legacy) && i < |list| && StillStored(rows, list, i) && list[i].key.kind.Submission?
    requires list[i].entry.payload.Identity? && list[i].entry.payload.hash !in Unresolved(trace, list[i].key.url)
    requires forall j, k :: 0 <= j < k < |list| ==> list[j].key != list[k].key
    ensures Inv(rows - {list[i].key}, trace, legacy) && StillStored(rows - {list[i].key}, list, i + 1)
  {
    hide Inv, Unresolved;
    Drop(rows, trace, list[i].key, legacy);
  }

  // ------------------------------------------------------------ the send loop

  /** What the record of the `i`-th transaction says happened: signed, sent, reported, and
      if its receipt is known, seen with status 1 if confirmed and 0 if not, and reported. */
  function EventsOfOne(url: string, action: string, i: nat, r: Record): seq<Event> {
    [Signed(url, r.hash), Sent(url, r.hash), Reported(url, action, Identity(i, r.hash, r.nonce))]
    + if r.status.None? then []
      else [Seen(url, r.hash, if r.status == Some(Confirmed) then 1 else 0),
            Reported(url, action, Outcome(i, r.status == Some(Confirmed)))]
  }

  function EventsOf(url: string, action: string, records: seq<Record>): seq<Event> {
    if |records| == 0 then []
    else
      var n := |records| - 1;
      EventsOf(url, action, records[..n]) + EventsOfOne(url, action, n, records[n])
  }

  /** The record is of the `i`-th transaction, which names no other sender, under the hash
      it was signed to on that nonce. */
  predicate RecordOf(job: Job, i: nat, nonce: nat, r: Record) {
    && i < |job.transactions| && r.operation == job.transactions[i].operation && r.nonce == nonce
    && job.sign(i, nonce) == Some(r.hash)
    && (job.transactions[i].sender.Some? ==> job.transactions[i].sender.value == job.sender)
  }

  /** The records are the first transactions in order, on consecutive nonces. */
  ghost predicate RecordsOf(job: Job, records: seq<Record>) {
    && |records| <= |job.transactions|
    && forall i :: 0 <= i < |records| ==> RecordOf(job, i, job.firstNonce + i, records[i])
  }

  /** What happened in between is the start of what some record of this transaction says,
      or nothing. */
  ghost predicate StartedOne(before: seq<Event>, after: seq<Event>, job: Job, i: nat, nonce: nat) {
    && before <= after
    && (after == before
        || exists r :: RecordOf(job, i, nonce, r)
                       && after[|before|..] <= EventsOfOne(Normalize(job.url), job.action, i, r))
  }

  /** What happened in between is the start of what records of this job say of which all but
      the last are confirmed. */
  ghost predicate StartedAll(before: seq<Event>, after: seq<Event>, job: Job) {
    && before <= after
    && exists records :: RecordsOf(job, records) && AllButLastConfirmed(records)
                         && after[|before|..] <= EventsOf(Normalize(job.url), job.action, records)
  }

  ghost predicate AllButLastConfirmed(records: seq<Record>) {
    forall i :: 0 <= i < |records| - 1 ==> records[i].status == Some(Confirmed)
  }

  /** A hash was seen with status 1 exactly if its record is confirmed, with status 0 exactly
      if the record ended otherwise. */
  lemma {:induction false} SeenMeans(url: string, action: string, records: seq<Record>, hash: string, status: int)
    ensures Seen(url, hash, status) in EventsOf(url, action, records) <==>
            exists i :: 0 <= i < |records| && records[i].hash == hash && records[i].status.Some?
                        && status == if records[i].status == Some(Confirmed) then 1 else 0
  {
    if |records| > 0 {
      var n := |records| - 1;
      SeenMeans(url, action, records[..n], hash, status);
      hide EventsOf;
      MoreEvents(url, action, records);
      SeenInOne(url, action, n, records[n], hash, status);
    }
  }

  lemma MoreEvents(url: string, action: string, records: seq<Record>)
    requires |records| > 0
    ensures var n := |records| - 1;
            EventsOf(url, action, records)
            == EventsOf(url, action, records[..n]) + EventsOfOne(url, action, n, records[n])
  {
  }

  lemma SeenInOne(url: string, action: string, i: nat, r: Record, hash: string, status: int)
    ensures Seen(url, hash, status) in EventsOfOne(url, action, i, r) <==>
            r.hash == hash && r.status.Some? && status == if r.status == Some(Confirmed) then 1 else 0
  {
    if r.status.Some? {
      assert EventsOfOne(url, action, i, r)[3] == Seen(url, r.hash, if r.status == Some(Confirmed) then 1 else 0);
    }
  }

  /** Nothing is signed or sent after a receipt with a status other than 1. */
  ghost predicate NoneAfterRevert(events: seq<Event>) {
    forall a, b :: 0 <= a < b < |events| && events[a].Seen? && events[a].status != 1 ==> !events[b].Commits()
  }

  lemma ConfirmedSeen(url: string, action: string, records: seq<Record>)
    requires forall i :: 0 <= i < |records| ==> records[i].status == Some(Confirmed)
    ensures forall e :: e in EventsOf(url, action, records) && e.Seen? ==> e.status == 1
    decreases |records|
  {
    if |records| > 0 {
      ConfirmedSeen(url, action, records[..|records| - 1]);
    }
  }

  /** However a job's sending ends, it stops at the first transaction that reverts. */
  lemma StopsAtRevert(before: seq<Event>, after: seq<Event>, job: Job)
    requires StartedAll(before, after, job)
    ensures before <= after && NoneAfterRevert(after[|before|..])
  {
    hide RecordsOf, EventsOf, Normalize;
    var records :| RecordsOf(job, records) && AllButLastConfirmed(records)
                   && after[|before|..] <= EventsOf(Normalize(job.url), job.action, records);
    OrderedEvents(Normalize(job.url), job.action, records);
  }

  lemma SeenLate(events: seq<Event>, init: seq<Event>, a: nat)
    requires init <= events && a < |events| && events[a].Seen? && events[a].status != 1
    requires forall i :: 0 <= i < |init| && init[i].Seen? ==> init[i].status == 1
    ensures a >= |init|
  {
  }

  lemma OrderedEvents(url: string, action: string, records: seq<Record>)
    requires AllButLastConfirmed(records)
    ensures NoneAfterRevert(EventsOf(url, action, records))
  {
    if |records| > 0 {
      var n := |records| - 1;
      ConfirmedSeen(url, action, records[..n]);
      MoreEvents(url, action, records);
      hide EventsOf;
      var events, init := EventsOf(url, action, records), EventsOf(url, action, records[..n]);
      forall i | 0 <= i < |init| && init[i].Seen? ensures init[i].status == 1 {
        assert init[i] in init;
      }
      forall a, b | 0 <= a < b < |events| && events[a].Seen? && events[a].status != 1 ensures !events[b].Commits() {
        SeenLate(events, init, a);
      }
    }
  }

  /** Reports of this run only, about transactions before the `i`-th. */
  ghost predicate OwnBroadcasts(rows: Table, url: string, action: string, i: nat) {
    forall k :: k in rows && k.url == url && k.kind.Broadcast? ==> k.action == action && k.txIndex < i
  }

  /** The state between two transactions: nothing retained, nothing unresolved. */
  ghost predicate Settled(rows: Table, trace: seq<Event>, url: string, action: string, i: nat, legacy: Legacy) {
    && Inv(rows, trace, legacy) && NoneOfKind(rows, url, Submission)
    && OwnBroadcasts(rows, url, action, i) && Unresolved(trace, url) == {}
  }

  /** The state while the `i`-th transaction is out. */
  ghost predicate InFlight(rows: Table, trace: seq<Event>, url: string, action: string, i: nat, payload: Payload,
                           legacy: Legacy) {
    && Inv(rows, trace, legacy) && OwnBroadcasts(rows, url, action, i + 1)
    && payload.Identity? && payload.txIndex == i && Unresolved(trace, url) <= {payload.hash}
    && Key(url, action, i, Submission) in rows && rows[Key(url, action, i, Submission)].payload == payload
    && (forall k :: k in rows && k.url == url && k.kind.Submission? ==> k == Key(url, action, i, Submission))
  }

  lemma SignNext(rows: Table, trace: seq<Event>, url: string, action: string, i: nat, hash: string, legacy: Legacy)
    requires Settled(rows, trace, url, action, i, legacy)
    ensures Settled(rows, trace + [Signed(url, hash)], url, action, i, legacy)
  {
    hide Inv, Unresolved, NoneOfKind, OwnBroadcasts;
    UnresolvedAppend(trace, Signed(url, hash), url);
    Happens(rows, trace, Signed(url, hash), legacy);
  }

  lemma RetainNext(rows: Table, after: Table, trace: seq<Event>, url: string, action: string, i: nat,
                   payload: Payload, legacy: Legacy)
    requires Settled(rows, trace, url, action, i, legacy) && payload.Identity? && payload.txIndex == i
    requires IsPut(rows, after, Key(url, action, i, Submission), payload)
    ensures InFlight(after, trace, url, action, i, payload, legacy) && Unresolved(trace, url) == {}
  {
    hide Unresolved, Careful, Retained, Honest;
    var key := Key(url, action, i, Submission);
    assert Sibling(key) == key;
    PutIdentity(rows, after, trace, key, payload, legacy);
  }

  lemma SendNext(rows: Table, trace: seq<Event>, url: string, action: string, i: nat, payload: Payload, legacy: Legacy)
    requires InFlight(rows, trace, url, action, i, payload, legacy) && Unresolved(trace, url) == {}
    ensures InFlight(rows, trace + [Sent(url, payload.hash)], url, action, i, payload, legacy)
  {
    hide Inv, Unresolved, OwnBroadcasts;
    assert Names(rows, url, payload.hash, Submission);
    UnresolvedAppend(trace, Sent(url, payload.hash), url);
    Happens(rows, trace, Sent(url, payload.hash), legacy);
  }

  lemma ReportNext(before: Table, after: Table, trace: seq<Event>, url: string, action: string, i: nat,
      payload: Payload, report: Payload, legacy: Legacy)
    requires InFlight(before, trace, url, action, i, payload, legacy)
    requires Inv(after, trace + [Reported(url, action, report)], legacy)
    requires report.txIndex == i && ReportedOnly(before, after, url, action, report)
    ensures InFlight(after, trace + [Reported(url, action, report)], url, action, i, payload, legacy)
    ensures Unresolved(trace + [Reported(url, action, report)], url) == Unresolved(trace, url)
  {
    hide Inv;
    UnresolvedAppend(trace, Reported(url, action, report), url);
  }

  lemma SeeNext(rows: Table, trace: seq<Event>, url: string, action: string, i: nat, payload: Payload, status: int,
                legacy: Legacy)
    requires InFlight(rows, trace, url, action, i, payload, legacy)
    ensures InFlight(rows, trace + [Seen(url, payload.hash, status)], url, action, i, payload, legacy)
    ensures payload.hash !in Unresolved(trace + [Seen(url, payload.hash, status)], url)
  {
    hide Inv, Unresolved, OwnBroadcasts;
    UnresolvedAppend(trace, Seen(url, payload.hash, status), url);
    SeenOne(rows, trace, Seen(url, payload.hash, status), legacy);
  }

  lemma ForgetNext(rows: Table, trace: seq<Event>, url: string, action: string, i: nat, payload: Payload,
                   legacy: Legacy)
    requires InFlight(rows, trace, url, action, i, payload, legacy) && payload.hash !in Unresolved(trace, url)
    ensures Settled(rows - {Key(url, action, i, Submission)}, trace, url, action, i + 1, legacy)
  {
    hide Inv, Unresolved;
    Drop(rows, trace, Key(url, action, i, Submission), legacy);
  }

  /** How one transaction ended: with a final receipt, without one, or not at all. */
  datatype Sending = Done(record: Record) | Unknown(record: Record) | Interrupted

  /** Sign, retain the identity, send, report, wait for the receipt, report, let go. */
  method SendOne(outbox: ActionReportOutbox, net: Network, job: Job, i: nat, nonce: nat, ghost legacy: Legacy)
      returns (sent: Sending)
    requires i < |job.transactions| && Settled(outbox.rows, net.trace, Normalize(job.url), job.action, i, legacy)
    requires outbox.Valid()
    modifies outbox, net
    ensures outbox.Valid()
    ensures Inv(outbox.rows, net.trace, legacy)
    ensures !sent.Interrupted? ==> RecordOf(job, i, nonce, sent.record)
    ensures StartedOne(old(net.trace), net.trace, job, i, nonce)
    ensures sent.Done? ==>
              && Settled(outbox.rows, net.trace, Normalize(job.url), job.action, i + 1, legacy)
              && (sent.record.status == Some(Confirmed) || sent.record.status == Some(Reverted))
    ensures sent.Unknown? ==> sent.record.status.None?
    ensures !sent.Interrupted? ==>
             net.trace == old(net.trace) + EventsOfOne(Normalize(job.url), job.action, i, sent.record)
  {
    hide Inv, Unresolved, Normalize, InFlight, IsPut, ReportedOnly, Settled, UniqueIds, StartedOne;
    NotStarted(net.trace, job, i, nonce);
    SettledSafe(outbox.rows, net.trace, Normalize(job.url), job.action, i, legacy);
    var url, action, tx := Normalize(job.url), job.action, job.transactions[i];
    if tx.sender.GetOr(job.sender) != job.sender {
      return Interrupted;
    }
    if tx.gasLimit.None? {
      if * {
        return Interrupted;
      }
    }
    var signed := job.sign(i, nonce);
    ghost var trace := net.trace;
    net.Sign(url, signed);
    if signed.None? {
      return Interrupted;
    }
    SignNext(outbox.rows, trace, url, action, i, signed.value, legacy);
    ghost var record := Record(tx.operation, signed.value, nonce, None);
    Started(trace, net.trace, job, i, nonce, record);
    SettledSafe(outbox.rows, net.trace, url, action, i, legacy);
    if * {
      return Interrupted;
    }
    var identity := Identity(i, signed.value, nonce);
    ghost var rows := outbox.rows;
    var queued := outbox.QueueSubmission(job.url, action, identity);
    if outbox.rows != rows || queued {
      RetainNext(rows, outbox.rows, net.trace, url, action, i, identity, legacy);
      FlightSafe(outbox.rows, net.trace, url, action, i, identity, legacy);
    }
    if !queued {
      return Interrupted;
    }
    if * {
      return Interrupted;
    }
    SendNext(outbox.rows, net.trace, url, action, i, identity, legacy);
    var _ := net.SendRaw(url, identity.hash);
    Started(trace, net.trace, job, i, nonce, record);
    FlightSafe(outbox.rows, net.trace, url, action, i, identity, legacy);
    if * {
      return Interrupted;
    }
    ghost var mid := net.trace;
    sent := AwaitOne(outbox, net, job, i, identity, legacy);
    ghost var r :| AfterSend(mid, net.trace, job, i, identity, r);
    assert net.trace[|trace|..] == [Signed(url, r.hash), Sent(url, r.hash)] + net.trace[|mid|..];
    Started(trace, net.trace, job, i, nonce, r);
  }

  /** What happened since the send is the start of what this record says of the time after
      it. */
  ghost predicate AfterSend(before: seq<Event>, after: seq<Event>, job: Job, i: nat, identity: Payload, r: Record)
    requires identity.Identity? && i < |job.transactions|
  {
    && r.operation == job.transactions[i].operation && r.hash == identity.hash && r.nonce == identity.nonce
    && before <= after
    && [Signed(Normalize(job.url), r.hash), Sent(Normalize(job.url), r.hash)] + after[|before|..]
       <= EventsOfOne(Normalize(job.url), job.action, i, r)
  }

  lemma NotStarted(trace: seq<Event>, job: Job, i: nat, nonce: nat)
    ensures StartedOne(trace, trace, job, i, nonce)
  {
  }

  lemma Started(before: seq<Event>, after: seq<Event>, job: Job, i: nat, nonce: nat, r: Record)
    requires before <= after && RecordOf(job, i, nonce, r)
    requires after[|before|..] <= EventsOfOne(Normalize(job.url), job.action, i, r)
    ensures StartedOne(before, after, job, i, nonce)
  {
  }

  lemma FlightSafe(rows: Table, trace: seq<Event>, url: string, action: string, i: nat, payload: Payload,
                   legacy: Legacy)
    requires InFlight(rows, trace, url, action, i, payload, legacy)
    ensures Inv(rows, trace, legacy) && Key(url, action, i, Submission) in rows
             && rows[Key(url, action, i, Submission)].payload == payload
  {
    hide Inv;
  }

  /** After the send: report it, wait for the receipt, report that, drop the identity. */
  method AwaitOne(outbox: ActionReportOutbox, net: Network, job: Job, i: nat, identity: Payload, ghost legacy: Legacy)
      returns (sent: Sending)
    requires i < |job.transactions|
    requires InFlight(outbox.rows, net.trace, Normalize(job.url), job.action, i, identity, legacy)
    requires identity.Identity? && identity.txIndex == i
    requires outbox.Valid()
    modifies outbox, net
    ensures outbox.Valid()
    ensures Inv(outbox.rows, net.trace, legacy)
    ensures !sent.Interrupted? ==>
              && sent.record.operation == job.transactions[i].operation
              && sent.record.nonce == identity.nonce && sent.record.hash == identity.hash
    ensures sent.Done? ==>
              && Settled(outbox.rows, net.trace, Normalize(job.url), job.action, i + 1, legacy)
              && (sent.record.status == Some(Confirmed) || sent.record.status == Some(Reverted))
    ensures sent.Unknown? ==> sent.record.status.None?
    ensures old(net.trace) <= net.trace
    ensures exists r :: AfterSend(old(net.trace), net.trace, job, i, identity, r)
    ensures !sent.Interrupted? ==>
              [Signed(Normalize(job.url), identity.hash), Sent(Normalize(job.url), identity.hash)]
              + net.trace[|old(net.trace)|..]
              == EventsOfOne(Normalize(job.url), job.action, i, sent.record)
  {
    hide Inv, Unresolved, Normalize, InFlight, ReportedOnly, Settled;
    var url, action := Normalize(job.url), job.action;
    ghost var rows := outbox.rows;
    FlightSafe(outbox.rows, net.trace, url, action, i, identity, legacy);
    ghost var start := net.trace;
    var record := Record(job.transactions[i].operation, identity.hash, identity.nonce, None);
    var crashed, _, _ := SendActionReport(outbox, net, job.url, action, identity, legacy);
    assert AfterSend(start, net.trace, job, i, identity, record);
    if crashed {
      return Interrupted;
    }
    ReportNext(rows, outbox.rows, start, url, action, i, identity, identity, legacy);
    ghost var trace := net.trace;
    var answer := net.GetReceipt(url, identity.hash);
    if !answer.Final() {
      return Unknown(record);
    }
    var status := answer.value.value;
    SeeNext(outbox.rows, trace, url, action, i, identity, status, legacy);
    FlightSafe(outbox.rows, net.trace, url, action, i, identity, legacy);
    var confirmed := status == 1;
    var ended := record.(status := Some(if confirmed then Confirmed else Reverted));
    assert AfterSend(start, net.trace, job, i, identity, ended);
    if * {
      return Interrupted;
    }
    rows, trace := outbox.rows, net.trace;
    var died, _, _ := SendActionReport(outbox, net, job.url, action, Outcome(i, confirmed), legacy);
    assert AfterSend(start, net.trace, job, i, identity, ended);
    if died {
      return Interrupted;
    }
    ReportNext(rows, outbox.rows, trace, url, action, i, identity, Outcome(i, confirmed), legacy);
    ForgetNext(outbox.rows, net.trace, url, action, i, identity, legacy);
    SettledSafe(outbox.rows - {Key(url, action, i, Submission)}, net.trace, url, action, i + 1, legacy);
    var forgotten := outbox.MarkDelivered(job.url, action, i, Submission);
    if !forgotten {
      return Interrupted;
    }
    if * {
      return Interrupted;
    }
    sent := Done(ended);
  }

  lemma SettledSafe(rows: Table, trace: seq<Event>, url: string, action: string, i: nat, legacy: Legacy)
    requires Settled(rows, trace, url, action, i, legacy)
    ensures Inv(rows, trace, legacy)
  {
    hide Inv;
  }

  /** Send the transactions in order, stopping at the first that is not confirmed. */
  method SendAll(outbox: ActionReportOutbox, net: Network, job: Job, ghost legacy: Legacy) returns (exit: Exit)
    requires Settled(outbox.rows, net.trace, Normalize(job.url), job.action, 0, legacy)
    requires outbox.Valid()
    modifies outbox, net
    ensures outbox.Valid()
    ensures Inv(outbox.rows, net.trace, legacy)
    ensures exit.Returned? ==>
              && RecordsOf(job, exit.records) && StoppedEarly(exit.records, |job.transactions|)
              && net.trace == old(net.trace) + EventsOf(Normalize(job.url), job.action, exit.records)
    ensures StartedAll(old(net.trace), net.trace, job)
  {
    hide Inv, Settled, Normalize, EventsOf, EventsOfOne, StartedOne, StartedAll;
    var results: seq<Record>, nonce := [], job.firstNonce;
    ghost var url, before := Normalize(job.url), net.trace;
    NoEvents(url, job.action);
    SettledSafe(outbox.rows, net.trace, url, job.action, 0, legacy);
    for i := 0 to |job.transactions|
      invariant outbox.Valid() && Settled(outbox.rows, net.trace, url, job.action, i, legacy)
      invariant Inv(outbox.rows, net.trace, legacy)
      invariant |results| == i && nonce == job.firstNonce + i && RecordsOf(job, results)
      invariant forall j :: 0 <= j < i ==> IsConfirmed(results[j])
      invariant net.trace == before + EventsOf(url, job.action, results)
    {
      ghost var mid := net.trace;
      var sent := SendOne(outbox, net, job, i, nonce, legacy);
      if sent.Interrupted? {
        StartedMore(before, mid, net.trace, job, results);
        return Stopped;
      }
      OneMoreEvent(url, job.action, results, sent.record);
      results := results + [sent.record];
      AllStarted(before, net.trace, job, results);
      if sent.Unknown? || !IsConfirmed(sent.record) {
        return Returned(results);
      }
      nonce := nonce + 1;
    }
    AllStarted(before, net.trace, job, results);
    exit := Returned(results);
  }

  lemma AllStarted(before: seq<Event>, after: seq<Event>, job: Job, records: seq<Record>)
    requires RecordsOf(job, records) && AllButLastConfirmed(records)
    requires after == before + EventsOf(Normalize(job.url), job.action, records)
    ensures StartedAll(before, after, job)
  {
    hide EventsOf, RecordsOf;
    assert after[|before|..] == EventsOf(Normalize(job.url), job.action, records);
  }

  lemma StartedMore(before: seq<Event>, mid: seq<Event>, after: seq<Event>, job: Job, records: seq<Record>)
    requires RecordsOf(job, records) && forall i :: 0 <= i < |records| ==> IsConfirmed(records[i])
    requires mid == before + EventsOf(Normalize(job.url), job.action, records)
    requires StartedOne(mid, after, job, |records|, job.firstNonce + |records|)
    ensures StartedAll(before, after, job)
  {
    hide EventsOf, EventsOfOne, Normalize;
    if after == mid {
      AllStarted(before, after, job, records);
    } else {
      var url := Normalize(job.url);
      var r :| RecordOf(job, |records|, job.firstNonce + |records|, r)
               && after[|mid|..] <= EventsOfOne(url, job.action, |records|, r);
      OneMoreEvent(url, job.action, records, r);
      assert after[|before|..] == EventsOf(url, job.action, records) + after[|mid|..];
      assert RecordsOf(job, records + [r]) && AllButLastConfirmed(records + [r]);
    }
  }

  lemma NoEvents(url: string, action: string)
    ensures EventsOf(url, action, []) == []
  {
  }

  lemma OneMoreEvent(url: string, action: string, records: seq<Record>, r: Record)
    ensures EventsOf(url, action, records + [r]) ==
            EventsOf(url, action, records) + EventsOfOne(url, action, |records|, r)
  {
    assert (records + [r])[..|records|] == records;
  }

  /** The gas limit prepared for a transaction covers its estimate, when both are known. */
  predicate GasLimitsValid(transactions: seq<Tx>) {
    forall tx :: tx in transactions && tx.gasEstimate.Some? && tx.gasLimit.Some? ==>
        tx.gasLimit.value >= tx.gasEstimate.value
  }

  /** A whole invocation. It signs nothing before every hash left by earlier invocations is
      accounted for, and nothing at all if a prepared gas limit is too low or the base fee is
      above its cap or unknown under one. However it ends, it sends the transactions in order
      and stops at the first that does not confirm; on a normal return its records are what
      happened. */
  method BroadcastPreparedAction(outbox: ActionReportOutbox, net: Network, job: Job, ghost legacy: Legacy)
      returns (exit: Exit)
    requires Inv(outbox.rows, net.trace, legacy)
    requires outbox.Valid()
    modifies outbox, net
    ensures outbox.Valid()
    ensures Inv(outbox.rows, net.trace, legacy)
    ensures exit.Returned? ==> RecordsOf(job, exit.records) && StoppedEarly(exit.records, |job.transactions|)
    ensures exit.Returned? ==> exists found ::
              NothingSent(old(net.trace), found)
                  && net.trace == found + EventsOf(Normalize(job.url), job.action, exit.records)
    ensures NothingSent(old(net.trace), net.trace)
            || exists found :: NothingSent(old(net.trace), found) && StartedAll(found, net.trace, job)
    ensures !NothingSent(old(net.trace), net.trace) ==>
              && (job.baseFeeCap.Some? ==> job.baseFee.Some? && job.baseFee.value <= job.baseFeeCap.value)
              && forall tx :: tx in job.transactions && tx.gasEstimate.Some? && tx.gasLimit.Some? ==>
                   tx.gasEstimate.value <= tx.gasLimit.value
  {
    NothingSentYet(net.trace);
    hide StartedAll;
    hide Inv, Normalize, PendingList, Reach, TakenKeys, Removed, EventsOf, NothingSent, UniqueIds, KeysOf, Upgraded,
         ReportsKept, OnlyDelivered, BroadcastsSafe;
    if !GasLimitsValid(job.transactions) {
      return Stopped;
    }
    ghost var was := outbox.rows;
    var upgraded, upgrades := UpgradeBroadcasts(outbox, net, job.url, legacy);
    if !upgraded {
      return Stopped;
    }
    ghost var rows := outbox.rows;
    var _, flushed, flushes := outbox.FlushPending(job.url, FLUSH_LIMIT, job.reply);
    FlushSafe(was, rows, outbox.rows, Normalize(job.url), upgrades, flushes);
    Flushed(rows, outbox.rows, net.trace, Normalize(job.url), legacy);
    if !flushed {
      return Stopped;
    }
    if * {
      return Stopped;
    }
    var reconciled := ReconcileSavedSubmissions(outbox, net, job.url, legacy);
    if !reconciled {
      return Stopped;
    }
    if job.baseFeeCap.Some? && (job.baseFee.None? || job.baseFee.value > job.baseFeeCap.value) {
      return Stopped;
    }
    if * {
      return Stopped;
    }
    StartsSettled(outbox.rows, net.trace, Normalize(job.url), job.action, legacy);
    exit := SendAll(outbox, net, job, legacy);
  }

  lemma NothingSentYet(trace: seq<Event>)
    ensures NothingSent(trace, trace)
  {
  }

  /** What the flush drops was upgraded just before: both list the same reports. */
  lemma FlushSafe(was: Table, rows: Table, after: Table, url: string, upgrades: seq<Report>, flushes: seq<Report>)
    requires UniqueIds(was) && ReportsKept(was, rows) && OnlyDelivered(rows, after, url)
    requires PendingList(was, url, false, FLUSH_LIMIT, upgrades) && PendingList(rows, url, false, FLUSH_LIMIT, flushes)
    requires forall r :: r in upgrades ==> Upgraded(rows, r)
    requires forall k :: k in rows && k !in after ==> k in KeysOf(flushes)
    ensures BroadcastsSafe(rows, after)
  {
    PendingUnique(was, rows, url, false, FLUSH_LIMIT, upgrades, flushes);
    hide PendingList, UniqueIds;
    forall k | k in rows && k !in after && k.kind.Broadcast? ensures Sibling(k) in after {
      assert k in KeysOf(upgrades);
      var r :| r in upgrades && r.key == k;
      assert Upgraded(rows, r);
    }
  }

  lemma StartsSettled(rows: Table, trace: seq<Event>, url: string, action: string, legacy: Legacy)
    requires Inv(rows, trace, legacy) && NoneOfKind(rows, url, Submission) && NoneOfKind(rows, url, Broadcast)
    ensures Settled(rows, trace, url, action, 0, legacy)
  {
    NothingKept(rows, trace, url, legacy);
    hide Inv;
  }

  /** Any number of invocations, each ending normally, in an exception or in a crash, from
      an outbox left by earlier ones. At the end of each, and hence at every moment of the
      trace, every unresolved hash is retained, nothing was signed or sent beside an
      unresolved hash, and no URL has two; and every outcome reported, or queued since, is
      the one a receipt gave. The outbox may hold hashes an older client kept only as
      undelivered broadcast reports: they are as safe as the others. */
  method RunFrom(start: Table, nextId: int, past: seq<Event>, jobs: seq<Job>, broadcasts: bool)
      returns (rows: Table, trace: seq<Event>)
    requires Inv(start, past, Legacy(broadcasts, start, |past|)) && UniqueIds(start)
    requires forall k :: k in start ==> start[k].id < nextId
    ensures Retained(rows, trace, Legacy(broadcasts, start, |past|)) && Careful(trace)
    ensures forall url, n :: 0 <= n <= |trace| ==> |Unresolved(trace[..n], url)| <= 1
    ensures ReportsTrue(trace, |past|) && QueuedTrue(rows, trace, start)
  {
    var outbox := new ActionReportOutbox.Opened(start, nextId);
    var net := new Network(past);
    ghost var legacy := Legacy(broadcasts, start, |past|);
    for i := 0 to |jobs|
      invariant outbox.Valid() && Inv(outbox.rows, net.trace, legacy)
    {
      hide Inv;
      var _ := BroadcastPreparedAction(outbox, net, jobs[i], legacy);
    }
    rows, trace := outbox.rows, net.trace;
    forall url, n | 0 <= n <= |trace| ensures |Unresolved(trace[..n], url)| <= 1 {
      AtMostOneUnresolved(trace, url, n);
    }
  }

  /** From an empty outbox every unresolved hash has a submission row, and every outcome ever
      reported or queued is the one a receipt gave. */
  method RunJobs(jobs: seq<Job>) returns (rows: Table, trace: seq<Event>)
    ensures forall url, hash :: hash in Unresolved(trace, url) ==> Names(rows, url, hash, Submission)
    ensures Careful(trace)
    ensures forall url, n :: 0 <= n <= |trace| ==> |Unresolved(trace[..n], url)| <= 1
    ensures ReportsTrue(trace, 0) && QueuedTrue(rows, trace, map[])
  {
    NothingYet();
    rows, trace := RunFrom(map[], 1, [], jobs, false);
  }

  lemma NothingYet()
    ensures Inv(map[], [], Legacy(false, map[], 0))
  {
  }
}
