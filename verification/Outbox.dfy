/** The durable operator-side report queue (tidal/control_plane/outbox.py). */
module Outbox {
  import opened Common

  datatype Kind = Broadcast | Receipt | Submission

  /** A row's identity: the table holds at most one row per key. */
  datatype Key = Key(url: string, action: string, txIndex: nat, kind: Kind)

  /** What a report says: which transaction was sent, or how it ended. */
  datatype Payload =
    | Identity(txIndex: nat, hash: string, nonce: nat)
    | Outcome(txIndex: nat, confirmed: bool)

  datatype Entry = Entry(id: int, payload: Payload, attempts: nat, failed: bool, createdAt: int)

  type Table = map<Key, Entry>

  datatype Report = Report(key: Key, entry: Entry)

  /** The base URL without its trailing slashes. */
  function Normalize(url: string): string {
    if |url| > 0 && url[|url| - 1] == '/' then Normalize(url[..|url| - 1]) else url
  }

  /** What is left is the URL up to its trailing slashes: two base URLs share their reports
      exactly if they differ in those only. */
  lemma {:induction false} NormalizeMeans(url: string)
    ensures var n := Normalize(url);
            && n <= url && (n != [] ==> n[|n| - 1] != '/')
            && forall i :: |n| <= i < |url| ==> url[i] == '/'
  {
    if |url| > 0 && url[|url| - 1] == '/' {
      NormalizeMeans(url[..|url| - 1]);
    }
  }

  // ----------------------------------------------------- table operations

  /** Insert, or replace the payload and keep the row's age and attempts. */
  function Put(rows: Table, key: Key, payload: Payload, id: int, now: int): (after: Table)
    ensures after.Keys == rows.Keys + {key}
  {
    if key in rows then rows[key := rows[key].(payload := payload, failed := false)]
    else rows[key := Entry(id, payload, 0, false, now)]
  }

  function FailById(rows: Table, id: int): Table {
    map k | k in rows ::
      if rows[k].id == id then rows[k].(attempts := rows[k].attempts + 1, failed := true) else rows[k]
  }

  /** The rows a pending list selects from: submissions, or everything else. */
  predicate Listed(k: Key, url: string, submissions: bool) {
    k.url == url && (k.kind.Submission? <==> submissions)
  }

  function Selected(rows: Table, url: string, submissions: bool): set<Key> {
    set k | k in rows && Listed(k, url, submissions)
  }

  predicate Earlier(a: Entry, b: Entry) {
    a.createdAt < b.createdAt || (a.createdAt == b.createdAt && a.id <= b.id)
  }

  /** The oldest of the selected rows, oldest first, up to the limit. */
  ghost predicate PendingList(rows: Table, url: string, submissions: bool, limit: nat, list: seq<Report>) {
    && |list| == Min(limit, |Selected(rows, url, submissions)|)
    && (forall r :: r in list ==> r.key in rows && rows[r.key] == r.entry && Listed(r.key, url, submissions))
    && (forall i, j :: 0 <= i < j < |list| ==> list[i].key != list[j].key && Earlier(list[i].entry, list[j].entry))
    && (forall k, r :: k in Selected(rows, url, submissions) - KeysOf(list) && r in list ==> Earlier(r.entry, rows[k]))
  }

  function KeysOf(list: seq<Report>): set<Key> {
    set r | r in list :: r.key
  }

  /** No row has this id yet. */
  ghost predicate Unused(rows: Table, id: int) {
    forall k :: k in rows ==> rows[k].id != id
  }

  /** Ids tell rows apart. */
  ghost predicate UniqueIds(rows: Table) {
    forall j, k :: j in rows && k in rows && rows[j].id == rows[k].id ==> j == k
  }

  /** The table after an upsert at some time, under a new id if the row is new. */
  ghost predicate IsPut(before: Table, after: Table, key: Key, payload: Payload) {
    exists id, now :: Unused(before, id) && after == Put(before, key, payload, id, now)
  }

  lemma ListKeys(list: seq<Report>)
    requires forall i, j :: 0 <= i < j < |list| ==> list[i].key != list[j].key
    ensures |KeysOf(list)| == |list|
  {
    if |list| > 0 {
      var n := |list| - 1;
      ListKeys(list[..n]);
      assert list == list[..n] + [list[n]];
      assert KeysOf(list) == KeysOf(list[..n]) + {list[n].key};
      assert list[n].key !in KeysOf(list[..n]);
    }
  }

  lemma ListFacts(rows: Table, url: string, submissions: bool, limit: nat, list: seq<Report>)
    requires PendingList(rows, url, submissions, limit, list)
    ensures |KeysOf(list)| == |list| == Min(limit, |Selected(rows, url, submissions)|)
    ensures KeysOf(list) <= Selected(rows, url, submissions)
    ensures forall k, j :: k in Selected(rows, url, submissions) - KeysOf(list) && j in KeysOf(list) ==>
              j in rows && Earlier(rows[j], rows[k])
  {
    hide Earlier;
    ListKeys(list);
  }

  /** Two tables that agree on what is listed give the same pending keys. */
  lemma PendingUnique(rows: Table, after: Table, url: string, submissions: bool, limit: nat, a: seq<Report>,
                      b: seq<Report>)
    requires PendingList(rows, url, submissions, limit, a) && PendingList(after, url, submissions, limit, b)
    requires UniqueIds(rows) && forall k: Key :: Listed(k, url, submissions) ==>
             (k in rows <==> k in after) && (k in rows ==> after[k] == rows[k])
    ensures KeysOf(a) == KeysOf(b)
  {
    ListFacts(rows, url, submissions, limit, a);
    ListFacts(after, url, submissions, limit, b);
    assert Selected(rows, url, submissions) == Selected(after, url, submissions);
    PendingWithin(rows, KeysOf(a), KeysOf(b), Selected(rows, url, submissions));
    PendingWithin(rows, KeysOf(b), KeysOf(a), Selected(rows, url, submissions));
  }

  /** One of two equally many oldest keys is among the other. */
  lemma PendingWithin(rows: Table, a: set<Key>, b: set<Key>, all: set<Key>)
    requires |a| == |b| && a <= all && b <= all && all <= rows.Keys && UniqueIds(rows)
    requires forall k, j :: k in all - a && j in a ==> Earlier(rows[j], rows[k])
    requires forall k, j :: k in all - b && j in b ==> Earlier(rows[j], rows[k])
    ensures a <= b
  {
    hide Earlier, UniqueIds;
    if !(a <= b) {
      var k :| k in a && k !in b;
      var j := Outsider(b, a, k);
      SameAge(rows, j, k);
      assert false;
    }
  }

  lemma SameAge(rows: Table, j: Key, k: Key)
    requires UniqueIds(rows) && j in rows && k in rows && Earlier(rows[j], rows[k]) && Earlier(rows[k], rows[j])
    ensures j == k
  {
  }

  lemma Outsider(b: set<Key>, a: set<Key>, k: Key) returns (j: Key)
    requires |a| == |b| && k in a && k !in b
    ensures j in b && j !in a
  {
    if b <= a {
      SmallerSet(b, a, k);
      assert false;
    }
    j :| j in b && j !in a;
  }

  lemma {:induction false} SmallerSet(a: set<Key>, b: set<Key>, k: Key)
    requires a <= b && k in b && k !in a
    ensures |a| < |b|
    decreases a
  {
    if j :| j in a {
      SmallerSet(a - {j}, b - {j}, k);
    }
  }

  lemma {:induction false} OldestExists(rows: Table, keys: set<Key>)
    requires keys != {} && keys <= rows.Keys
    ensures exists k :: k in keys && forall q :: q in keys ==> Earlier(rows[k], rows[q])
    decreases keys
  {
    var k :| k in keys;
    var rest := keys - {k};
    if rest != {} {
      OldestExists(rows, rest);
      var m :| m in rest && forall q :: q in rest ==> Earlier(rows[m], rows[q]);
      var least := if Earlier(rows[k], rows[m]) then k else m;
      assert least in keys && forall q :: q in keys ==> Earlier(rows[least], rows[q]);
    } else {
      assert keys == {k};
    }
  }

  /** The list so far, oldest first, and the rows still to choose from. */
  ghost predicate Picking(rows: Table, all: set<Key>, left: set<Key>, list: seq<Report>) {
    && left <= all <= rows.Keys && |list| + |left| == |all| && KeysOf(list) == all - left
    && InOrder(rows, list) && AllBefore(rows, list, left)
  }

  ghost predicate InOrder(rows: Table, list: seq<Report>) {
    && (forall r :: r in list ==> r.key in rows && rows[r.key] == r.entry)
    && (forall i, j :: 0 <= i < j < |list| ==> list[i].key != list[j].key && Earlier(list[i].entry, list[j].entry))
  }

  ghost predicate AllBefore(rows: Table, list: seq<Report>, left: set<Key>)
    requires left <= rows.Keys
  {
    forall r, k :: r in list && k in left ==> Earlier(r.entry, rows[k])
  }

  lemma PickNone(rows: Table, url: string, submissions: bool)
    ensures Selected(rows, url, submissions) <= rows.Keys
    ensures Picking(rows, Selected(rows, url, submissions), Selected(rows, url, submissions), [])
  {
  }

  lemma PickStep(rows: Table, all: set<Key>, left: set<Key>, list: seq<Report>, k: Key)
    requires Picking(rows, all, left, list)
    requires k in left && forall q :: q in left ==> Earlier(rows[k], rows[q])
    ensures Picking(rows, all, left - {k}, list + [Report(k, rows[k])])
  {
    var more := list + [Report(k, rows[k])];
    assert k !in KeysOf(list);
    PickOrdered(rows, left, list, k);
    hide Earlier, InOrder, AllBefore;
    assert KeysOf(more) == KeysOf(list) + {k};
  }

  lemma PickOrdered(rows: Table, left: set<Key>, list: seq<Report>, k: Key)
    requires left <= rows.Keys && InOrder(rows, list) && AllBefore(rows, list, left) && k !in KeysOf(list)
    requires k in left && forall q :: q in left ==> Earlier(rows[k], rows[q])
    ensures InOrder(rows, list + [Report(k, rows[k])]) && AllBefore(rows, list + [Report(k, rows[k])], left - {k})
  {
    hide Earlier;
    var more := list + [Report(k, rows[k])];
    forall i, j | 0 <= i < j < |more| ensures more[i].key != more[j].key && Earlier(more[i].entry, more[j].entry) {
      assert more[i] == list[i] && list[i] in list;
      if j < |list| {
        assert more[j] == list[j];
      }
    }
  }

  lemma PickDone(rows: Table, url: string, submissions: bool, limit: nat, left: set<Key>, list: seq<Report>)
    requires Picking(rows, Selected(rows, url, submissions), left, list)
    requires |list| <= limit && (|list| == limit || left == {})
    ensures PendingList(rows, url, submissions, limit, list)
  {
    hide Earlier;
    forall r | r in list ensures Listed(r.key, url, submissions) {
      assert r.key in KeysOf(list);
    }
  }

  /** The pending list, spelled out: rows of the URL, submissions or all others, by creation
      time and then id; no row left out is older than one listed, and none is left out
      while there is room. */
  lemma PendingMeans(rows: Table, url: string, submissions: bool, limit: nat, list: seq<Report>)
    requires PendingList(rows, url, submissions, limit, list)
    ensures forall i, j :: 0 <= i < j < |list| ==>
              || list[i].entry.createdAt < list[j].entry.createdAt
              || (list[i].entry.createdAt == list[j].entry.createdAt && list[i].entry.id <= list[j].entry.id)
    ensures forall k, r :: k in rows && k.url == url && (k.kind == Submission) == submissions && k !in KeysOf(list)
                           && r in list ==>
              || r.entry.createdAt < rows[k].createdAt
              || (r.entry.createdAt == rows[k].createdAt && r.entry.id <= rows[k].id)
    ensures |list| < limit ==> forall k :: k in rows && k.url == url && (k.kind == Submission) == submissions ==>
              k in KeysOf(list)
    ensures |list| <= limit
  {
    forall k | k in rows && k.url == url && (k.kind == Submission) == submissions
      ensures k in Selected(rows, url, submissions)
    {
    }
    if |list| < limit {
      KeysCount(list);
      assert KeysOf(list) <= Selected(rows, url, submissions);
      SubsetFull(KeysOf(list), Selected(rows, url, submissions));
    }
  }

  lemma {:induction false} KeysCount(list: seq<Report>)
    requires forall i, j :: 0 <= i < j < |list| ==> list[i].key != list[j].key
    ensures |KeysOf(list)| == |list|
  {
    if |list| > 0 {
      var n := |list| - 1;
      KeysCount(list[..n]);
      assert list == list[..n] + [list[n]];
      assert KeysOf(list) == KeysOf(list[..n]) + {list[n].key};
    }
  }

  lemma SubsetFull(a: set<Key>, b: set<Key>)
    requires a <= b && |a| == |b|
    ensures a == b
  {
    assert |b - a| == 0;
  }

  // -------------------------------------------------------------- flushing

  /** The control plane's answer to one report: taken, refused with an optional HTTP
      status, or an unexpected failure. */
  datatype Reply = Taken | Refused(status: Option<int>) | Broken

  /** After these answers the flush gives up for now. */
  predicate Stops(r: Reply) {
    r.Broken? || (r.Refused? && (r.status.None? || r.status.value >= 500))
  }

  /** How many of the listed reports are attempted. */
  function Reach(list: seq<Report>, reply: Key -> Reply): (n: nat)
    ensures n <= |list|
    ensures forall i :: 0 <= i < n - 1 ==> !Stops(reply(list[i].key))
    ensures n < |list| ==> n > 0 && Stops(reply(list[n - 1].key))
  {
    if |list| == 0 then 0
    else if Stops(reply(list[0].key)) then 1
    else 1 + Reach(list[1..], reply)
  }

  /** The first `n` reports of the list that were taken. */
  function TakenKeys(list: seq<Report>, reply: Key -> Reply, n: nat): set<Key>
    requires n <= |list|
  {
    if n == 0 then {}
    else TakenKeys(list, reply, n - 1) + if reply(list[n - 1].key).Taken? then {list[n - 1].key} else {}
  }

  lemma {:induction false} TakenAre(list: seq<Report>, reply: Key -> Reply, n: nat, k: Key)
    requires n <= |list|
    ensures k in TakenKeys(list, reply, n) <==> exists i :: 0 <= i < n && list[i].key == k && reply(k).Taken?
  {
    if n > 0 {
      TakenAre(list, reply, n - 1, k);
    }
  }

  /** Taken, or refused for good with a status below 500: the flush goes on to the next. */
  predicate GoesOn(r: Reply) {
    r.Taken? || (r.Refused? && r.status.Some? && r.status.value < 500)
  }

  lemma {:induction false} Reached(list: seq<Report>, reply: Key -> Reply, i: nat)
    requires i < |list| && forall j :: 0 <= j < i ==> GoesOn(reply(list[j].key))
    ensures i < Reach(list, reply)
  {
    if i > 0 {
      forall j | 0 <= j < i - 1 ensures GoesOn(reply(list[1..][j].key)) {
        assert list[1..][j] == list[j + 1];
      }
      assert GoesOn(reply(list[0].key));
      Reached(list[1..], reply, i - 1);
    }
  }

  /** A flush delivers exactly the reports that are taken and before which every listed one
      was taken or refused for good. A refusal with status 500 or more, or none, or any other
      failure leaves everything after it for later. */
  lemma FlushedIff(list: seq<Report>, reply: Key -> Reply, k: Key)
    ensures k in TakenKeys(list, reply, Reach(list, reply)) <==>
            exists i :: 0 <= i < |list| && list[i].key == k && reply(k) == Taken
                        && forall j :: 0 <= j < i ==> GoesOn(reply(list[j].key))
  {
    var n := Reach(list, reply);
    TakenAre(list, reply, n, k);
    hide Reach, TakenKeys;
    forall r: Reply ensures GoesOn(r) <==> !Stops(r) {
    }
    if i :| 0 <= i < |list| && list[i].key == k && reply(k) == Taken
            && forall j :: 0 <= j < i ==> GoesOn(reply(list[j].key)) {
      Reached(list, reply, i);
    }
  }

  ghost predicate DistinctKeys(list: seq<Report>) {
    forall i, j :: 0 <= i < j < |list| ==> list[i].key != list[j].key
  }

  lemma {:induction false} ReachUnique(list: seq<Report>, reply: Key -> Reply, n: nat)
    requires n <= |list|
    requires forall i :: 0 <= i < n - 1 ==> !Stops(reply(list[i].key))
    requires n < |list| ==> n > 0 && Stops(reply(list[n - 1].key))
    ensures Reach(list, reply) == n
  {
    if n > 1 {
      ReachUnique(list[1..], reply, n - 1);
    }
  }

  /** Between two states of a flush only delivery reports of this URL go; payloads and
      retained submissions stay. */
  ghost predicate OnlyDelivered(before: Table, after: Table, url: string) {
    && after.Keys <= before.Keys
    && (forall k :: k in after ==> after[k].payload == before[k].payload)
    && (forall k :: k in before && !Listed(k, url, false) ==> k in after)
  }

  /** A flush under way: `n` reports attempted, those taken removed and counted. */
  ghost predicate Flushing(was: Table, rows: Table, url: string, list: seq<Report>, reply: Key -> Reply,
      n: int, delivered: nat) {
    && 0 <= n <= |list| && OnlyDelivered(was, rows, url)
    && Removed(was, rows, TakenKeys(list, reply, n))
    && delivered == |TakenKeys(list, reply, n)|
    && forall j :: 0 <= j < n - 1 ==> !Stops(reply(list[j].key))
  }

  /** Exactly these keys are gone. */
  ghost predicate Removed(was: Table, rows: Table, gone: set<Key>) {
    forall k :: k in rows <==> k in was && k !in gone
  }

  lemma RemoveOneKey(was: Table, rows: Table, url: string, gone: set<Key>, key: Key)
    requires Removed(was, rows, gone) && OnlyDelivered(was, rows, url) && Listed(key, url, false)
    ensures Removed(was, rows - {key}, gone + {key}) && OnlyDelivered(was, rows - {key}, url)
  {
    hide Listed;
  }

  lemma FlushTaken(was: Table, rows: Table, url: string, list: seq<Report>, reply: Key -> Reply, n: nat, delivered: nat)
    requires DistinctKeys(list)
    requires n < |list| && Listed(list[n].key, url, false)
    requires Flushing(was, rows, url, list, reply, n, delivered) && (n > 0 ==> !Stops(reply(list[n - 1].key)))
    requires reply(list[n].key).Taken?
    ensures Flushing(was, rows - {list[n].key}, url, list, reply, n + 1, delivered + 1)
  {
    hide Stops, Listed, OnlyDelivered, Removed;
    var key := list[n].key;
    TakenAre(list, reply, n, key);
    hide TakenKeys, DistinctKeys;
    TakenMore(list, reply, n);
    RemoveOneKey(was, rows, url, TakenKeys(list, reply, n), key);
  }

  lemma TakenMore(list: seq<Report>, reply: Key -> Reply, n: nat)
    requires n < |list|
    ensures TakenKeys(list, reply, n + 1) ==
            TakenKeys(list, reply, n) + if reply(list[n].key).Taken? then {list[n].key} else {}
  {
  }

  /** A flush removes listed rows only. */
  lemma GoneListed(was: Table, rows: Table, url: string, list: seq<Report>, reply: Key -> Reply, n: int, delivered: nat)
    requires Flushing(was, rows, url, list, reply, n, delivered)
    ensures forall k :: k in was && k !in rows ==> k in KeysOf(list)
  {
    hide TakenKeys, OnlyDelivered, Stops;
    forall k | k in was && k !in rows ensures k in KeysOf(list) {
      TakenAre(list, reply, n, k);
      var i :| 0 <= i < n && list[i].key == k;
      assert list[i] in list;
    }
  }

  /** Of the first `n` reports each one refused has one more attempt and is marked failed;
      every other row left is as it was. */
  ghost predicate Tallied(was: Table, rows: Table, list: seq<Report>, reply: Key -> Reply, n: int) {
    forall k :: k in rows ==>
      && k in was
      && rows[k] == if RefusedAmong(list, reply, n, k) then was[k].(attempts := was[k].attempts + 1, failed := true)
                    else was[k]
  }

  predicate RefusedAmong(list: seq<Report>, reply: Key -> Reply, n: int, k: Key) {
    exists i :: 0 <= i < n && i < |list| && list[i].key == k && !reply(k).Taken?
  }

  lemma TallyTaken(was: Table, rows: Table, list: seq<Report>, reply: Key -> Reply, n: nat)
    requires Tallied(was, rows, list, reply, n) && n < |list| && reply(list[n].key).Taken?
    ensures Tallied(was, rows - {list[n].key}, list, reply, n + 1)
  {
    forall k ensures RefusedAmong(list, reply, n + 1, k) <==> RefusedAmong(list, reply, n, k) {
    }
  }

  lemma TallyRefused(was: Table, rows: Table, list: seq<Report>, reply: Key -> Reply, n: nat)
    requires Tallied(was, rows, list, reply, n) && n < |list| && !reply(list[n].key).Taken?
    requires UniqueIds(was) && DistinctKeys(list) && list[n].key in was && was[list[n].key] == list[n].entry
    ensures Tallied(was, FailById(rows, list[n].entry.id), list, reply, n + 1)
  {
    var key := list[n].key;
    forall k ensures RefusedAmong(list, reply, n + 1, k) <==> RefusedAmong(list, reply, n, k) || k == key {
      if k == key {
        assert list[n].key == k;
      }
    }
    assert !RefusedAmong(list, reply, n, key);
    forall k | k in rows ensures rows[k].id == list[n].entry.id <==> k == key {
      assert rows[k].id == was[k].id;
    }
  }

  lemma TallyNone(rows: Table, list: seq<Report>, reply: Key -> Reply)
    ensures Tallied(rows, rows, list, reply, 0)
  {
  }

  lemma FlushNone(rows: Table, url: string, list: seq<Report>, reply: Key -> Reply)
    ensures Flushing(rows, rows, url, list, reply, 0, 0)
  {
  }

  lemma ListedKey(rows: Table, url: string, limit: nat, list: seq<Report>, i: nat)
    requires PendingList(rows, url, false, limit, list) && i < |list|
    ensures list[i].key in rows && Listed(list[i].key, url, false)
    ensures list[i].key == Key(url, list[i].key.action, list[i].key.txIndex, list[i].key.kind)
    ensures !Stops(Taken) && DistinctKeys(list) && rows[list[i].key] == list[i].entry
  {
    hide Earlier, Selected;
    assert list[i] in list;
  }

  lemma FlushRefused(was: Table, rows: Table, url: string, list: seq<Report>, reply: Key -> Reply, n: nat,
      delivered: nat, id: int)
    requires Flushing(was, rows, url, list, reply, n, delivered) && n < |list|
    requires n > 0 ==> !Stops(reply(list[n - 1].key))
    requires !reply(list[n].key).Taken?
    ensures Flushing(was, FailById(rows, id), url, list, reply, n + 1, delivered)
  {
    hide Stops, Listed, TakenKeys;
    TakenMore(list, reply, n);
  }

  class ActionReportOutbox {
    var rows: Table
    var nextId: int

    /** Ids are handed out in order. */
    ghost predicate Valid()
      reads this
    {
      UniqueIds(rows) && forall k :: k in rows ==> rows[k].id < nextId
    }

    constructor ()
      ensures Valid() && rows == map[]
    {
      rows, nextId := map[], 1;
    }

    /** An outbox found on disk. */
    constructor Opened(rows: Table, nextId: int)
      requires UniqueIds(rows) && forall k :: k in rows ==> rows[k].id < nextId
      ensures Valid() && this.rows == rows
    {
      this.rows, this.nextId := rows, nextId;
    }

    /** Each write is one database transaction: when it fails the row may or may not have
        been written, but nothing else has changed. */
    method Upsert(key: Key, payload: Payload) returns (ok: bool)
      requires Valid()
      modifies this
      ensures Valid()
      ensures ok ==> IsPut(old(rows), rows, key, payload)
      ensures rows == old(rows) || IsPut(old(rows), rows, key, payload)
    {
      var now: int := *;
      if * {
        return false;
      }
      rows := Put(rows, key, payload, nextId, now);
      nextId := nextId + 1;
      ok := *;
    }

    method QueueBroadcast(url: string, action: string, payload: Payload) returns (ok: bool)
      requires Valid()
      modifies this
      ensures Valid()
      ensures ok ==> IsPut(old(rows), rows, Key(Normalize(url), action, payload.txIndex, Broadcast), payload)
      ensures rows == old(rows) ||
              IsPut(old(rows), rows, Key(Normalize(url), action, payload.txIndex, Broadcast), payload)
    {
      ok := Upsert(Key(Normalize(url), action, payload.txIndex, Broadcast), payload);
    }

    method QueueSubmission(url: string, action: string, payload: Payload) returns (ok: bool)
      requires Valid()
      modifies this
      ensures Valid()
      ensures ok ==> IsPut(old(rows), rows, Key(Normalize(url), action, payload.txIndex, Submission), payload)
      ensures rows == old(rows) ||
              IsPut(old(rows), rows, Key(Normalize(url), action, payload.txIndex, Submission), payload)
    {
      ok := Upsert(Key(Normalize(url), action, payload.txIndex, Submission), payload);
    }

    method QueueReceipt(url: string, action: string, payload: Payload) returns (ok: bool)
      requires Valid()
      modifies this
      ensures Valid()
      ensures ok ==> IsPut(old(rows), rows, Key(Normalize(url), action, payload.txIndex, Receipt), payload)
      ensures rows == old(rows) ||
              IsPut(old(rows), rows, Key(Normalize(url), action, payload.txIndex, Receipt), payload)
    {
      ok := Upsert(Key(Normalize(url), action, payload.txIndex, Receipt), payload);
    }

    method MarkDelivered(url: string, action: string, txIndex: nat, kind: Kind) returns (ok: bool)
      requires Valid()
      modifies this`rows
      ensures Valid()
      ensures ok ==> rows == old(rows) - {Key(Normalize(url), action, txIndex, kind)}
      ensures rows == old(rows) || rows == old(rows) - {Key(Normalize(url), action, txIndex, kind)}
    {
      if * {
        return false;
      }
      rows := rows - {Key(Normalize(url), action, txIndex, kind)};
      ok := *;
    }

    method MarkFailed(id: int) returns (ok: bool)
      requires Valid()
      modifies this`rows
      ensures Valid()
      ensures ok ==> rows == FailById(old(rows), id)
      ensures rows == old(rows) || rows == FailById(old(rows), id)
    {
      if * {
        return false;
      }
      rows := FailById(rows, id);
      ok := *;
    }

    method PendingReports(url: string, submissions: bool, limit: nat) returns (list: seq<Report>)
      ensures PendingList(rows, Normalize(url), submissions, limit, list)
    {
      var all := Selected(rows, Normalize(url), submissions);
      var left := all;
      list := [];
      hide Earlier, Picking, Selected;
      PickNone(rows, Normalize(url), submissions);
      while |list| < limit && left != {}
        invariant left <= all && all <= rows.Keys && |list| <= limit
        invariant Picking(rows, all, left, list)
        decreases left
      {
        OldestExists(rows, left);
        var k :| k in left && forall q :: q in left ==> Earlier(rows[k], rows[q]);
        PickStep(rows, all, left, list, k);
        list := list + [Report(k, rows[k])];
        left := left - {k};
      }
      PickDone(rows, Normalize(url), submissions, limit, left, list);
    }

    /** Deliver the oldest reports until one fails in a way worth waiting for; what was
        taken, and nothing else, is gone afterwards. */
    method FlushPending(url: string, limit: nat, reply: Key -> Reply)
        returns (delivered: nat, ok: bool, ghost list: seq<Report>)
      requires Valid()
      modifies this`rows
      ensures Valid()
      ensures PendingList(old(rows), Normalize(url), false, limit, list)
      ensures OnlyDelivered(old(rows), rows, Normalize(url))
      ensures forall k :: k in old(rows) && k !in rows ==> k in KeysOf(list)
      ensures ok ==> Removed(old(rows), rows, TakenKeys(list, reply, Reach(list, reply)))
      ensures ok ==> delivered == |TakenKeys(list, reply, Reach(list, reply))|
      ensures ok ==> Tallied(old(rows), rows, list, reply, Reach(list, reply))
    {
      var reports := PendingReports(url, false, limit);
      hide Selected, PendingList, TakenKeys, OnlyDelivered, Removed, Listed, DistinctKeys, Reach, Normalize, Stops,
           FailById, UniqueIds, Tallied;
      list := reports;
      delivered := 0;
      ghost var was, base := rows, Normalize(url);
      FlushNone(rows, base, list, reply);
      TallyNone(rows, list, reply);
      var i := 0;
      var stopped := false;
      while i < |reports| && !stopped
        invariant Valid() && 0 <= i <= |reports|
        invariant Flushing(was, rows, base, list, reply, i, delivered)
        invariant Tallied(was, rows, list, reply, i)
        invariant i > 0 ==> stopped == Stops(reply(list[i - 1].key))
        invariant stopped ==> i > 0
        decreases |reports| - i
      {
        var key := reports[i].key;
        ghost var before := rows;
        ListedKey(was, base, limit, list, i);
        if reply(key).Taken? {
          TallyTaken(was, rows, list, reply, i);
          FlushTaken(was, rows, base, list, reply, i, delivered);
          var wrote := MarkDelivered(url, key.action, key.txIndex, key.kind);
          if !wrote {
            assert rows == before || rows == before - {key};
            GoneListed(was, before, base, list, reply, i, delivered);
            GoneListed(was, before - {key}, base, list, reply, i + 1, delivered + 1);
            return delivered, false, list;
          }
          delivered := delivered + 1;
        } else {
          TallyRefused(was, rows, list, reply, i);
          FlushRefused(was, rows, base, list, reply, i, delivered, reports[i].entry.id);
          var wrote := MarkFailed(reports[i].entry.id);
          if !wrote {
            GoneListed(was, before, base, list, reply, i, delivered);
            GoneListed(was, FailById(before, reports[i].entry.id), base, list, reply, i + 1, delivered);
            return delivered, false, list;
          }
        }
        stopped := Stops(reply(key));
        i := i + 1;
      }
      ReachUnique(list, reply, i);
      GoneListed(was, rows, base, list, reply, i, delivered);
      ok := true;
    }

    /** How many rows of the URL there are, of one kind or of all. */
    method PendingCount(url: string, kind: Option<Kind>) returns (n: nat)
      ensures n == |set k | k in rows && k.url == Normalize(url) && (kind.None? || k.kind == kind.value)|
    {
      n := |set k | k in rows && k.url == Normalize(url) && (kind.None? || k.kind == kind.value)|;
    }
  }
}
