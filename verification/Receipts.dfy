/** Finalizing every operation row of one mined transaction from its receipt
    (_finalize_operations in tidal/operation_reconciler.py). */
module Receipts {
  import opened Common
  import opened Rounds
  import opened KickTable

  datatype KickEvent = KickEvent(auction: string, token: string, requested: nat, placed: Option<nat>)
  datatype ResolveEvent = ResolveEvent(auction: string, token: string, path: int, recovered: nat)
  datatype SweepEvent = SweepEvent(auction: string, token: string, recovered: nat)
  datatype SettlementEvent = SettlementEvent(auction: string, token: string)

  datatype Decoded = Decoded(
    kicks: seq<KickEvent>,
    resolves: seq<ResolveEvent>,
    sweeps: seq<SweepEvent>,
    settlements: seq<SettlementEvent>)

  datatype Receipt = Receipt(tx: string, ok: bool, pos: Pos, minedAt: int)

  /** How the chain mined a transaction: whether it succeeded, where and when. */
  datatype Mining = Mining(ok: bool, pos: Pos, minedAt: int)

  function ReceiptOf(tx: string, mining: Mining): Receipt {
    Receipt(tx, mining.ok, mining.pos, mining.minedAt)
  }

  datatype FinalizeError = EventDecodeFailed | RoundLinkFailed

  function FirstKick(events: seq<KickEvent>, auction: string, token: string): Option<KickEvent> {
    if |events| == 0 then None
    else if events[0].auction == auction && events[0].token == token then Some(events[0])
    else FirstKick(events[1..], auction, token)
  }

  function FirstResolve(events: seq<ResolveEvent>, auction: string, token: string): Option<ResolveEvent> {
    if |events| == 0 then None
    else if events[0].auction == auction && events[0].token == token then Some(events[0])
    else FirstResolve(events[1..], auction, token)
  }

  function FirstSweep(events: seq<SweepEvent>, auction: string, token: string): Option<SweepEvent> {
    if |events| == 0 then None
    else if events[0].auction == auction && events[0].token == token then Some(events[0])
    else FirstSweep(events[1..], auction, token)
  }

  /** `e` is the first of the events satisfying `p`, or none does. */
  ghost predicate IsFirst<T(!new)>(p: T -> bool, events: seq<T>, e: Option<T>) {
    if e.None? then forall x :: x in events ==> !p(x)
    else exists i ::
      && 0 <= i < |events| && events[i] == e.value && p(events[i])
      && forall j :: 0 <= j < i ==> !p(events[j])
  }

  lemma IsFirstLater<T(!new)>(p: T -> bool, events: seq<T>, e: Option<T>)
    requires |events| > 0 && !p(events[0]) && IsFirst(p, events[1..], e)
    ensures IsFirst(p, events, e)
  {
    assert events == [events[0]] + events[1..];
    if e.Some? {
      var i :| 0 <= i < |events[1..]| && events[1..][i] == e.value && p(events[1..][i])
               && forall j :: 0 <= j < i ==> !p(events[1..][j]);
      assert events[i + 1] == e.value;
      forall j | 0 <= j < i + 1 ensures !p(events[j]) {
        assert j > 0 ==> events[j] == events[1..][j - 1];
      }
    }
  }

  function MatchesKick(auction: string, token: string): KickEvent -> bool {
    (e: KickEvent) => e.auction == auction && e.token == token
  }

  function MatchesResolve(auction: string, token: string): ResolveEvent -> bool {
    (e: ResolveEvent) => e.auction == auction && e.token == token
  }

  function MatchesSweep(auction: string, token: string): SweepEvent -> bool {
    (e: SweepEvent) => e.auction == auction && e.token == token
  }

  /** A row is matched with the first event of its kind for its auction and token. */
  lemma {:induction false} FirstResolveFirst(events: seq<ResolveEvent>, auction: string, token: string)
    ensures IsFirst(MatchesResolve(auction, token), events, FirstResolve(events, auction, token))
  {
    if |events| > 0 && !(events[0].auction == auction && events[0].token == token) {
      FirstResolveFirst(events[1..], auction, token);
      IsFirstLater(MatchesResolve(auction, token), events, FirstResolve(events, auction, token));
    }
  }

  lemma {:induction false} FirstKickFirst(events: seq<KickEvent>, auction: string, token: string)
    ensures IsFirst(MatchesKick(auction, token), events, FirstKick(events, auction, token))
  {
    if |events| > 0 && !(events[0].auction == auction && events[0].token == token) {
      FirstKickFirst(events[1..], auction, token);
      IsFirstLater(MatchesKick(auction, token), events, FirstKick(events, auction, token));
    }
  }

  lemma {:induction false} FirstSweepFirst(events: seq<SweepEvent>, auction: string, token: string)
    ensures IsFirst(MatchesSweep(auction, token), events, FirstSweep(events, auction, token))
  {
    if |events| > 0 && !(events[0].auction == auction && events[0].token == token) {
      FirstSweepFirst(events[1..], auction, token);
      IsFirstLater(MatchesSweep(auction, token), events, FirstSweep(events, auction, token));
    }
  }

  predicate ResolvedPair(d: Decoded, auction: string, token: string) {
    exists e :: e in d.resolves && e.auction == auction && e.token == token
  }

  // -------------------------------------------------------------- one row

  /** The columns every row of the receipt gets. */
  function Mined(row: Row, receipt: Receipt, status: Status): Row {
    row.(status := status, block := Some(receipt.pos.block), txIndex := Some(receipt.pos.index),
         minedAt := Some(receipt.minedAt))
  }

  /** The round a recovery belongs to: the link it has, else a fresh lookup. */
  function RoundKickId(table: seq<Row>, row: Row, pos: Pos): Option<int> {
    if row.link.Some? then row.link
    else
      var kick := LatestUnclosedKick(table, row.auction, row.token, Some(pos));
      if kick.Some? then Some(kick.value.id) else None
  }

  /** The receipt says what this recovery did, so it wants a round. */
  predicate WantsRound(row: Row, d: Decoded) {
    || (row.op.Resolve? && FirstResolve(d.resolves, row.auction, row.token).Some?
        && FirstResolve(d.resolves, row.auction, row.token).value.path != 0)
    || (row.op.Sweep? && FirstSweep(d.sweeps, row.auction, row.token).Some?)
  }

  /** The receipt says this resolve found nothing to close. */
  predicate ClearsLink(row: Row, d: Decoded) {
    && row.op.Resolve? && FirstResolve(d.resolves, row.auction, row.token).Some?
    && FirstResolve(d.resolves, row.auction, row.token).value.path == 0
  }

  /** The row's columns other than its link, as the receipt's first event for its pair and
      kind sets them. */
  function Stamp(receipt: Receipt, d: Decoded, row: Row): Row {
    var r := Mined(row, receipt, Confirmed);
    match row.op
    case Kick =>
      var e := FirstKick(d.kicks, row.auction, row.token);
      if e.None? then r.(amount := None)
      else r.(requested := Some(e.value.requested), amount := e.value.placed)
    case Resolve =>
      var e := FirstResolve(d.resolves, row.auction, row.token);
      if e.None? then r.(amount := None)
      else r.(path := Some(e.value.path), amount := Some(e.value.recovered))
    case Sweep =>
      var e := FirstSweep(d.sweeps, row.auction, row.token);
      if e.None? then r.(amount := None) else r.(amount := Some(e.value.recovered))
    case _ => r
  }

  function LinkFor(table: seq<Row>, receipt: Receipt, d: Decoded, row: Row): Option<int> {
    if ClearsLink(row, d) then None
    else if WantsRound(row, d) then RoundKickId(table, row, receipt.pos)
    else row.link
  }

  function Finalized(table: seq<Row>, receipt: Receipt, d: Decoded, row: Row): Row {
    Stamp(receipt, d, row).(link := LinkFor(table, receipt, d, row))
  }

  predicate LinkFailed(table: seq<Row>, receipt: Receipt, d: Decoded, row: Row) {
    row.op.Resolve? && WantsRound(row, d) && Finalized(table, receipt, d, row).link.None?
  }

  // ------------------------------------------------------------ whole table

  /** A row this receipt finalizes: of its transaction, and accepted as intended. */
  predicate Own(tx: string, accept: int -> bool, r: Row) {
    r.tx == Some(tx) && accept(r.id)
  }

  function OwnTo(tx: string, accept: int -> bool): Row -> bool {
    (r: Row) => Own(tx, accept, r)
  }

  function RowsOf(table: seq<Row>, tx: string, accept: int -> bool): seq<Row> {
    Filter(OwnTo(tx, accept), table)
  }

  /** Rows finalized one by one; each lookup sees the rows finalized before it. */
  function FinalizeRows(table: seq<Row>, receipt: Receipt, d: Decoded, todo: seq<Row>): (t: seq<Row>)
    ensures |t| == |table|
    decreases |todo|
  {
    if |todo| == 0 then table
    else FinalizeRows(SetRow(table, Finalized(table, receipt, d, todo[0])), receipt, d, todo[1..])
  }

  /** Some row of the pass could not be linked although its receipt resolved a round. */
  predicate PassFails(table: seq<Row>, receipt: Receipt, d: Decoded, todo: seq<Row>)
    decreases |todo|
  {
    |todo| > 0 &&
    (LinkFailed(table, receipt, d, todo[0])
     || PassFails(SetRow(table, Finalized(table, receipt, d, todo[0])), receipt, d, todo[1..]))
  }

  /** The code an application reports. */
  function ReceiptError(table: seq<Row>, receipt: Receipt, decoded: Option<Decoded>,
                        accept: int -> bool): Option<FinalizeError> {
    var todo := RowsOf(table, receipt.tx, accept);
    if todo == [] || !receipt.ok then None
    else if decoded.None? then Some(EventDecodeFailed)
    else if PassFails(table, receipt, decoded.value, todo) then Some(RoundLinkFailed)
    else None
  }

  function MineRows(table: seq<Row>, receipt: Receipt, status: Status, todo: seq<Row>): (t: seq<Row>)
    ensures |t| == |table|
    decreases |todo|
  {
    if |todo| == 0 then table
    else MineRows(SetRow(table, Mined(todo[0], receipt, status)), receipt, status, todo[1..])
  }

  /** The close a settlement event adds, if it adds one. */
  function NewClose(table: seq<Row>, receipt: Receipt, d: Decoded, e: SettlementEvent): Option<Row> {
    if ResolvedPair(d, e.auction, e.token) || HasExact(table, Settled, receipt.tx, e.auction, e.token) then None
    else
      var kick := LatestUnclosedKick(table, e.auction, e.token, Some(receipt.pos));
      if kick.None? then None
      else Some(Row(0, Settled, Confirmed, e.auction, e.token, Some(receipt.tx),
                    Some(receipt.pos.block), Some(receipt.pos.index), Some(receipt.minedAt), Some(receipt.minedAt),
                    None, Some(0), None, Some(kick.value.id), false))
  }

  /** One settlement event with the receipt and events it came with. */
  datatype CloseItem = CloseItem(receipt: Receipt, d: Decoded, e: SettlementEvent)

  /** Settlement events handled one by one, each against the table so far. */
  function SettleAll(table: seq<Row>, nextId: int, items: seq<CloseItem>): (t: seq<Row>)
    ensures table <= t
    decreases |items|
  {
    if |items| == 0 then table
    else
      var close := NewClose(table, items[0].receipt, items[0].d, items[0].e);
      if close.None? then SettleAll(table, nextId, items[1..])
      else SettleAll(table + [close.value.(id := nextId)], nextId + 1, items[1..])
  }

  function ItemsOf(receipt: Receipt, d: Decoded): (items: seq<CloseItem>)
    ensures |items| == |d.settlements|
    ensures forall i :: 0 <= i < |items| ==> items[i] == CloseItem(receipt, d, d.settlements[i])
  {
    seq(|d.settlements|, i requires 0 <= i < |d.settlements| => CloseItem(receipt, d, d.settlements[i]))
  }

  /** The table after applying a receipt; `decoded` is absent when decoding failed. */
  function ApplyReceipt(table: seq<Row>, nextId: int, receipt: Receipt, decoded: Option<Decoded>,
      accept: int -> bool): (t: seq<Row>)
    ensures |table| <= |t|
  {
    var todo := RowsOf(table, receipt.tx, accept);
    if todo == [] then table
    else if !receipt.ok then MineRows(table, receipt, OtherStatus, todo)
    else if decoded.None? then MineRows(table, receipt, Confirmed, todo)
    else SettleAll(FinalizeRows(table, receipt, decoded.value, todo), nextId, ItemsOf(receipt, decoded.value))
  }

  // ---------------------------------------------------------------- methods

  lemma MinedKeepsOrder(table: seq<Row>, row: Row)
    requires Ascending(table)
    ensures Ascending(SetRow(table, row))
  {
    var t := SetRow(table, row);
    forall i, j | 0 <= i < j < |t| ensures t[i].id < t[j].id {
      assert table[i].id < table[j].id;
    }
  }

  method MarkRows(table: KickTxTable, receipt: Receipt, status: Status, rows: seq<Row>)
    requires table.Valid()
    modifies table`rows
    ensures table.Valid()
    ensures table.rows == MineRows(old(table.rows), receipt, status, rows)
  {
    for i := 0 to |rows|
      invariant table.Valid()
      invariant MineRows(old(table.rows), receipt, status, rows) == MineRows(table.rows, receipt, status, rows[i..])
    {
      assert rows[i..][0] == rows[i] && rows[i..][1..] == rows[i + 1..];
      table.Update(Mined(rows[i], receipt, status));
    }
  }

  method FinalizeOperations(table: KickTxTable, receipt: Receipt, decoded: Option<Decoded>, accept: int -> bool)
      returns (error: Option<FinalizeError>)
    requires table.Valid()
    modifies table
    ensures table.Valid()
    ensures table.rows == ApplyReceipt(old(table.rows), old(table.nextId), receipt, decoded, accept)
    ensures error == ReceiptError(old(table.rows), receipt, decoded, accept)
  {
    hide Filter, Finalized, NewClose, LinkFailed;
    var rows := RowsOf(table.rows, receipt.tx, accept);
    if rows == [] {
      return None;
    }
    if !receipt.ok {
      MarkRows(table, receipt, OtherStatus, rows);
      return None;
    }
    if decoded.None? {
      MarkRows(table, receipt, Confirmed, rows);
      return Some(EventDecodeFailed);
    }
    var d := decoded.value;
    error := None;
    for i := 0 to |rows|
      invariant table.Valid() && table.nextId == old(table.nextId)
      invariant FinalizeRows(old(table.rows), receipt, d, rows) == FinalizeRows(table.rows, receipt, d, rows[i..])
      invariant error == None || error == Some(RoundLinkFailed)
      invariant PassFails(old(table.rows), receipt, d, rows) <==>
                error.Some? || PassFails(table.rows, receipt, d, rows[i..])
    {
      assert rows[i..][0] == rows[i] && rows[i..][1..] == rows[i + 1..];
      if LinkFailed(table.rows, receipt, d, rows[i]) {
        error := Some(RoundLinkFailed);
      }
      FinalizedKeepsId(table.rows, receipt, d, rows[i]);
      table.Update(Finalized(table.rows, receipt, d, rows[i]));
    }
    ghost var items := ItemsOf(receipt, d);
    for i := 0 to |d.settlements|
      invariant table.Valid()
      invariant SettleAll(FinalizeRows(old(table.rows), receipt, d, rows), old(table.nextId), items)
                == SettleAll(table.rows, table.nextId, items[i..])
    {
      assert items[i..][0] == CloseItem(receipt, d, d.settlements[i]) && items[i..][1..] == items[i + 1..];
      var close := NewClose(table.rows, receipt, d, d.settlements[i]);
      if close.Some? {
        var _ := table.Insert(close.value);
      }
    }
    assert items[|d.settlements|..] == [];
  }

  /** Columns no receipt touches. */
  ghost predicate SameIdentity(a: Row, b: Row) {
    a.id == b.id && a.tx == b.tx && a.op == b.op && a.auction == b.auction && a.token == b.token
    && a.createdAt == b.createdAt && a.baseline == b.baseline
  }

  lemma FinalizedKeepsId(table: seq<Row>, receipt: Receipt, d: Decoded, row: Row)
    ensures var r := Finalized(table, receipt, d, row);
            SameIdentity(r, row) && r.status.Confirmed? && r.Position() == Some(receipt.pos)
  {
    hide LinkFor;
  }
}
