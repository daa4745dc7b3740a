/** What an applied receipt leaves in the columns of each row, said from the transaction's
    events alone (_finalize_operations in tidal/operation_reconciler.py). */
module ReceiptRows {
  import opened Common
  import opened Rounds
  import opened KickTable
  import opened Receipts
  import opened LinkLaws
  import opened ReceiptLaws

  /** Status, place and time of the transaction; what identifies the row is untouched. */
  predicate Placed(receipt: Receipt, status: Status, r: Row, a: Row) {
    && a.status == status && a.block == Some(receipt.pos.block) && a.txIndex == Some(receipt.pos.index)
    && a.minedAt == Some(receipt.minedAt)
    && a.id == r.id && a.op == r.op && a.auction == r.auction && a.token == r.token && a.tx == r.tx
    && a.createdAt == r.createdAt && a.baseline == r.baseline
  }

  /** Nothing but status, place and time changed. */
  predicate OnlyPlaced(receipt: Receipt, status: Status, r: Row, a: Row) {
    && Placed(receipt, status, r, a)
    && a.requested == r.requested && a.amount == r.amount && a.path == r.path && a.link == r.link
  }

  /** A kick: the requested and the placed amount of its pair's first kick event; without
      one the placed amount is unknown. */
  ghost predicate KickSays(d: Decoded, r: Row, a: Row) {
    && a.path == r.path && a.link == r.link
    && exists e: Option<KickEvent> ::
         && IsFirst(MatchesKick(r.auction, r.token), d.kicks, e)
         && a.requested == (if e.Some? then Some(e.value.requested) else r.requested)
         && a.amount == if e.Some? then e.value.placed else None
  }

  /** A recovery of a real round keeps the link it has, or gets a confirmed kick of its pair
      placed strictly before the receipt, or has none. */
  ghost predicate RoundGiven(table: seq<Row>, receipt: Receipt, r: Row, a: Row) {
    if r.link.Some? then a.link == r.link
    else a.link.Some? ==>
      exists k :: k in table && k.id == a.link.value && Opens(k, receipt.pos, r)
  }

  predicate Opens(k: Row, pos: Pos, r: Row) {
    && k.op.Kick? && k.status.Confirmed? && k.auction == r.auction && k.token == r.token
    && k.Position().Some? && k.Position().value.Before(pos)
  }

  /** A resolve: path and recovered amount of its pair's first resolve event. On path 0 it
      belongs to no round. */
  ghost predicate ResolveSays(table: seq<Row>, receipt: Receipt, d: Decoded, r: Row, a: Row) {
    && a.requested == r.requested
    && exists e: Option<ResolveEvent> ::
         && IsFirst(MatchesResolve(r.auction, r.token), d.resolves, e)
         && a.path == (if e.Some? then Some(e.value.path) else r.path)
         && a.amount == (if e.Some? then Some(e.value.recovered) else None)
         && if e.None? then a.link == r.link
            else if e.value.path == 0 then a.link.None?
            else RoundGiven(table, receipt, r, a)
  }

  ghost predicate SweepSays(table: seq<Row>, receipt: Receipt, d: Decoded, r: Row, a: Row) {
    && a.requested == r.requested && a.path == r.path
    && exists e: Option<SweepEvent> ::
         && IsFirst(MatchesSweep(r.auction, r.token), d.sweeps, e)
         && a.amount == (if e.Some? then Some(e.value.recovered) else None)
         && if e.None? then a.link == r.link else RoundGiven(table, receipt, r, a)
  }

  /** What a decoded receipt makes of a row of its transaction. */
  ghost predicate Says(table: seq<Row>, receipt: Receipt, d: Decoded, r: Row, a: Row) {
    && Placed(receipt, Confirmed, r, a)
    && match r.op
       case Kick => KickSays(d, r, a)
       case Resolve => ResolveSays(table, receipt, d, r, a)
       case Sweep => SweepSays(table, receipt, d, r, a)
       case _ => OnlyPlaced(receipt, Confirmed, r, a)
  }

  // ------------------------------------------------------------- one row

  lemma LookupOpens(table: seq<Row>, receipt: Receipt, r: Row, a: Row)
    requires a.link == RoundKickId(table, r, receipt.pos)
    ensures RoundGiven(table, receipt, r, a)
  {
    hide LatestUnclosedKick;
    if r.link.None? && a.link.Some? {
      var k := LatestUnclosedKick(table, r.auction, r.token, Some(receipt.pos)).value;
      assert Candidate(table, r.auction, r.token, Some(receipt.pos), k);
      assert Opens(k, receipt.pos, r);
    }
  }

  lemma FinalizedSays(table: seq<Row>, receipt: Receipt, d: Decoded, r: Row)
    ensures Says(table, receipt, d, r, Finalized(table, receipt, d, r))
  {
    var a := Finalized(table, receipt, d, r);
    FirstKickFirst(d.kicks, r.auction, r.token);
    FirstResolveFirst(d.resolves, r.auction, r.token);
    FirstSweepFirst(d.sweeps, r.auction, r.token);
    hide FirstKick, FirstResolve, FirstSweep, RoundKickId, RoundGiven, IsFirst;
    if WantsRound(r, d) {
      LookupOpens(table, receipt, r, a);
    }
  }

  // ------------------------------------------------------------- one pass

  /** Rows of the pass say what the receipt says, every other row is as it was. */
  ghost predicate PassSays(table: seq<Row>, receipt: Receipt, d: Decoded, todo: seq<Row>, t: seq<Row>) {
    && |t| == |table|
    && forall i :: 0 <= i < |t| ==>
         if Named(todo, table[i].id) then Says(table, receipt, d, table[i], t[i]) else t[i] == table[i]
  }

  /** Rows finalized by this receipt are not before it, so no lookup can find them. */
  lemma SaysEarlier(table: seq<Row>, next: seq<Row>, receipt: Receipt, d: Decoded, f: Row, r: Row, a: Row)
    requires Says(next, receipt, d, r, a) && f.Position() == Some(receipt.pos)
    requires forall k :: k in next ==> k == f || k in table
    ensures Says(table, receipt, d, r, a)
  {
    hide IsFirst;
    if RoundGiven(next, receipt, r, a) {
      GivenEarlier(table, next, receipt, f, r, a);
    }
    hide RoundGiven;
  }

  lemma GivenEarlier(table: seq<Row>, next: seq<Row>, receipt: Receipt, f: Row, r: Row, a: Row)
    requires RoundGiven(next, receipt, r, a) && f.Position() == Some(receipt.pos)
    requires forall k :: k in next ==> k == f || k in table
    ensures RoundGiven(table, receipt, r, a)
  {
  }

  lemma {:induction false} PassRows(table: seq<Row>, receipt: Receipt, d: Decoded, todo: seq<Row>)
    requires Ascending(table) && InTable(table, todo)
    ensures PassSays(table, receipt, d, todo, FinalizeRows(table, receipt, d, todo))
    decreases |todo|
  {
    if |todo| > 0 {
      hide Finalized, Says, FinalizeRows, PassSays, Ascending, InTable;
      var f := Finalized(table, receipt, d, todo[0]);
      var next := SetRow(table, f);
      Advance(table, receipt, d, todo);
      PassStep(table, receipt, d, todo);
      FirstStays(table, receipt, d, todo);
      FinalizedKeepsId(table, receipt, d, todo[0]);
      FinalizedSays(table, receipt, d, todo[0]);
      PassRows(next, receipt, d, todo[1..]);
      FirstInTable(table, todo);
      OneMoreRow(table, receipt, d, todo, f, FinalizeRows(next, receipt, d, todo[1..]));
    } else {
      NoneNamed();
    }
  }

  lemma FirstInTable(table: seq<Row>, todo: seq<Row>)
    requires InTable(table, todo) && |todo| > 0
    ensures todo[0] in table
  {
    assert todo[0] in todo;
  }

  lemma OneMoreRow(table: seq<Row>, receipt: Receipt, d: Decoded, todo: seq<Row>, f: Row, t: seq<Row>)
    requires Ascending(table) && |todo| > 0 && todo[0] in table && f.id == todo[0].id
    requires Says(table, receipt, d, todo[0], f) && f.Position() == Some(receipt.pos)
    requires !Named(todo[1..], f.id) && PassSays(SetRow(table, f), receipt, d, todo[1..], t)
    ensures PassSays(table, receipt, d, todo, t)
  {
    hide Says;
    var next := SetRow(table, f);
    assert todo == [todo[0]] + todo[1..];
    forall i | 0 <= i < |t|
      ensures if Named(todo, table[i].id) then Says(table, receipt, d, table[i], t[i]) else t[i] == table[i]
    {
      assert Named(todo, table[i].id) <==> table[i].id == f.id || Named(todo[1..], table[i].id);
      if table[i].id == f.id {
        SameIdSame(table, table[i], todo[0]);
      } else if Named(todo[1..], table[i].id) {
        SetRowFrom(table, f);
        SaysEarlier(table, next, receipt, d, f, table[i], t[i]);
      }
    }
  }

  lemma SetRowFrom(table: seq<Row>, f: Row)
    ensures forall k :: k in SetRow(table, f) ==> k == f || k in table
  {
  }

  ghost predicate PassPlaces(table: seq<Row>, receipt: Receipt, status: Status, todo: seq<Row>, t: seq<Row>) {
    && |t| == |table|
    && forall i :: 0 <= i < |t| ==>
         if Named(todo, table[i].id) then OnlyPlaced(receipt, status, table[i], t[i]) else t[i] == table[i]
  }

  /** Setting one row of the pass leaves the rest of the pass to do, over the new table. */
  lemma RestInTable(table: seq<Row>, f: Row, todo: seq<Row>)
    requires Ascending(table) && InTable(table, todo) && |todo| > 0 && f.id == todo[0].id
    ensures Ascending(SetRow(table, f)) && InTable(SetRow(table, f), todo[1..]) && !Named(todo[1..], f.id)
  {
    var rest := todo[1..];
    FirstInTable(table, todo);
    SetPresent(table, f, todo[0]);
    forall r | r in rest ensures r in table && r.id != f.id {
      var i :| 0 <= i < |rest| && rest[i] == r;
      assert todo[i + 1] == r && r in todo;
    }
  }

  lemma OneMorePlaced(table: seq<Row>, receipt: Receipt, status: Status, todo: seq<Row>, f: Row, t: seq<Row>)
    requires Ascending(table) && |todo| > 0 && todo[0] in table && f.id == todo[0].id
    requires OnlyPlaced(receipt, status, todo[0], f)
    requires !Named(todo[1..], f.id) && PassPlaces(SetRow(table, f), receipt, status, todo[1..], t)
    ensures PassPlaces(table, receipt, status, todo, t)
  {
    hide OnlyPlaced;
    assert todo == [todo[0]] + todo[1..];
    forall i | 0 <= i < |t|
      ensures if Named(todo, table[i].id) then OnlyPlaced(receipt, status, table[i], t[i]) else t[i] == table[i]
    {
      assert Named(todo, table[i].id) <==> table[i].id == f.id || Named(todo[1..], table[i].id);
      if table[i].id == f.id {
        SameIdSame(table, table[i], todo[0]);
      }
    }
  }

  lemma {:induction false} MinedRows(table: seq<Row>, receipt: Receipt, status: Status, todo: seq<Row>)
    requires Ascending(table) && InTable(table, todo)
    ensures PassPlaces(table, receipt, status, todo, MineRows(table, receipt, status, todo))
    decreases |todo|
  {
    if |todo| > 0 {
      var f := Mined(todo[0], receipt, status);
      FirstInTable(table, todo);
      RestInTable(table, f, todo);
      hide PassPlaces, Ascending, InTable, Named;
      MinedRows(SetRow(table, f), receipt, status, todo[1..]);
      OneMorePlaced(table, receipt, status, todo, f, MineRows(SetRow(table, f), receipt, status, todo[1..]));
    } else {
      NoneNamed();
    }
  }

  // ------------------------------------------------------- the whole table

  /** Row by row, what applying a receipt makes of a table. */
  ghost predicate RowsSay(table: seq<Row>, receipt: Receipt, decoded: Option<Decoded>, accept: int -> bool,
                          t: seq<Row>) {
    && |table| <= |t|
    && forall i :: 0 <= i < |table| ==>
         if table[i].tx != Some(receipt.tx) || !accept(table[i].id) then t[i] == table[i]
         else if !receipt.ok then OnlyPlaced(receipt, OtherStatus, table[i], t[i])
         else if decoded.None? then OnlyPlaced(receipt, Confirmed, table[i], t[i])
         else Says(table, receipt, decoded.value, table[i], t[i])
  }

  lemma NamedIsOwn(table: seq<Row>, tx: string, accept: int -> bool, i: nat)
    requires Ascending(table) && i < |table|
    ensures Named(RowsOf(table, tx, accept), table[i].id) <==> table[i].tx == Some(tx) && accept(table[i].id)
  {
    hide Filter;
    OwnRowsInTable(table, tx, accept);
    if Named(RowsOf(table, tx, accept), table[i].id) {
      var x :| x in RowsOf(table, tx, accept) && x.id == table[i].id;
      SameIdSame(table, x, table[i]);
    }
    assert table[i] in table;
  }

  /** Applying a receipt sets, in every accepted row of its transaction, status, place and
      time, and the columns of the first event for the row's kind and pair; all other rows
      stay as they were. */
  lemma AppliedRows(table: seq<Row>, nextId: int, receipt: Receipt, decoded: Option<Decoded>, accept: int -> bool)
    requires Ascending(table)
    ensures RowsSay(table, receipt, decoded, accept, ApplyReceipt(table, nextId, receipt, decoded, accept))
  {
    hide Filter, FinalizeRows, MineRows, SettleAll, Says, Named;
    var todo := RowsOf(table, receipt.tx, accept);
    OwnRowsInTable(table, receipt.tx, accept);
    forall i | 0 <= i < |table|
      ensures Named(todo, table[i].id) <==> table[i].tx == Some(receipt.tx) && accept(table[i].id)
    {
      NamedIsOwn(table, receipt.tx, accept, i);
    }
    if todo == [] {
      NoneNamed();
    } else if !receipt.ok {
      MinedRows(table, receipt, OtherStatus, todo);
    } else if decoded.None? {
      MinedRows(table, receipt, Confirmed, todo);
    } else {
      PassRows(table, receipt, decoded.value, todo);
    }
  }
}
