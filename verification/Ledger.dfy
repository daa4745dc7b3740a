/** Every table the program can reach, when each transaction has one receipt: replaying a
    receipt never changes it (tidal/operation_reconciler.py). */
module Ledger {
  import opened Common
  import opened Rounds
  import opened Baselines
  import opened KickTable
  import opened LinkLaws
  import opened Receipts
  import opened ReceiptLaws

  /** What the chain says of every transaction. */
  datatype ChainFacts = ChainFacts(mined: string -> Mining, events: string -> Decoded)

  datatype Book = Book(rows: seq<Row>, nextId: int)

  /** Ways the table is written: a row before its receipt, a receipt for some of its rows
      with or without its events, settlements met in the logs, rebuilt links, and marks. */
  datatype Entry =
    | Write(row: Row)
    | Apply(tx: string, decodes: bool, accept: int -> bool)
    | Observe(items: seq<CloseItem>)
    | Rebuild(pairs: seq<(string, string)>, rebuilt: seq<Row>)
    | Annotate(marked: seq<Row>)

  ghost predicate Allowed(b: Book, e: Entry) {
    match e
    case Write(row) => !row.status.Confirmed? && row.path.None?
    case Apply(_, _, _) => true
    case Observe(_) => true
    case Rebuild(pairs, rebuilt) => RelinkedAll(b.rows, rebuilt, pairs)
    case Annotate(marked) => Alike(marked, b.rows)
  }

  function EventsSeen(c: ChainFacts, tx: string, decodes: bool): Option<Decoded> {
    if decodes then Some(c.events(tx)) else None
  }

  function Written(c: ChainFacts, b: Book, e: Entry): seq<Row> {
    match e
    case Write(row) => b.rows + [row.(id := b.nextId)]
    case Apply(tx, decodes, accept) =>
      ApplyReceipt(b.rows, b.nextId, ReceiptOf(tx, c.mined(tx)), EventsSeen(c, tx, decodes), accept)
    case Observe(items) => SettleAll(b.rows, b.nextId, items)
    case Rebuild(_, rebuilt) => rebuilt
    case Annotate(marked) => marked
  }

  function After(c: ChainFacts, b: Book, e: Entry): Book {
    var rows := Written(c, b, e);
    Book(rows, b.nextId + |rows| - |b.rows|)
  }

  function History(c: ChainFacts, entries: seq<Entry>): Book {
    if |entries| == 0 then Book([], 1) else After(c, History(c, entries[..|entries| - 1]), entries[|entries| - 1])
  }

  ghost predicate Possible(c: ChainFacts, entries: seq<Entry>) {
    |entries| > 0 ==>
      && Possible(c, entries[..|entries| - 1])
      && Allowed(History(c, entries[..|entries| - 1]), entries[|entries| - 1])
  }

  /** A recorded path is the one the row's own receipt gives. */
  ghost predicate Recorded(c: ChainFacts, r: Row) {
    r.op.Resolve? && r.path.Some? ==>
      && r.tx.Some?
      && var e := FirstResolve(c.events(r.tx.value).resolves, r.auction, r.token);
         e.Some? && r.path == Some(e.value.path)
  }

  ghost predicate Consistent(c: ChainFacts, b: Book) {
    Ascending(b.rows) && Below(b.rows, b.nextId) && forall r :: r in b.rows ==> Recorded(c, r)
  }

  lemma SetSound(c: ChainFacts, b: Book, was: Row, row: Row)
    requires Consistent(c, b) && was in b.rows && row.id == was.id && Recorded(c, row)
    ensures Consistent(c, Book(SetRow(b.rows, row), b.nextId))
  {
    hide SetRow, Recorded;
    SetPresent(b.rows, row, was);
  }

  lemma FinalizedRecorded(c: ChainFacts, table: seq<Row>, tx: string, was: Row)
    requires Recorded(c, was) && was.tx == Some(tx)
    ensures Recorded(c, Finalized(table, ReceiptOf(tx, c.mined(tx)), c.events(tx), was))
  {
    hide LinkFor, FirstResolve, FirstKick, FirstSweep;
  }

  lemma {:induction false} PassSound(c: ChainFacts, b: Book, tx: string, todo: seq<Row>)
    requires Consistent(c, b) && InTable(b.rows, todo) && forall r :: r in todo ==> r.tx == Some(tx)
    ensures Consistent(c, Book(FinalizeRows(b.rows, ReceiptOf(tx, c.mined(tx)), c.events(tx), todo), b.nextId))
    decreases |todo|
  {
    if |todo| > 0 {
      var receipt, d := ReceiptOf(tx, c.mined(tx)), c.events(tx);
      hide Finalized, Recorded;
      assert todo[0] in todo && todo[0] in b.rows;
      Advance(b.rows, receipt, d, todo);
      FinalizedKeepsId(b.rows, receipt, d, todo[0]);
      FinalizedRecorded(c, b.rows, tx, todo[0]);
      SetSound(c, b, todo[0], Finalized(b.rows, receipt, d, todo[0]));
      hide Consistent, InTable;
      PassSound(c, Book(SetRow(b.rows, Finalized(b.rows, receipt, d, todo[0])), b.nextId), tx, todo[1..]);
    }
  }

  lemma {:induction false} MineSound(c: ChainFacts, b: Book, receipt: Receipt, status: Status, todo: seq<Row>)
    requires Consistent(c, b) && InTable(b.rows, todo)
    ensures Consistent(c, Book(MineRows(b.rows, receipt, status, todo), b.nextId))
    decreases |todo|
  {
    if |todo| > 0 {
      var row := Mined(todo[0], receipt, status);
      assert todo[0] in todo && todo[0] in b.rows && Recorded(c, todo[0]);
      SetPresent(b.rows, row, todo[0]);
      forall r | r in todo[1..] ensures r in b.rows && r.id != todo[0].id {
        var i :| 0 <= i < |todo[1..]| && todo[1..][i] == r;
        assert todo[i + 1] == r && r in todo;
      }
      SetSound(c, b, todo[0], row);
      hide Consistent, SetRow;
      MineSound(c, Book(SetRow(b.rows, row), b.nextId), receipt, status, todo[1..]);
    }
  }

  lemma AppendSound(c: ChainFacts, b: Book, row: Row)
    requires Consistent(c, b) && row.id == b.nextId && Recorded(c, row)
    ensures Consistent(c, Book(b.rows + [row], b.nextId + 1))
  {
    hide Recorded;
    assert forall i :: 0 <= i < |b.rows| ==> b.rows[i] in b.rows;
  }

  lemma {:induction false} SettleSound(c: ChainFacts, b: Book, items: seq<CloseItem>)
    requires Consistent(c, b)
    ensures var t := SettleAll(b.rows, b.nextId, items); Consistent(c, Book(t, b.nextId + |t| - |b.rows|))
    decreases |items|
  {
    hide LatestUnclosedKick, Consistent;
    if |items| > 0 {
      var close := NewClose(b.rows, items[0].receipt, items[0].d, items[0].e);
      if close.None? {
        SettleSound(c, b, items[1..]);
      } else {
        var row := close.value.(id := b.nextId);
        AppendSound(c, b, row);
        SettleSound(c, Book(b.rows + [row], b.nextId + 1), items[1..]);
      }
    } else {
      assert Book(b.rows, b.nextId) == b;
    }
  }

  lemma ApplySound(c: ChainFacts, b: Book, tx: string, decodes: bool, accept: int -> bool)
    requires Consistent(c, b)
    ensures Consistent(c, After(c, b, Apply(tx, decodes, accept)))
  {
    hide FinalizeRows, MineRows, SettleAll, RowsOf, Recorded;
    var receipt, todo := ReceiptOf(tx, c.mined(tx)), RowsOf(b.rows, tx, accept);
    OwnRowsInTable(b.rows, tx, accept);
    assert forall r :: r in todo ==> r.tx == Some(tx);
    hide Consistent, InTable;
    if todo == [] {
      assert After(c, b, Apply(tx, decodes, accept)) == b;
    } else if !receipt.ok {
      MineSound(c, b, receipt, OtherStatus, todo);
    } else if !decodes {
      MineSound(c, b, receipt, Confirmed, todo);
    } else {
      PassSound(c, b, tx, todo);
      SettleSound(c, Book(FinalizeRows(b.rows, receipt, c.events(tx), todo), b.nextId), ItemsOf(receipt, c.events(tx)));
    }
  }

  /** Entries that rewrite no id and no recorded path, row by row. */
  lemma RewriteSound(c: ChainFacts, b: Book, rows: seq<Row>)
    requires Consistent(c, b) && |rows| == |b.rows|
    requires forall i :: 0 <= i < |rows| ==> rows[i] == b.rows[i].(link := rows[i].link, baseline := rows[i].baseline)
    ensures Consistent(c, Book(rows, b.nextId))
  {
    forall i | 0 <= i < |rows| ensures Recorded(c, rows[i]) && rows[i].id == b.rows[i].id && rows[i].id < b.nextId {
      assert b.rows[i] in b.rows;
    }
  }

  lemma EntrySound(c: ChainFacts, b: Book, e: Entry)
    requires Consistent(c, b) && Allowed(b, e)
    ensures Consistent(c, After(c, b, e))
  {
    hide Consistent, After;
    match e
    case Write(row) => WriteSound(c, b, row);
    case Apply(tx, decodes, accept) => ApplySound(c, b, tx, decodes, accept);
    case Observe(items) => ObserveSound(c, b, items);
    case Rebuild(pairs, rebuilt) => RebuildSound(c, b, pairs, rebuilt);
    case Annotate(marked) => AnnotateSound(c, b, marked);
  }

  lemma ObserveSound(c: ChainFacts, b: Book, items: seq<CloseItem>)
    requires Consistent(c, b)
    ensures Consistent(c, After(c, b, Observe(items)))
  {
    hide Consistent, SettleAll;
    SettleSound(c, b, items);
  }

  lemma RebuildSound(c: ChainFacts, b: Book, pairs: seq<(string, string)>, rebuilt: seq<Row>)
    requires Consistent(c, b) && RelinkedAll(b.rows, rebuilt, pairs)
    ensures Consistent(c, After(c, b, Rebuild(pairs, rebuilt)))
  {
    hide Consistent;
    RewriteSound(c, b, rebuilt);
  }

  lemma AnnotateSound(c: ChainFacts, b: Book, marked: seq<Row>)
    requires Consistent(c, b) && Alike(marked, b.rows)
    ensures Consistent(c, After(c, b, Annotate(marked)))
  {
    hide Consistent;
    assert forall i :: 0 <= i < |marked| ==> Alike1(marked[i], b.rows[i]);
    RewriteSound(c, b, marked);
  }

  lemma WriteSound(c: ChainFacts, b: Book, row: Row)
    requires Consistent(c, b) && row.path.None?
    ensures Consistent(c, After(c, b, Write(row)))
  {
    hide Consistent;
    AppendSound(c, b, row.(id := b.nextId));
  }

  lemma {:induction false} HistorySound(c: ChainFacts, entries: seq<Entry>)
    requires Possible(c, entries)
    ensures Consistent(c, History(c, entries))
  {
    hide Allowed, After, Consistent;
    if |entries| > 0 {
      HistorySound(c, entries[..|entries| - 1]);
      EntrySound(c, History(c, entries[..|entries| - 1]), entries[|entries| - 1]);
    } else {
      EmptySound(c);
    }
  }

  lemma EmptySound(c: ChainFacts)
    ensures Consistent(c, Book([], 1))
  {
  }

  lemma PathsRecorded(c: ChainFacts, b: Book, tx: string, accept: int -> bool)
    requires Consistent(c, b)
    ensures PathsAgree(RowsOf(b.rows, tx, accept), c.events(tx))
  {
    hide RowsOf, FirstResolve;
    OwnRowsInTable(b.rows, tx, accept);
  }

  lemma AfterApply(c: ChainFacts, b: Book, tx: string, decodes: bool, accept: int -> bool)
    ensures var rows := ApplyReceipt(b.rows, b.nextId, ReceiptOf(tx, c.mined(tx)), EventsSeen(c, tx, decodes), accept);
            After(c, b, Apply(tx, decodes, accept)) == Book(rows, b.nextId + |rows| - |b.rows|)
  {
  }

  /** In every reachable table, whatever was applied before and in whatever order, applying
      a receipt again right after applying it changes no column and adds no row. */
  lemma ReplayChangesNothing(c: ChainFacts, entries: seq<Entry>, tx: string, decodes: bool, accept: int -> bool)
    requires Possible(c, entries)
    ensures var once := After(c, History(c, entries), Apply(tx, decodes, accept));
            After(c, once, Apply(tx, decodes, accept)) == once
  {
    var b, receipt := History(c, entries), ReceiptOf(tx, c.mined(tx));
    HistorySound(c, entries);
    var once := After(c, b, Apply(tx, decodes, accept));
    hide After, Written, ApplyReceipt, RowsOf, PathsAgree, History, Recorded, Ascending, Below, Possible;
    AfterApply(c, b, tx, decodes, accept);
    AfterApply(c, once, tx, decodes, accept);
    if receipt.ok && decodes {
      PathsRecorded(c, b, tx, accept);
      ReplayHarmless(b.rows, b.nextId, receipt, c.events(tx), accept, once.nextId);
    } else {
      PlainReplay(b.rows, b.nextId, receipt, EventsSeen(c, tx, decodes), accept, once.nextId);
    }
  }
}
