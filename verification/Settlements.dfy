/** Discovering settlements from chain logs (discover_direct_settlements in
    tidal/operation_reconciler.py): block windows, chain-ordered transactions, one close
    per unclosed kick. */
module Settlements {
  import opened Common
  import opened Rounds
  import opened KickTable
  import opened Receipts
  import opened ReceiptLaws

  const LOG_BLOCK_SPAN: nat := 50_000

  datatype Log = Log(tx: string, pos: Pos)

  /** What the chain answers: settlement logs of an auction in a block range (absent when
      the lookup fails), a transaction's decoded events for an auction (absent when its
      receipt cannot be fetched or decoded), and block times. */
  datatype ChainView = ChainView(
    logs: (string, nat, nat) -> Option<seq<Log>>,
    decode: (string, string) -> Option<Decoded>,
    minedAt: nat -> int)

  // ---------------------------------------------------------------- windows

  /** The block windows scanned from `start` to `latest`. */
  function Windows(start: nat, latest: nat): (w: seq<(nat, nat)>)
    decreases latest + 1 - start
  {
    if start > latest then []
    else
      var end := Min(start + LOG_BLOCK_SPAN - 1, latest);
      [(start, end)] + Windows(end + 1, latest)
  }

  /** The windows tile the range: they begin at its start, each picks up right after the
      one before, all but the last hold 50,000 blocks, and the last ends at the end. */
  lemma {:induction false} WindowsTile(start: nat, latest: nat)
    ensures var w := Windows(start, latest);
            && (|w| == 0 <==> start > latest)
            && (|w| > 0 ==> w[0].0 == start && w[|w| - 1].1 == latest)
            && (forall i :: 0 <= i < |w| ==> w[i].0 <= w[i].1 && w[i].1 - w[i].0 + 1 <= 50_000)
            && (forall i :: 0 <= i < |w| - 1 ==> w[i].1 - w[i].0 + 1 == 50_000)
            && (forall i :: 0 < i < |w| ==> w[i].0 == w[i - 1].1 + 1)
    decreases latest + 1 - start
  {
    if start <= latest {
      var end := Min(start + LOG_BLOCK_SPAN - 1, latest);
      WindowsTile(end + 1, latest);
      var rest := Windows(end + 1, latest);
      var w := Windows(start, latest);
      assert forall i :: 0 < i < |w| ==> w[i] == rest[i - 1];
      assert |rest| > 0 ==> end == start + 50_000 - 1;
    }
  }

  /** The logs of all windows in order, or nothing if one lookup fails. */
  function LogsOver(view: ChainView, auction: string, windows: seq<(nat, nat)>): Option<seq<Log>> {
    if |windows| == 0 then Some([])
    else
      var before := LogsOver(view, auction, windows[..|windows| - 1]);
      var last := windows[|windows| - 1];
      var chunk := view.logs(auction, last.0, last.1);
      if before.None? || chunk.None? then None else Some(before.value + chunk.value)
  }

  lemma {:induction false} FailureStays(view: ChainView, auction: string, windows: seq<(nat, nat)>, n: nat)
    requires n <= |windows| && LogsOver(view, auction, windows[..n]).None?
    ensures LogsOver(view, auction, windows).None?
    decreases |windows|
  {
    if n < |windows| {
      assert windows[..|windows| - 1][..n] == windows[..n];
      FailureStays(view, auction, windows[..|windows| - 1], n);
    } else {
      assert windows[..n] == windows;
    }
  }

  method CollectLogs(view: ChainView, auction: string, earliest: nat, latest: nat) returns (logs: Option<seq<Log>>)
    ensures logs == LogsOver(view, auction, Windows(earliest, latest))
  {
    var all: seq<Log> := [];
    var start: nat := earliest;
    ghost var w := Windows(earliest, latest);
    ghost var done: nat := 0;
    while start <= latest
      invariant done <= |w|
      invariant w[done..] == Windows(start, latest)
      invariant LogsOver(view, auction, w[..done]) == Some(all)
      decreases latest + 1 - start
    {
      var end := Min(start + LOG_BLOCK_SPAN - 1, latest);
      var chunk := view.logs(auction, start, end);
      assert w[done] == w[done..][0] == (start, end);
      assert w[..done + 1][..done] == w[..done];
      if chunk.None? {
        FailureStays(view, auction, w, done + 1);
        return None;
      }
      all := all + chunk.value;
      assert w[done + 1..] == w[done..][1..];
      start := end + 1;
      done := done + 1;
    }
    assert w[..done] == w;
    return Some(all);
  }

  ghost predicate BlockOrdered(logs: seq<Log>) {
    forall i, j :: 0 <= i < j < |logs| ==> logs[i].pos.block <= logs[j].pos.block
  }

  function InBlocks(lo: int, hi: int): Log -> bool {
    (l: Log) => lo <= l.pos.block <= hi
  }

  /** A node that answers each range with exactly its logs of that range. */
  ghost predicate Honest(view: ChainView, auction: string, chain: seq<Log>) {
    forall lo: nat, hi: nat :: view.logs(auction, lo, hi) == Some(Filter(InBlocks(lo, hi), chain))
  }

  lemma {:induction false} AdjacentRanges(chain: seq<Log>, lo: int, mid: int, hi: int)
    requires BlockOrdered(chain) && lo <= mid + 1 && mid <= hi
    ensures Filter(InBlocks(lo, hi), chain) == Filter(InBlocks(lo, mid), chain) + Filter(InBlocks(mid + 1, hi), chain)
  {
    if |chain| > 0 {
      var init, last := chain[..|chain| - 1], chain[|chain| - 1];
      AdjacentRanges(init, lo, mid, hi);
      if lo <= last.pos.block <= mid {
        forall l | l in init ensures !InBlocks(mid + 1, hi)(l) {
          var i :| 0 <= i < |init| && init[i] == l;
          assert chain[i].pos.block <= chain[|chain| - 1].pos.block;
        }
        FilterNone(InBlocks(mid + 1, hi), init);
      }
    }
  }

  lemma {:induction false} FilterNone(p: Log -> bool, s: seq<Log>)
    requires forall l :: l in s ==> !p(l)
    ensures Filter(p, s) == []
  {
    if |s| > 0 {
      FilterNone(p, s[..|s| - 1]);
    }
  }

  lemma {:induction false} WindowLogs(view: ChainView, auction: string, chain: seq<Log>, earliest: nat,
      latest: nat, n: nat)
    requires BlockOrdered(chain) && Honest(view, auction, chain)
    requires 0 < n <= |Windows(earliest, latest)|
    ensures LogsOver(view, auction, Windows(earliest, latest)[..n])
            == Some(Filter(InBlocks(earliest, Windows(earliest, latest)[n - 1].1), chain))
    decreases n
  {
    var w := Windows(earliest, latest);
    WindowsTile(earliest, latest);
    assert w[..n][..n - 1] == w[..n - 1];
    var last := w[n - 1];
    assert view.logs(auction, last.0, last.1) == Some(Filter(InBlocks(last.0, last.1), chain));
    if n > 1 {
      WindowLogs(view, auction, chain, earliest, latest, n - 1);
      WindowStart(earliest, latest, n - 1);
      AdjacentRanges(chain, earliest, w[n - 2].1, last.1);
    } else {
      assert w[..0] == [];
      assert LogsOver(view, auction, w[..0]) == Some([]);
      var chunk := Filter(InBlocks(last.0, last.1), chain);
      assert [] + chunk == chunk;
    }
  }

  lemma {:induction false} WindowStart(earliest: nat, latest: nat, i: nat)
    requires i < |Windows(earliest, latest)|
    ensures earliest <= Windows(earliest, latest)[i].0
    decreases i
  {
    WindowsTile(earliest, latest);
    if i > 0 {
      WindowStart(earliest, latest, i - 1);
    }
  }

  /** Scanning window by window sees every log of the range exactly once, in order. */
  lemma WindowsCover(view: ChainView, auction: string, chain: seq<Log>, earliest: nat, latest: nat)
    requires BlockOrdered(chain) && Honest(view, auction, chain) && earliest <= latest
    ensures LogsOver(view, auction, Windows(earliest, latest)) == Some(Filter(InBlocks(earliest, latest), chain))
  {
    var w := Windows(earliest, latest);
    WindowsTile(earliest, latest);
    WindowLogs(view, auction, chain, earliest, latest, |w|);
    assert w[..|w|] == w;
  }

  // ---------------------------------------------------- transactions in order

  /** The transactions of the logs, each once at its last reported position. */
  function PutTx(txs: seq<Log>, l: Log): (s: seq<Log>) {
    if |txs| == 0 then [l]
    else if txs[0].tx == l.tx then [l] + txs[1..]
    else [txs[0]] + PutTx(txs[1..], l)
  }

  function Transactions(logs: seq<Log>): seq<Log> {
    if |logs| == 0 then [] else PutTx(Transactions(logs[..|logs| - 1]), logs[|logs| - 1])
  }

  function InsertByPos(s: seq<Log>, l: Log): seq<Log> {
    if |s| == 0 || l.pos.Before(s[0].pos) then [l] + s else [s[0]] + InsertByPos(s[1..], l)
  }

  function SortByPos(s: seq<Log>): seq<Log> {
    if |s| == 0 then [] else InsertByPos(SortByPos(s[..|s| - 1]), s[|s| - 1])
  }

  /** The last log of its transaction. */
  ghost predicate LastReport(logs: seq<Log>, x: Log) {
    exists i :: 0 <= i < |logs| && logs[i] == x && forall j :: i < j < |logs| ==> logs[j].tx != x.tx
  }

  lemma LastReportStep(logs: seq<Log>, l: Log, x: Log)
    ensures LastReport(logs + [l], x) <==> x == l || (LastReport(logs, x) && x.tx != l.tx)
  {
    var more := logs + [l];
    if LastReport(logs, x) && x.tx != l.tx {
      var i :| 0 <= i < |logs| && logs[i] == x && forall j :: i < j < |logs| ==> logs[j].tx != x.tx;
      assert more[i] == x;
    }
    if x == l {
      assert more[|logs|] == x;
    }
    if LastReport(more, x) && x != l {
      var i :| 0 <= i < |more| && more[i] == x && forall j :: i < j < |more| ==> more[j].tx != x.tx;
      assert logs[i] == x && more[|logs|] == l;
      assert forall j :: i < j < |logs| ==> more[j] == logs[j];
    }
  }

  ghost predicate DistinctTxs(txs: seq<Log>) {
    forall i, j :: 0 <= i < j < |txs| ==> txs[i].tx != txs[j].tx
  }

  /** Putting a transaction keeps the others and moves this one to its new position. */
  lemma {:induction false} PutTxMembers(txs: seq<Log>, l: Log, x: Log)
    requires DistinctTxs(txs)
    ensures x in PutTx(txs, l) <==> x == l || (x in txs && x.tx != l.tx)
  {
    if |txs| > 0 {
      assert txs == [txs[0]] + txs[1..];
      if txs[0].tx != l.tx {
        PutTxMembers(txs[1..], l, x);
      } else if x in txs[1..] {
        var j :| 0 <= j < |txs[1..]| && txs[1..][j] == x;
        assert txs[j + 1] == x;
      }
    }
  }

  lemma {:induction false} PutTxDistinct(txs: seq<Log>, l: Log)
    requires DistinctTxs(txs)
    ensures DistinctTxs(PutTx(txs, l))
  {
    if |txs| > 0 && txs[0].tx != l.tx {
      PutTxDistinct(txs[1..], l);
      var rest := PutTx(txs[1..], l);
      forall j | 0 <= j < |rest| ensures rest[j].tx != txs[0].tx {
        PutTxMembers(txs[1..], l, rest[j]);
        assert rest[j] in rest;
        if rest[j] in txs[1..] {
          var k :| 0 <= k < |txs[1..]| && txs[1..][k] == rest[j];
          assert txs[k + 1] == rest[j];
        }
      }
    }
  }

  /** Each transaction is looked at once, at the position its last log reports. */
  lemma {:induction false} TransactionsOnce(logs: seq<Log>)
    ensures DistinctTxs(Transactions(logs))
    ensures forall x :: x in Transactions(logs) <==> LastReport(logs, x)
  {
    if |logs| > 0 {
      var init, l := logs[..|logs| - 1], logs[|logs| - 1];
      assert logs == init + [l];
      TransactionsOnce(init);
      PutTxDistinct(Transactions(init), l);
      hide DistinctTxs, LastReport, PutTx;
      forall x ensures x in Transactions(logs) <==> LastReport(logs, x) {
        PutTxMembers(Transactions(init), l, x);
        LastReportStep(init, l, x);
      }
    }
  }

  ghost predicate ByPos(s: seq<Log>) {
    forall i, j :: 0 <= i < j < |s| ==> !s[j].pos.Before(s[i].pos)
  }

  lemma InsertByPosMembers(s: seq<Log>, l: Log)
    ensures multiset(InsertByPos(s, l)) == multiset(s) + multiset{l}
  {
    if |s| > 0 && !l.pos.Before(s[0].pos) {
      assert s == [s[0]] + s[1..];
      InsertByPosMembers(s[1..], l);
    }
  }

  lemma {:induction false} InsertByPosSorts(s: seq<Log>, l: Log)
    requires ByPos(s)
    ensures ByPos(InsertByPos(s, l))
  {
    if |s| > 0 && !l.pos.Before(s[0].pos) {
      InsertByPosSorts(s[1..], l);
      InsertByPosMembers(s[1..], l);
      var rest := InsertByPos(s[1..], l);
      forall j | 0 <= j < |rest| ensures !rest[j].pos.Before(s[0].pos) {
        assert rest[j] in multiset(rest);
        assert rest[j] == l || rest[j] in s[1..];
      }
    } else if |s| > 0 {
      forall j | 0 <= j < |s| ensures !s[j].pos.Before(l.pos) {
        assert j > 0 ==> !s[j].pos.Before(s[0].pos);
      }
    }
  }

  /** Transactions are handled in chain order. */
  lemma {:induction false} SortByPosSorts(s: seq<Log>)
    ensures ByPos(SortByPos(s)) && multiset(SortByPos(s)) == multiset(s)
  {
    if |s| > 0 {
      var n := |s| - 1;
      SortByPosSorts(s[..n]);
      InsertByPosSorts(SortByPos(s[..n]), s[n]);
      InsertByPosMembers(SortByPos(s[..n]), s[n]);
      assert s == s[..n] + [s[n]];
    }
  }

  // ------------------------------------------------------------- discovery

  predicate Wanted(pairs: Option<set<(string, string)>>, auction: string, e: SettlementEvent) {
    e.auction == auction && (pairs.None? || (e.auction, e.token) in pairs.value)
  }

  /** The settlement events of one transaction that may close a round of this auction. */
  function ItemsOfTx(view: ChainView, pairs: Option<set<(string, string)>>, auction: string, l: Log): seq<CloseItem> {
    var d := view.decode(l.tx, auction);
    if d.None? then []
    else Filter((it: CloseItem) => Wanted(pairs, auction, it.e),
                ItemsOf(Receipt(l.tx, true, l.pos, view.minedAt(l.pos.block)), d.value))
  }

  function ItemsOfTxs(view: ChainView, pairs: Option<set<(string, string)>>, auction: string,
      txs: seq<Log>): seq<CloseItem> {
    if |txs| == 0 then []
    else ItemsOfTxs(view, pairs, auction, txs[..|txs| - 1]) + ItemsOfTx(view, pairs, auction, txs[|txs| - 1])
  }

  /** A confirmed placed kick whose pair is being repaired. */
  predicate Anchors(pairs: Option<set<(string, string)>>, k: Row) {
    k.op.Kick? && k.status.Confirmed? && k.Position().Some? && (pairs.None? || (k.auction, k.token) in pairs.value)
  }

  function AnchorTest(pairs: Option<set<(string, string)>>): Row -> bool {
    (k: Row) => Anchors(pairs, k)
  }

  function Auctions(kicks: seq<Row>): seq<string> {
    if |kicks| == 0 then []
    else
      var before := Auctions(kicks[..|kicks| - 1]);
      if kicks[|kicks| - 1].auction in before then before else before + [kicks[|kicks| - 1].auction]
  }

  /** The earliest block of an auction's kicks, or `fallback` if it has none. */
  function EarliestBlock(kicks: seq<Row>, auction: string, fallback: nat): nat {
    if |kicks| == 0 then fallback
    else
      var before := EarliestBlock(kicks[..|kicks| - 1], auction, fallback);
      var k := kicks[|kicks| - 1];
      if k.auction == auction && k.block.Some? && k.block.value < before then k.block.value else before
  }

  predicate HasAuction(kicks: seq<Row>, auction: string) {
    exists k :: k in kicks && k.auction == auction
  }

  ghost predicate DistinctNames(names: seq<string>) {
    forall i, j :: 0 <= i < j < |names| ==> names[i] != names[j]
  }

  lemma NewName(names: seq<string>, name: string)
    requires DistinctNames(names) && name !in names
    ensures DistinctNames(names + [name])
  {
  }

  /** Every auction of the kicks is visited once. */
  lemma {:induction false} AuctionsOnce(kicks: seq<Row>)
    ensures DistinctNames(Auctions(kicks))
    ensures forall x :: x in Auctions(kicks) <==> HasAuction(kicks, x)
  {
    if |kicks| > 0 {
      var init, last := kicks[..|kicks| - 1], kicks[|kicks| - 1];
      AuctionsOnce(init);
      assert kicks == init + [last];
      forall x ensures HasAuction(kicks, x) <==> HasAuction(init, x) || x == last.auction {
        assert last in kicks;
      }
      if last.auction !in Auctions(init) {
        NewName(Auctions(init), last.auction);
      }
    }
  }

  /** The scan of an auction starts at its earliest kick, if that is mined by now. */
  lemma {:induction false} EarliestIsLeast(kicks: seq<Row>, auction: string, fallback: nat)
    ensures var b := EarliestBlock(kicks, auction, fallback);
            && b <= fallback
            && (forall k :: k in kicks && k.auction == auction && k.block.Some? ==> b <= k.block.value)
            && (b < fallback ==> exists k :: k in kicks && k.auction == auction && k.block == Some(b))
  {
    if |kicks| > 0 {
      var n := |kicks| - 1;
      EarliestIsLeast(kicks[..n], auction, fallback);
      assert kicks == kicks[..n] + [kicks[n]];
    }
  }

  function ItemsOfAuction(view: ChainView, pairs: Option<set<(string, string)>>, kicks: seq<Row>, latest: nat,
      auction: string)
      : seq<CloseItem>
  {
    var logs := LogsOver(view, auction, Windows(EarliestBlock(kicks, auction, latest + 1), latest));
    if logs.None? then [] else ItemsOfTxs(view, pairs, auction, SortByPos(Transactions(logs.value)))
  }

  function ItemsOfAuctions(view: ChainView, pairs: Option<set<(string, string)>>, kicks: seq<Row>, latest: nat,
      auctions: seq<string>)
      : seq<CloseItem>
  {
    if |auctions| == 0 then []
    else ItemsOfAuctions(view, pairs, kicks, latest, auctions[..|auctions| - 1])
         + ItemsOfAuction(view, pairs, kicks, latest, auctions[|auctions| - 1])
  }

  /** Every settlement event the scan looks at, in the order it looks at them. */
  function Discovered(rows: seq<Row>, view: ChainView, pairs: Option<set<(string, string)>>,
      latest: nat): seq<CloseItem> {
    var kicks := Filter(AnchorTest(pairs), rows);
    ItemsOfAuctions(view, pairs, kicks, latest, Auctions(kicks))
  }

  lemma {:induction false} SettleConcat(table: seq<Row>, nextId: int, xs: seq<CloseItem>, ys: seq<CloseItem>)
    ensures var t := SettleAll(table, nextId, xs);
            SettleAll(table, nextId, xs + ys) == SettleAll(t, nextId + |t| - |table|, ys)
    decreases |xs|
  {
    hide NewClose;
    if |xs| == 0 {
      assert xs + ys == ys;
    } else {
      assert (xs + ys)[1..] == xs[1..] + ys && (xs + ys)[0] == xs[0];
      var close := NewClose(table, xs[0].receipt, xs[0].d, xs[0].e);
      if close.None? {
        SettleConcat(table, nextId, xs[1..], ys);
      } else {
        SettleConcat(table + [close.value.(id := nextId)], nextId + 1, xs[1..], ys);
      }
    }
  }

  /** The events of one transaction, applied to the table in place. */
  method SettleTx(table: KickTxTable, items: seq<CloseItem>)
    requires table.Valid()
    modifies table
    ensures table.Valid()
    ensures table.rows == SettleAll(old(table.rows), old(table.nextId), items)
    ensures table.nextId == old(table.nextId) + |table.rows| - |old(table.rows)|
  {
    hide NewClose;
    for i := 0 to |items|
      invariant table.Valid()
      invariant |table.rows| >= |old(table.rows)|
          && table.nextId == old(table.nextId) + |table.rows| - |old(table.rows)|
      invariant SettleAll(old(table.rows), old(table.nextId), items) == SettleAll(table.rows, table.nextId, items[i..])
    {
      assert items[i..][0] == items[i] && items[i..][1..] == items[i + 1..];
      var close := NewClose(table.rows, items[i].receipt, items[i].d, items[i].e);
      if close.Some? {
        var _ := table.Insert(close.value);
      }
    }
    assert items[|items|..] == [];
  }

  /** The scan: auction by auction, window by window, transaction by transaction, inserting
      each missing close as it is met. */
  method DiscoverDirectSettlements(table: KickTxTable, view: ChainView, pairs: Option<set<(string, string)>>,
      latest: nat)
    requires table.Valid()
    modifies table
    ensures table.Valid()
    ensures table.rows == SettleAll(old(table.rows), old(table.nextId),
                                     Discovered(old(table.rows), view, pairs, latest))
  {
    hide Filter, Auctions, EarliestBlock, SettleAll, LogsOver, ItemsOfTx, SortByPos, Transactions;
    ghost var rows0, id0 := table.rows, table.nextId;
    var kicks := Filter(AnchorTest(pairs), table.rows);
    var auctions := Auctions(kicks);
    ghost var done: seq<CloseItem> := [];
    SettleNothing(rows0, id0);
    for a := 0 to |auctions|
      invariant table.Valid()
      invariant done == ItemsOfAuctions(view, pairs, kicks, latest, auctions[..a])
      invariant table.rows == SettleAll(rows0, id0, done) && table.nextId == id0 + |table.rows| - |rows0|
    {
      var auction := auctions[a];
      assert auctions[..a + 1][..a] == auctions[..a];
      var logs := CollectLogs(view, auction, EarliestBlock(kicks, auction, latest + 1), latest);
      if logs.None? {
        assert done + [] == done;
        continue;
      }
      var txs := SortByPos(Transactions(logs.value));
      ghost var before := done;
      assert before + [] == before;
      for t := 0 to |txs|
        invariant table.Valid()
        invariant done == before + ItemsOfTxs(view, pairs, auction, txs[..t])
        invariant table.rows == SettleAll(rows0, id0, done) && table.nextId == id0 + |table.rows| - |rows0|
      {
        assert txs[..t + 1][..t] == txs[..t];
        var items := ItemsOfTx(view, pairs, auction, txs[t]);
        SettleConcat(rows0, id0, done, items);
        SettleTx(table, items);
        done := done + items;
        assert done == before + ItemsOfTxs(view, pairs, auction, txs[..t + 1]);
      }
      assert txs[..|txs|] == txs;
    }
    assert auctions[..|auctions|] == auctions;
  }

  lemma SettleNothing(rows: seq<Row>, nextId: int)
    ensures SettleAll(rows, nextId, []) == rows
  {
  }

  // ------------------------------------------------------------- guarantees

  /** A confirmed close that names a kick. */
  predicate NamesKick(r: Row) {
    r.status.Confirmed? && r.ClosesRound() && r.link.Some? && !r.op.OtherOp?
  }

  /** No kick of a pair has two confirmed closes. */
  ghost predicate SingleCloses(rows: seq<Row>) {
    forall i, j :: 0 <= i < j < |rows| && NamesKick(rows[i]) && NamesKick(rows[j])
                   && rows[i].auction == rows[j].auction && rows[i].token == rows[j].token ==>
      rows[i].link != rows[j].link
  }

  /** Some confirmed kick of the row's pair, strictly earlier on chain, is the one it closes. */
  ghost predicate ClosesEarlierKick(rows: seq<Row>, r: Row) {
    exists k :: k in rows && OfPair(k, r.auction, r.token) && k.op.Kick? && k.status.Confirmed? && r.link == Some(k.id)
                && k.Position().Some? && r.Position().Some? && k.Position().value.Before(r.Position().value)
  }

  /** Every row after the first `n` closes a kick strictly before it. */
  ghost predicate LaterRowsClose(t: seq<Row>, n: nat) {
    forall i :: n <= i < |t| ==> NamesKick(t[i]) && ClosesEarlierKick(t, t[i])
  }

  /** Inserting settlements keeps closes single, and each inserted close is strictly after
      the kick it closes. */
  lemma {:induction false} SettleKeepsSingle(table: seq<Row>, nextId: int, items: seq<CloseItem>)
    ensures var t := SettleAll(table, nextId, items);
            table <= t && (SingleCloses(table) ==> SingleCloses(t)) && LaterRowsClose(t, |table|)
    decreases |items|
  {
    hide SingleCloses, ClosesEarlierKick, NewClose, NamesKick;
    if |items| > 0 {
      var it := items[0];
      var close := NewClose(table, it.receipt, it.d, it.e);
      if close.None? {
        SettleKeepsSingle(table, nextId, items[1..]);
      } else {
        var r := close.value.(id := nextId);
        var more := table + [r];
        NewCloseFits(table, it, r);
        SettleKeepsSingle(more, nextId + 1, items[1..]);
        var t := SettleAll(table, nextId, items);
        assert t == SettleAll(more, nextId + 1, items[1..]);
        assert t[|table|] == more[|table|];
        assert table <= t;
        EarlierKickStays(table, t, r);
      }
    }
  }

  lemma NewCloseFits(table: seq<Row>, it: CloseItem, r: Row)
    requires var close := NewClose(table, it.receipt, it.d, it.e); close.Some? && r == close.value.(id := r.id)
    ensures SingleCloses(table) ==> SingleCloses(table + [r])
    ensures NamesKick(r) && ClosesEarlierKick(table, r)
  {
    hide LatestUnclosedKick;
    var k := LatestUnclosedKick(table, it.e.auction, it.e.token, Some(it.receipt.pos)).value;
    assert Candidate(table, it.e.auction, it.e.token, Some(it.receipt.pos), k);
    forall i | 0 <= i < |table| && NamesKick(table[i]) && table[i].auction == r.auction && table[i].token == r.token
      ensures table[i].link != r.link
    {
      assert table[i] in table;
    }
  }

  lemma EarlierKickStays(table: seq<Row>, t: seq<Row>, r: Row)
    requires table <= t && ClosesEarlierKick(table, r)
    ensures ClosesEarlierKick(t, r)
  {
  }

  lemma {:induction false} FilterPrefixOnly(p: Row -> bool, table: seq<Row>, t: seq<Row>)
    requires table <= t && forall i :: |table| <= i < |t| ==> !p(t[i])
    ensures Filter(p, t) == Filter(p, table)
    decreases |t|
  {
    if |t| > |table| {
      FilterPrefixOnly(p, table, t[..|t| - 1]);
    } else {
      assert t == table;
    }
  }

  /** Scanning again over the same chain inserts nothing. */
  lemma DiscoveryIdempotent(rows: seq<Row>, nextId: int, view: ChainView, pairs: Option<set<(string, string)>>,
      latest: nat, again: int)
    ensures var once := SettleAll(rows, nextId, Discovered(rows, view, pairs, latest));
            SettleAll(once, again, Discovered(once, view, pairs, latest)) == once
  {
    hide Filter, NewClose, ItemsOfAuctions, Auctions;
    var items := Discovered(rows, view, pairs, latest);
    var once := SettleAll(rows, nextId, items);
    SettleAddsCloses(rows, nextId, items);
    FilterPrefixOnly(AnchorTest(pairs), rows, once);
    forall it | it in items ensures NewClose(once, it.receipt, it.d, it.e).None? {
      SettleExhausts(rows, nextId, items, it);
    }
    SettleIsIdentityIff(once, again, items);
  }

  // ------------------------------------------------- what a scan looks at

  /** The scan of an auction looks at this transaction, at the position its last settlement
      log reports, and gets these events for it. */
  ghost predicate Scanned(rows: seq<Row>, view: ChainView, pairs: Option<set<(string, string)>>, latest: nat,
                          auction: string, l: Log, d: Decoded) {
    var kicks := Filter(AnchorTest(pairs), rows);
    var logs := LogsOver(view, auction, Windows(EarliestBlock(kicks, auction, latest + 1), latest));
    && HasAuction(kicks, auction) && logs.Some? && LastReport(logs.value, l) && view.decode(l.tx, auction) == Some(d)
  }

  /** An auction is scanned exactly for a confirmed kick of a pair asked for with a place on
      chain, and from no later than the block of any such kick of its. */
  lemma AuctionScanned(rows: seq<Row>, pairs: Option<set<(string, string)>>, auction: string, fallback: nat)
    ensures var kicks := Filter(AnchorTest(pairs), rows);
            && (HasAuction(kicks, auction) <==> exists k :: k in rows && Anchor(pairs, auction, k))
            && forall k :: k in rows && Anchor(pairs, auction, k) ==>
                 EarliestBlock(kicks, auction, fallback) <= k.block.value
  {
    var kicks := Filter(AnchorTest(pairs), rows);
    EarliestIsLeast(kicks, auction, fallback);
    forall k ensures k in kicks && k.auction == auction <==> k in rows && Anchor(pairs, auction, k) {
      assert AnchorTest(pairs)(k) == Anchors(pairs, k);
    }
    hide Filter, EarliestBlock;
    if HasAuction(kicks, auction) {
      var k :| k in kicks && k.auction == auction;
      assert Anchor(pairs, auction, k);
    }
  }

  predicate Anchor(pairs: Option<set<(string, string)>>, auction: string, k: Row) {
    && k.op == Kick && k.status == Confirmed && k.block.Some? && k.txIndex.Some? && k.auction == auction
    && (pairs.Some? ==> (auction, k.token) in pairs.value)
  }

  /** The item is a settlement event of that transaction, for this auction and a pair asked
      for. */
  predicate ItemFor(view: ChainView, pairs: Option<set<(string, string)>>, auction: string, l: Log, d: Decoded,
                    it: CloseItem) {
    && it.receipt.tx == l.tx && it.receipt.ok && it.receipt.pos == l.pos
    && it.receipt.minedAt == view.minedAt(l.pos.block)
    && it.d == d && it.e in d.settlements && it.e.auction == auction
    && (pairs.Some? ==> (auction, it.e.token) in pairs.value)
  }

  lemma ItemsOfTxAre(view: ChainView, pairs: Option<set<(string, string)>>, auction: string, l: Log, it: CloseItem)
    ensures it in ItemsOfTx(view, pairs, auction, l) <==>
            view.decode(l.tx, auction).Some? && ItemFor(view, pairs, auction, l, view.decode(l.tx, auction).value, it)
  {
    var d := view.decode(l.tx, auction);
    if d.Some? {
      var receipt := Receipt(l.tx, true, l.pos, view.minedAt(l.pos.block));
      if ItemFor(view, pairs, auction, l, d.value, it) {
        var i :| 0 <= i < |d.value.settlements| && d.value.settlements[i] == it.e;
        assert ItemsOf(receipt, d.value)[i] == it;
      }
    }
  }

  lemma {:induction false} ItemsOfTxsAre(view: ChainView, pairs: Option<set<(string, string)>>, auction: string,
      txs: seq<Log>, it: CloseItem)
    ensures it in ItemsOfTxs(view, pairs, auction, txs) <==>
            exists l :: l in txs && it in ItemsOfTx(view, pairs, auction, l)
  {
    hide ItemsOfTx;
    if |txs| > 0 {
      ItemsOfTxsAre(view, pairs, auction, txs[..|txs| - 1], it);
      assert txs == txs[..|txs| - 1] + [txs[|txs| - 1]];
    }
  }

  lemma {:induction false} ItemsOfAuctionsAre(view: ChainView, pairs: Option<set<(string, string)>>, kicks: seq<Row>,
      latest: nat, auctions: seq<string>, it: CloseItem)
    ensures it in ItemsOfAuctions(view, pairs, kicks, latest, auctions) <==>
            exists a :: a in auctions && it in ItemsOfAuction(view, pairs, kicks, latest, a)
  {
    hide ItemsOfAuction;
    if |auctions| > 0 {
      ItemsOfAuctionsAre(view, pairs, kicks, latest, auctions[..|auctions| - 1], it);
      assert auctions == auctions[..|auctions| - 1] + [auctions[|auctions| - 1]];
    }
  }

  lemma SortedMembers(txs: seq<Log>)
    ensures forall l :: l in SortByPos(txs) <==> l in txs
  {
    SortByPosSorts(txs);
    hide SortByPos;
    forall l ensures l in SortByPos(txs) <==> l in txs {
      assert l in multiset(SortByPos(txs)) <==> l in multiset(txs);
    }
  }

  /** Discovery looks at exactly the settlement events, for pairs asked for, of the
      transactions scanned for an auction with a placed confirmed kick of such a pair. */
  lemma DiscoveredIff(rows: seq<Row>, view: ChainView, pairs: Option<set<(string, string)>>, latest: nat,
      it: CloseItem)
    ensures it in Discovered(rows, view, pairs, latest) <==>
            exists l :: Scanned(rows, view, pairs, latest, it.e.auction, l, it.d)
                        && ItemFor(view, pairs, it.e.auction, l, it.d, it)
  {
    var kicks := Filter(AnchorTest(pairs), rows);
    AuctionsOnce(kicks);
    hide Filter, Auctions, EarliestBlock, LogsOver, Windows, SortByPos, Transactions, ItemsOfTxs, ItemsOfAuctions,
         LastReport, ItemsOfTx, HasAuction;
    ItemsOfAuctionsAre(view, pairs, kicks, latest, Auctions(kicks), it);
    forall a ensures it in ItemsOfAuction(view, pairs, kicks, latest, a) && HasAuction(kicks, a) <==>
                     a == it.e.auction && exists l :: Scanned(rows, view, pairs, latest, a, l, it.d)
                                                      && ItemFor(view, pairs, a, l, it.d, it)
    {
      AuctionItems(rows, view, pairs, latest, a, it);
    }
  }

  lemma AuctionItems(rows: seq<Row>, view: ChainView, pairs: Option<set<(string, string)>>, latest: nat, a: string,
      it: CloseItem)
    ensures var kicks := Filter(AnchorTest(pairs), rows);
            it in ItemsOfAuction(view, pairs, kicks, latest, a) && HasAuction(kicks, a) <==>
            a == it.e.auction && exists l :: Scanned(rows, view, pairs, latest, a, l, it.d)
                                             && ItemFor(view, pairs, a, l, it.d, it)
  {
    hide Filter, Auctions, EarliestBlock, LogsOver, Windows, SortByPos, Transactions, ItemsOfTxs, LastReport,
         ItemsOfTx, HasAuction;
    var kicks := Filter(AnchorTest(pairs), rows);
    var logs := LogsOver(view, a, Windows(EarliestBlock(kicks, a, latest + 1), latest));
    if logs.Some? {
      var txs := SortByPos(Transactions(logs.value));
      TransactionsOnce(logs.value);
      SortedMembers(Transactions(logs.value));
      ItemsOfTxsAre(view, pairs, a, txs, it);
      forall l ensures it in ItemsOfTx(view, pairs, a, l) <==>
                       view.decode(l.tx, a).Some? && ItemFor(view, pairs, a, l, view.decode(l.tx, a).value, it)
      {
        ItemsOfTxAre(view, pairs, a, l, it);
      }
    }
  }

  // ------------------------------------------------------ what a scan settles

  /** Each close added names a kick that had none before. */
  ghost predicate OpenBeforehand(table: seq<Row>, r: Row) {
    r.link.Some? && !HasConfirmedClose(table, r.auction, r.token, r.link.value)
  }

  ghost predicate AddedOpen(table: seq<Row>, n: nat, t: seq<Row>) {
    forall i :: n <= i < |t| ==> OpenBeforehand(table, t[i])
  }

  lemma {:induction false} SettleClosesOpen(table: seq<Row>, nextId: int, items: seq<CloseItem>)
    ensures AddedOpen(table, |table|, SettleAll(table, nextId, items))
    decreases |items|
  {
    hide NewClose, OpenBeforehand;
    if |items| > 0 {
      var it, t := items[0], SettleAll(table, nextId, items);
      var close := NewClose(table, it.receipt, it.d, it.e);
      if close.None? {
        SettleClosesOpen(table, nextId, items[1..]);
      } else {
        var r := close.value.(id := nextId);
        SettleClosesOpen(table + [r], nextId + 1, items[1..]);
        NewCloseOpen(table, it, r);
        assert t[|table|] == (table + [r])[|table|];
        forall i | |table| < i < |t| ensures OpenBeforehand(table, t[i]) {
          ClosesStay(table, table + [r], t[i]);
        }
      }
    }
  }

  lemma NewCloseOpen(table: seq<Row>, it: CloseItem, r: Row)
    requires var close := NewClose(table, it.receipt, it.d, it.e); close.Some? && r == close.value.(id := r.id)
    ensures OpenBeforehand(table, r)
  {
    hide LatestUnclosedKick;
  }

  lemma ClosesStay(table: seq<Row>, more: seq<Row>, r: Row)
    requires table <= more && OpenBeforehand(more, r)
    ensures OpenBeforehand(table, r)
  {
  }

  /** A row a scan inserts: the zero-amount close of a settlement event, for a pair asked
      for, of a transaction scanned for its auction and not resolved in it; it closes a
      kick that had no close. */
  ghost predicate Inserted(rows: seq<Row>, view: ChainView, pairs: Option<set<(string, string)>>, latest: nat,
                           r: Row) {
    && (pairs.Some? ==> (r.auction, r.token) in pairs.value)
    && OpenBeforehand(rows, r)
    && exists l, d :: Scanned(rows, view, pairs, latest, r.auction, l, d)
                      && AddedClose(Receipt(l.tx, true, l.pos, view.minedAt(l.pos.block)), d, r)
  }

  lemma ScanInserts(rows: seq<Row>, nextId: int, view: ChainView, pairs: Option<set<(string, string)>>, latest: nat)
    requires Ascending(rows) && Below(rows, nextId)
    ensures var t := SettleAll(rows, nextId, Discovered(rows, view, pairs, latest));
            rows <= t && forall i :: |rows| <= i < |t| ==> Inserted(rows, view, pairs, latest, t[i])
  {
    var items := Discovered(rows, view, pairs, latest);
    var t := SettleAll(rows, nextId, items);
    hide Discovered, Scanned, SettleAll, AddedClose, OpenBeforehand;
    forall it | it in items ensures it.e in it.d.settlements {
      DiscoveredIff(rows, view, pairs, latest, it);
    }
    SettleAdds(rows, nextId, items);
    SettleClosesOpen(rows, nextId, items);
    forall i | |rows| <= i < |t| ensures Inserted(rows, view, pairs, latest, t[i]) {
      assert AddedBy(items, t[i]);
      var it :| it in items && it.e == SettlementEvent(t[i].auction, t[i].token)
                && AddedClose(it.receipt, it.d, t[i]);
      DiscoveredIff(rows, view, pairs, latest, it);
      var l :| Scanned(rows, view, pairs, latest, it.e.auction, l, it.d)
               && ItemFor(view, pairs, it.e.auction, l, it.d, it);
      assert it.receipt == Receipt(l.tx, true, l.pos, view.minedAt(l.pos.block));
    }
  }

  /** A kick this settlement could be of: confirmed, of its pair, strictly before it on
      chain. */
  predicate SettledBy(k: Row, auction: string, token: string, l: Log) {
    && k.op.Kick? && k.status.Confirmed? && k.auction == auction && k.token == token
    && k.Position().Some? && k.Position().value.Before(l.pos)
  }

  /** A settlement the scan meets, for a pair asked for and not resolved in its
      transaction. */
  ghost predicate Settles(rows: seq<Row>, view: ChainView, pairs: Option<set<(string, string)>>, latest: nat,
                          auction: string, token: string, l: Log) {
    exists d :: Scanned(rows, view, pairs, latest, auction, l, d)
                && SettlementEvent(auction, token) in d.settlements
                && (forall e :: e in d.resolves ==> e.auction != auction || e.token != token)
                && (pairs.Some? ==> (auction, token) in pairs.value)
  }

  /** After the scan, every kick before such a settlement is closed, or the settlement's own
      row is stored. */
  lemma SettlementHandled(rows: seq<Row>, nextId: int, view: ChainView, pairs: Option<set<(string, string)>>,
      latest: nat, k: Row, l: Log)
    requires k in rows && SettledBy(k, k.auction, k.token, l)
    requires Settles(rows, view, pairs, latest, k.auction, k.token, l)
    ensures var t := SettleAll(rows, nextId, Discovered(rows, view, pairs, latest));
            HasConfirmedClose(t, k.auction, k.token, k.id) || HasExact(t, Settled, l.tx, k.auction, k.token)
  {
    hide Scanned, LatestUnclosedKick, SettleAll, Discovered, HasConfirmedClose, HasExact;
    var items := Discovered(rows, view, pairs, latest);
    var t := SettleAll(rows, nextId, items);
    var d :| Scanned(rows, view, pairs, latest, k.auction, l, d)
             && SettlementEvent(k.auction, k.token) in d.settlements && !ResolvedPair(d, k.auction, k.token);
    var it := CloseItem(Receipt(l.tx, true, l.pos, view.minedAt(l.pos.block)), d,
                        SettlementEvent(k.auction, k.token));
    assert ItemFor(view, pairs, k.auction, l, d, it);
    DiscoveredIff(rows, view, pairs, latest, it);
    SettleExhausts(rows, nextId, items, it);
    SettleKeepsSingle(rows, nextId, items);
    assert k in t;
    if LatestUnclosedKick(t, k.auction, k.token, Some(l.pos)).None? {
      assert !Candidate(t, k.auction, k.token, Some(l.pos), k);
    }
  }

  lemma OneReport(logs: seq<Log>, a: Log, b: Log)
    requires LastReport(logs, a) && LastReport(logs, b) && a.tx == b.tx
    ensures a == b
  {
  }

  lemma ScannedOnce(rows: seq<Row>, view: ChainView, pairs: Option<set<(string, string)>>, latest: nat,
      auction: string, a: Log, b: Log, d: Decoded, e: Decoded)
    requires Scanned(rows, view, pairs, latest, auction, a, d) && Scanned(rows, view, pairs, latest, auction, b, e)
    requires a.tx == b.tx
    ensures a == b
  {
    hide LastReport, Filter, LogsOver, EarliestBlock, Windows, HasAuction;
    var kicks := Filter(AnchorTest(pairs), rows);
    OneReport(LogsOver(view, auction, Windows(EarliestBlock(kicks, auction, latest + 1), latest)).value, a, b);
  }

  /** A settlement that can only be of one kick closes it: if no settlement row of its
      transaction was stored and this is the pair's one unclosed kick before it, the kick
      is closed after the scan. */
  lemma SettlementCloses(rows: seq<Row>, nextId: int, view: ChainView, pairs: Option<set<(string, string)>>,
      latest: nat, k: Row, l: Log)
    requires Ascending(rows) && Below(rows, nextId)
    requires k in rows && SettledBy(k, k.auction, k.token, l)
    requires Settles(rows, view, pairs, latest, k.auction, k.token, l)
    requires !HasExact(rows, Settled, l.tx, k.auction, k.token)
    requires forall m :: m in rows && SettledBy(m, k.auction, k.token, l) && m != k ==>
               HasConfirmedClose(rows, k.auction, k.token, m.id)
    ensures HasConfirmedClose(SettleAll(rows, nextId, Discovered(rows, view, pairs, latest)),
                              k.auction, k.token, k.id)
  {
    var t := SettleAll(rows, nextId, Discovered(rows, view, pairs, latest));
    SettlementHandled(rows, nextId, view, pairs, latest, k, l);
    if !HasConfirmedClose(t, k.auction, k.token, k.id) {
      ScanInserts(rows, nextId, view, pairs, latest);
      SettleKeepsSingle(rows, nextId, Discovered(rows, view, pairs, latest));
      hide Scanned, SettleAll, Discovered, HasConfirmedClose, SingleCloses;
      var i :| 0 <= i < |t| && IsExact(t[i], Settled, l.tx, k.auction, k.token);
      InsertedHere(rows, t, l.tx, k.auction, k.token, i);
      InsertedCloses(rows, t, view, pairs, latest, k, l, t[i]);
    }
  }

  lemma InsertedHere(rows: seq<Row>, t: seq<Row>, tx: string, auction: string, token: string, i: nat)
    requires rows <= t && i < |t| && IsExact(t[i], Settled, tx, auction, token)
    requires !HasExact(rows, Settled, tx, auction, token)
    ensures |rows| <= i
  {
  }

  lemma InsertedCloses(rows: seq<Row>, t: seq<Row>, view: ChainView, pairs: Option<set<(string, string)>>,
      latest: nat, k: Row, l: Log, r: Row)
    requires rows <= t && r in t && Inserted(rows, view, pairs, latest, r)
    requires IsExact(r, Settled, l.tx, k.auction, k.token) && NamesKick(r) && ClosesEarlierKick(t, r)
    requires forall i :: |rows| <= i < |t| ==> Inserted(rows, view, pairs, latest, t[i])
    requires Settles(rows, view, pairs, latest, k.auction, k.token, l)
    requires forall m :: m in rows && SettledBy(m, k.auction, k.token, l) && m != k ==>
               HasConfirmedClose(rows, k.auction, k.token, m.id)
    ensures HasConfirmedClose(t, k.auction, k.token, k.id)
  {
    hide Scanned;
    var a, d :| Scanned(rows, view, pairs, latest, r.auction, a, d)
                && AddedClose(Receipt(a.tx, true, a.pos, view.minedAt(a.pos.block)), d, r);
    var e :| Scanned(rows, view, pairs, latest, k.auction, l, e);
    ScannedOnce(rows, view, pairs, latest, k.auction, a, l, d, e);
    var m :| m in t && OfPair(m, r.auction, r.token) && m.op.Kick? && m.status.Confirmed? && r.link == Some(m.id)
             && m.Position().Some? && r.Position().Some? && m.Position().value.Before(r.Position().value);
    var j :| 0 <= j < |t| && t[j] == m;
    assert j < |rows| ==> rows[j] == m;
    assert OpenBeforehand(rows, r);
  }

  lemma {:induction false} FilteredReport(p: Log -> bool, chain: seq<Log>, l: Log)
    requires LastReport(chain, l) && p(l)
    ensures LastReport(Filter(p, chain), l)
  {
    if |chain| > 0 {
      var init, x := chain[..|chain| - 1], chain[|chain| - 1];
      assert chain == init + [x];
      LastReportStep(init, x, l);
      LastReportStep(Filter(p, init), x, l);
      if l != x {
        FilteredReport(p, init, l);
      }
    }
  }

  lemma HonestScan(rows: seq<Row>, view: ChainView, pairs: Option<set<(string, string)>>, latest: nat, k: Row,
      chain: seq<Log>, l: Log, d: Decoded)
    requires k in rows && SettledBy(k, k.auction, k.token, l) && l.pos.block <= latest
    requires pairs.Some? ==> (k.auction, k.token) in pairs.value
    requires BlockOrdered(chain) && Honest(view, k.auction, chain) && LastReport(chain, l)
    requires view.decode(l.tx, k.auction) == Some(d)
    ensures Scanned(rows, view, pairs, latest, k.auction, l, d)
  {
    hide EarliestBlock, Windows, LogsOver, LastReport, Honest, BlockOrdered;
    var kicks := Filter(AnchorTest(pairs), rows);
    assert AnchorTest(pairs)(k) && k in kicks;
    var start := EarliestBlock(kicks, k.auction, latest + 1);
    EarliestIsLeast(kicks, k.auction, latest + 1);
    assert start <= k.block.value <= l.pos.block;
    WindowsCover(view, k.auction, chain, start, latest);
    FilteredReport(InBlocks(start, latest), chain, l);
  }

  /** End to end: a node that answers honestly reports, up to the latest block, a settlement
      of the pair after this kick. If it is wanted, not resolved in its own transaction, not
      stored before, and can only be this kick's, the scan leaves the kick closed. */
  lemma HonestScanSettles(rows: seq<Row>, nextId: int, view: ChainView, pairs: Option<set<(string, string)>>,
      latest: nat, k: Row, chain: seq<Log>, l: Log, d: Decoded)
    requires Ascending(rows) && Below(rows, nextId)
    requires k in rows && SettledBy(k, k.auction, k.token, l) && l.pos.block <= latest
    requires pairs.Some? ==> (k.auction, k.token) in pairs.value
    requires BlockOrdered(chain) && Honest(view, k.auction, chain) && LastReport(chain, l)
    requires view.decode(l.tx, k.auction) == Some(d) && SettlementEvent(k.auction, k.token) in d.settlements
    requires forall e :: e in d.resolves ==> e.auction != k.auction || e.token != k.token
    requires !HasExact(rows, Settled, l.tx, k.auction, k.token)
    requires forall m :: m in rows && SettledBy(m, k.auction, k.token, l) && m != k ==>
               HasConfirmedClose(rows, k.auction, k.token, m.id)
    ensures HasConfirmedClose(SettleAll(rows, nextId, Discovered(rows, view, pairs, latest)),
                              k.auction, k.token, k.id)
  {
    hide Scanned, SettleAll, Discovered, HasConfirmedClose, LastReport, Honest, BlockOrdered, SettledBy;
    HonestScan(rows, view, pairs, latest, k, chain, l, d);
    SettlementCloses(rows, nextId, view, pairs, latest, k, l);
  }
}
