/** Attaching recoveries to kicks in chain order: the canonical batch scan
    (rebuild_round_links in tidal/operation_reconciler.py) and what it guarantees. */
module RoundLinks {
  import opened Common
  import opened Rounds
  import opened KickTable

  // ------------------------------------------------------------ chain order

  /** A row the scan sees: confirmed and placed on chain. */
  predicate OnChain(r: Row, auction: string, token: string) {
    OfPair(r, auction, token) && r.status.Confirmed? && r.Position().Some?
  }

  function ChainOf(auction: string, token: string): Row -> bool {
    (r: Row) => OnChain(r, auction, token)
  }

  predicate IsRecovery(r: Row) {
    r.op.Resolve? || r.op.Sweep? || r.op.Settled?
  }

  /** Chain order, ids breaking ties within one transaction. */
  predicate ChainLess(a: Row, b: Row)
    requires a.Position().Some? && b.Position().Some?
  {
    var p, q := a.Position().value, b.Position().value;
    p.Before(q) || (p == q && a.id < b.id)
  }

  function InsertByChain(s: seq<Row>, r: Row): (t: seq<Row>)
    requires r.Position().Some? && forall x :: x in s ==> x.Position().Some?
    ensures multiset(t) == multiset(s) + multiset{r}
    ensures forall x :: x in t <==> x in s || x == r
  {
    if |s| == 0 || ChainLess(r, s[0]) then [r] + s
    else
      assert s == [s[0]] + s[1..];
      [s[0]] + InsertByChain(s[1..], r)
  }

  function SortByChain(rows: seq<Row>): (t: seq<Row>)
    requires forall x :: x in rows ==> x.Position().Some?
    ensures multiset(t) == multiset(rows)
    ensures forall x :: x in t <==> x in rows
  {
    if |rows| == 0 then []
    else
      assert rows == rows[..|rows| - 1] + [rows[|rows| - 1]];
      InsertByChain(SortByChain(rows[..|rows| - 1]), rows[|rows| - 1])
  }

  ghost predicate ChainSorted(s: seq<Row>) {
    && (forall x :: x in s ==> x.Position().Some?)
    && forall i, j :: 0 <= i < j < |s| ==> !ChainLess(s[j], s[i])
  }

  lemma {:induction false} InsertChainSorted(s: seq<Row>, r: Row)
    requires r.Position().Some? && ChainSorted(s)
    ensures ChainSorted(InsertByChain(s, r))
  {
    if |s| > 0 {
      if ChainLess(r, s[0]) {
        var t := [r] + s;
        forall i, j | 0 <= i < j < |t| ensures !ChainLess(t[j], t[i]) {
          assert t[j] == s[j - 1] && (i > 0 ==> t[i] == s[i - 1]);
          assert j > 1 ==> !ChainLess(s[j - 1], s[0]);
        }
      } else {
        InsertChainSorted(s[1..], r);
        var rest := InsertByChain(s[1..], r);
        forall j | 0 <= j < |rest| ensures !ChainLess(rest[j], s[0]) {
          assert rest[j] in s[1..] || rest[j] == r;
        }
      }
    }
  }

  lemma {:induction false} SortChainSorted(rows: seq<Row>)
    requires forall x :: x in rows ==> x.Position().Some?
    ensures ChainSorted(SortByChain(rows))
  {
    if |rows| > 0 {
      SortChainSorted(rows[..|rows| - 1]);
      InsertChainSorted(SortByChain(rows[..|rows| - 1]), rows[|rows| - 1]);
    }
  }

  // ------------------------------------------------------------ open rounds

  /** A row that opens or closes a round. */
  predicate IsMark(r: Row) {
    r.op.Kick? || (IsRecovery(r) && r.ClosesRound())
  }

  /** `m` is the latest mark of the pair before `r` in chain order. */
  ghost predicate LatestMark(rows: seq<Row>, r: Row, m: Row)
    requires r.Position().Some?
  {
    && m in rows && OnChain(m, r.auction, r.token) && IsMark(m) && ChainLess(m, r)
    && forall x :: x in rows && OnChain(x, r.auction, r.token) && IsMark(x) && ChainLess(x, r) ==> !ChainLess(m, x)
  }

  /** The kick whose round is open just before `r`: the latest earlier mark, when it is a
      kick. This is the declarative reading of the scan's `open_kick_id`. */
  ghost predicate OpenBefore(rows: seq<Row>, r: Row, kick: Row)
    requires r.Position().Some?
  {
    kick.op.Kick? && LatestMark(rows, r, kick)
  }

  /** The link chain order gives a recovery; a path-0 resolve has none. */
  ghost predicate CanonicalLink(rows: seq<Row>, r: Row, link: Option<int>)
    requires r.Position().Some?
  {
    if r.op.Resolve? && r.path == Some(0) then link.None?
    else if link.Some? then exists k :: OpenBefore(rows, r, k) && link.value == k.id
    else forall k :: !OpenBefore(rows, r, k)
  }

  predicate Relinkable(r: Row, auction: string, token: string) {
    OnChain(r, auction, token) && IsRecovery(r)
  }

  /** `after` is `before` with every confirmed positioned recovery of the pair on its
      canonical link and nothing else changed. */
  ghost predicate Relinked(before: seq<Row>, after: seq<Row>, auction: string, token: string) {
    && |after| == |before|
    && forall i :: 0 <= i < |before| ==>
         && after[i] == before[i].(link := after[i].link)
         && (if Relinkable(before[i], auction, token) then CanonicalLink(before, before[i], after[i].link)
             else after[i] == before[i])
  }

  // ---------------------------------------------------------------- the scan

  /** The scan's open kick after a prefix of the sorted rows. */
  function OpenAfter(s: seq<Row>): Option<int> {
    if |s| == 0 then None
    else
      var last := s[|s| - 1];
      if last.op.Kick? then Some(last.id)
      else if IsRecovery(last) && last.ClosesRound() then None
      else OpenAfter(s[..|s| - 1])
  }

  function Target(r: Row, open: Option<int>): Option<int> {
    if r.op.Resolve? && r.path == Some(0) then None else open
  }

  /** The last mark of a prefix decides what is open. */
  lemma {:induction false} LastMarkOf(s: seq<Row>) returns (i: int)
    ensures -1 <= i < |s|
    ensures forall j :: i < j < |s| ==> !IsMark(s[j])
    ensures i >= 0 ==> IsMark(s[i])
    ensures OpenAfter(s) == if i >= 0 && s[i].op.Kick? then Some(s[i].id) else None
  {
    i := |s| - 1;
    if |s| > 0 && !IsMark(s[i]) {
      var init := s[..|s| - 1];
      i := LastMarkOf(init);
      assert forall j :: i < j < |s| ==> j == |s| - 1 || s[j] == init[j];
    }
  }

  /** Ids tell rows apart, so the chain order is strict on a table. */
  lemma SortedStrict(rows: seq<Row>, s: seq<Row>, i: nat, j: nat)
    requires Ascending(rows) && ChainSorted(s) && multiset(s) <= multiset(rows)
    requires i < j < |s|
    ensures ChainLess(s[i], s[j])
  {
    SameIdSameRow(rows, s[i], s[j], s, i, j);
  }

  lemma SameIdSameRow(rows: seq<Row>, x: Row, y: Row, s: seq<Row>, i: nat, j: nat)
    requires Ascending(rows) && multiset(s) <= multiset(rows)
    requires i < j < |s| && x == s[i] && y == s[j]
    ensures x.id != y.id
  {
    assert x in multiset(s) && y in multiset(s);
    assert x in rows && y in rows;
    OnceOnly(rows, x);
    if x == y {
      CountsTwice(s, i, j);
    }
  }

  lemma CountsTwice(s: seq<Row>, i: nat, j: nat)
    requires i < j < |s| && s[i] == s[j]
    ensures multiset(s)[s[i]] >= 2
  {
    assert s == s[..i] + [s[i]] + s[i + 1..j] + [s[j]] + s[j + 1..];
  }

  lemma {:induction false} OnceOnly(rows: seq<Row>, x: Row)
    requires Ascending(rows)
    ensures multiset(rows)[x] <= 1
  {
    if |rows| > 0 {
      var init, last := rows[..|rows| - 1], rows[|rows| - 1];
      OnceOnly(init, x);
      assert rows == init + [last];
      if last == x {
        assert x !in init;
      }
    }
  }

  /** The pair's chain, sorted as the scan sorts it. */
  function Chain(rows: seq<Row>, auction: string, token: string): seq<Row> {
    SortByChain(Filter(ChainOf(auction, token), rows))
  }

  lemma ChainFacts(rows: seq<Row>, auction: string, token: string)
    requires Ascending(rows)
    ensures var s := Chain(rows, auction, token);
            && (forall x :: x in s <==> x in rows && OnChain(x, auction, token))
            && (forall i, j :: 0 <= i < j < |s| ==>
                  s[i].Position().Some? && s[j].Position().Some? && ChainLess(s[i], s[j]))
  {
    hide Filter, SortByChain;
    var f := Filter(ChainOf(auction, token), rows);
    var s := Chain(rows, auction, token);
    SortChainSorted(f);
    forall x ensures multiset(s)[x] <= multiset(rows)[x] {
      FilterCount(ChainOf(auction, token), rows, x);
    }
    assert multiset(s) <= multiset(rows);
    forall i, j | 0 <= i < j < |s|
      ensures s[i].Position().Some? && s[j].Position().Some? && ChainLess(s[i], s[j])
    {
      assert s[i] in s && s[j] in s;
      SortedStrict(rows, s, i, j);
    }
  }

  /** The last mark of the chain before a row is its latest mark in the table. */
  lemma LastIsLatest(rows: seq<Row>, auction: string, token: string, i: nat, m: nat)
    requires Ascending(rows) && m < i < |Chain(rows, auction, token)| && IsMark(Chain(rows, auction, token)[m])
    requires forall j :: m < j < i ==> !IsMark(Chain(rows, auction, token)[j])
    ensures var s := Chain(rows, auction, token);
            s[i].Position().Some? && s[i].auction == auction && s[i].token == token && LatestMark(rows, s[i], s[m])
  {
    hide Filter, SortByChain, Chain, IsMark;
    var s := Chain(rows, auction, token);
    ChainFacts(rows, auction, token);
    var r := s[i];
    assert r in s && s[m] in s && ChainLess(s[m], s[i]);
    forall x | x in rows && OnChain(x, r.auction, r.token) && IsMark(x) && ChainLess(x, r) ensures !ChainLess(s[m], x) {
      assert x in s;
      var j :| 0 <= j < |s| && s[j] == x;
    }
  }

  lemma NoMarkNoneOpen(rows: seq<Row>, auction: string, token: string, i: nat)
    requires Ascending(rows) && i < |Chain(rows, auction, token)|
    requires forall j :: 0 <= j < i ==> !IsMark(Chain(rows, auction, token)[j])
    ensures var r := Chain(rows, auction, token)[i];
            r.Position().Some? && r.auction == auction && r.token == token && forall k :: !OpenBefore(rows, r, k)
  {
    hide Filter, SortByChain, Chain;
    var s := Chain(rows, auction, token);
    ChainFacts(rows, auction, token);
    assert s[i] in s;
    forall x | x in rows && OnChain(x, auction, token) && ChainLess(x, s[i]) ensures !IsMark(x) {
      assert x in s;
      var j :| 0 <= j < |s| && s[j] == x;
    }
  }

  /** The scan gives every recovery its canonical link. */
  lemma ScanIsCanonical(rows: seq<Row>, auction: string, token: string, i: nat)
    requires Ascending(rows)
    requires i < |Chain(rows, auction, token)| && IsRecovery(Chain(rows, auction, token)[i])
    ensures var s := Chain(rows, auction, token);
            s[i] in s && OnChain(s[i], auction, token) && CanonicalLink(rows, s[i], Target(s[i], OpenAfter(s[..i])))
  {
    hide Filter, SortByChain, Chain, LatestMark;
    var s := Chain(rows, auction, token);
    ChainFacts(rows, auction, token);
    var r := s[i];
    assert r in s;
    var m := LastMarkOf(s[..i]);
    if m >= 0 {
      assert forall j :: m < j < i ==> s[..i][j] == s[j];
      LastIsLatest(rows, auction, token, i, m);
      forall k | OpenBefore(rows, r, k) ensures k.id == s[m].id && s[m].op.Kick? {
        LatestIsOne(rows, r, k, s[m]);
      }
    } else {
      assert forall j :: 0 <= j < i ==> s[..i][j] == s[j];
      NoMarkNoneOpen(rows, auction, token, i);
    }
  }

  lemma LatestIsOne(rows: seq<Row>, r: Row, k: Row, m: Row)
    requires Ascending(rows) && r.Position().Some? && LatestMark(rows, r, k) && LatestMark(rows, r, m)
    ensures k == m
  {
    LatestMarkUnique(rows, r, k, m);
    var i :| 0 <= i < |rows| && rows[i] == k;
    var j :| 0 <= j < |rows| && rows[j] == m;
  }

  lemma LatestMarkUnique(rows: seq<Row>, r: Row, a: Row, b: Row)
    requires r.Position().Some? && LatestMark(rows, r, a) && LatestMark(rows, r, b)
    ensures a.id == b.id && a.Position() == b.Position()
  {
  }

  lemma CanonicalUnique(rows: seq<Row>, r: Row, a: Option<int>, b: Option<int>)
    requires r.Position().Some? && CanonicalLink(rows, r, a) && CanonicalLink(rows, r, b)
    ensures a == b
  {
    if a.Some? && b.Some? {
      var k :| OpenBefore(rows, r, k) && a.value == k.id;
      var l :| OpenBefore(rows, r, l) && b.value == l.id;
      LatestMarkUnique(rows, r, k, l);
    }
  }

  /** Rows of the chain handled so far carry their targets; the rest are untouched. */
  ghost predicate ScannedTo(before: seq<Row>, now: seq<Row>, s: seq<Row>, n: nat)
    requires n <= |s|
  {
    && |now| == |before|
    && (forall i :: 0 <= i < |before| ==>
          && now[i] == before[i].(link := now[i].link)
          && ((forall j :: 0 <= j < n ==> s[j] != before[i]) || !IsRecovery(before[i]) ==> now[i] == before[i])
          && (forall j :: 0 <= j < n && s[j] == before[i] && IsRecovery(s[j]) ==>
              now[i].link == Target(s[j], OpenAfter(s[..j]))))
  }

  lemma ScanStep(before: seq<Row>, now: seq<Row>, s: seq<Row>, n: nat, row: Row)
    requires Ascending(before) && n < |s| && ScannedTo(before, now, s, n)
    requires forall j :: 0 <= j < |s| ==> s[j] in before
    requires forall i, j :: 0 <= i < j < |s| ==> s[i] != s[j]
    requires IsRecovery(s[n]) && row == s[n].(link := Target(s[n], OpenAfter(s[..n])))
    ensures ScannedTo(before, SetRow(now, row), s, n + 1)
  {
    hide OpenAfter;
    var next := SetRow(now, row);
    forall i | 0 <= i < |before|
      ensures next[i] == before[i].(link := next[i].link)
      ensures (forall j :: 0 <= j < n + 1 ==> s[j] != before[i]) || !IsRecovery(before[i]) ==> next[i] == before[i]
      ensures forall j :: 0 <= j < n + 1 && s[j] == before[i] && IsRecovery(s[j]) ==>
               next[i].link == Target(s[j], OpenAfter(s[..j]))
    {
      var p :| 0 <= p < |before| && before[p] == s[n];
      assert before[i].id == s[n].id ==> i == p;
    }
  }

  lemma SkipStep(before: seq<Row>, now: seq<Row>, s: seq<Row>, n: nat)
    requires n < |s| && ScannedTo(before, now, s, n)
    requires !IsRecovery(s[n])
    ensures ScannedTo(before, now, s, n + 1)
  {
  }

  /** Setting a row to what it already holds changes nothing. */
  lemma SetSame(before: seq<Row>, now: seq<Row>, s: seq<Row>, n: nat, row: Row)
    requires Ascending(before) && |now| == |before|
    requires forall i :: 0 <= i < |before| ==> now[i] == before[i].(link := now[i].link)
    requires row in now
    ensures SetRow(now, row) == now
  {
    var p :| 0 <= p < |now| && now[p] == row;
    assert forall i :: 0 <= i < |now| && now[i].id == row.id ==> i == p;
  }

  lemma ScanDone(before: seq<Row>, now: seq<Row>, auction: string, token: string)
    requires Ascending(before)
    requires ScannedTo(before, now, Chain(before, auction, token), |Chain(before, auction, token)|)
    ensures Relinked(before, now, auction, token)
  {
    var s := Chain(before, auction, token);
    ChainFacts(before, auction, token);
    hide Chain, OpenAfter;
    forall i | 0 <= i < |before|
      ensures if Relinkable(before[i], auction, token) then CanonicalLink(before, before[i], now[i].link)
              else now[i] == before[i]
    {
      if Relinkable(before[i], auction, token) {
        assert before[i] in s;
        var j :| 0 <= j < |s| && s[j] == before[i];
        ScanIsCanonical(before, auction, token, j);
      } else {
        assert before[i] in s ==> !IsRecovery(before[i]);
      }
    }
  }

  /** Rebuild the links of one pair in place. */
  method RebuildPair(table: KickTxTable, auction: string, token: string) returns (changed: bool)
    requires table.Valid()
    modifies table`rows
    ensures table.Valid()
    ensures Relinked(old(table.rows), table.rows, auction, token)
    ensures !changed ==> table.rows == old(table.rows)
  {
    hide Chain, Relinked, OpenAfter, ScannedTo;
    ghost var before := table.rows;
    var s := Chain(table.rows, auction, token);
    ChainFacts(before, auction, token);
    assert forall i, j :: 0 <= i < j < |s| ==> s[i] != s[j];
    changed := false;
    var open: Option<int> := None;
    ScanStart(before, s);
    for n := 0 to |s|
      invariant table.Valid()
      invariant ScannedTo(before, table.rows, s, n)
      invariant open == OpenAfter(s[..n])
      invariant !changed ==> table.rows == before
    {
      var row := s[n];
      assert s[n] in s;
      OpenStep(s, n);
      if row.op.Kick? {
        SkipStep(before, table.rows, s, n);
        open := Some(row.id);
        continue;
      }
      var target := Target(row, open);
      ghost var now := table.rows;
      ScanStep(before, now, s, n, row.(link := target));
      if row.link != target {
        table.Update(row.(link := target));
        changed := true;
      } else {
        Untouched(before, now, s, n);
        SetSame(before, now, s, n, row);
      }
      if open.Some? && row.ClosesRound() {
        open := None;
      }
    }
    assert s[..|s|] == s;
    ScanDone(before, table.rows, auction, token);
  }

  lemma ScanStart(before: seq<Row>, s: seq<Row>)
    ensures ScannedTo(before, before, s, 0) && OpenAfter(s[..0]) == None
  {
  }

  lemma OpenStep(s: seq<Row>, n: nat)
    requires n < |s|
    ensures OpenAfter(s[..n + 1]) == if s[n].op.Kick? then Some(s[n].id)
                                     else if IsRecovery(s[n]) && s[n].ClosesRound() then None
                                     else OpenAfter(s[..n])
  {
    assert s[..n + 1][..n] == s[..n];
  }

  lemma Untouched(before: seq<Row>, now: seq<Row>, s: seq<Row>, n: nat)
    requires n < |s| && ScannedTo(before, now, s, n) && s[n] in before
    requires forall i, j :: 0 <= i < j < |s| ==> s[i] != s[j]
    ensures s[n] in now && |now| == |before|
    ensures forall i :: 0 <= i < |before| ==> now[i] == before[i].(link := now[i].link)
  {
    var p :| 0 <= p < |before| && before[p] == s[n];
    assert now[p] == before[p];
  }
}
