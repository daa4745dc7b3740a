/** Replaying a receipt: when a second application changes nothing, and what settlement
    events may add. */
module ReceiptLaws {
  import opened Common
  import opened Rounds
  import opened KickTable
  import opened Receipts
  import opened LinkLaws

  ghost predicate InTable(table: seq<Row>, todo: seq<Row>) {
    && (forall r :: r in todo ==> r in table)
    && forall i, j :: 0 <= i < j < |todo| ==> todo[i].id != todo[j].id
  }

  lemma OwnRowsInTable(table: seq<Row>, tx: string, accept: int -> bool)
    requires Ascending(table)
    ensures InTable(table, RowsOf(table, tx, accept))
    ensures forall r :: r in RowsOf(table, tx, accept) <==> r in table && Own(tx, accept, r)
  {
    FilterAscending(OwnTo(tx, accept), table);
  }

  lemma SetPresent(table: seq<Row>, row: Row, was: Row)
    requires Ascending(table) && was in table && was.id == row.id
    ensures Ascending(SetRow(table, row)) && row in SetRow(table, row)
    ensures forall r :: r in table && r.id != row.id ==> r in SetRow(table, row)
    ensures forall r :: r in SetRow(table, row) ==> r == row || (r in table && r.id != row.id)
    ensures SetRow(table, row) == table <==> row == was
  {
    MinedKeepsOrder(table, row);
    var t := SetRow(table, row);
    var p :| 0 <= p < |table| && table[p] == was;
    assert t[p] == row;
    forall r | r in table && r.id != row.id ensures r in t {
      var i :| 0 <= i < |table| && table[i] == r;
      assert t[i] == r;
    }
    assert forall i :: 0 <= i < |table| && table[i].id == row.id ==> i == p;
  }

  // -------------------------------------------------------- one pass of rows

  /** The result of a pass: rows outside it are kept, each row of it is finalized against
      some intermediate table. */
  lemma {:induction false} PassKeepsOthers(table: seq<Row>, receipt: Receipt, d: Decoded, todo: seq<Row>, r: Row)
    requires Ascending(table) && InTable(table, todo)
    requires r in table && forall x :: x in todo ==> x.id != r.id
    ensures Ascending(FinalizeRows(table, receipt, d, todo)) && r in FinalizeRows(table, receipt, d, todo)
    decreases |todo|
  {
    hide Finalized;
    if |todo| > 0 {
      Advance(table, receipt, d, todo);
      PassKeepsOthers(SetRow(table, Finalized(table, receipt, d, todo[0])), receipt, d, todo[1..], r);
    }
  }

  lemma Advance(table: seq<Row>, receipt: Receipt, d: Decoded, todo: seq<Row>)
    requires Ascending(table) && InTable(table, todo) && |todo| > 0
    ensures var next := SetRow(table, Finalized(table, receipt, d, todo[0]));
            && Ascending(next) && InTable(next, todo[1..])
            && Finalized(table, receipt, d, todo[0]) in next
            && SameIdentity(Finalized(table, receipt, d, todo[0]), todo[0])
            && (forall r :: r in table && r.id != todo[0].id ==> r in next)
            && (forall r :: r in next ==>
                r == Finalized(table, receipt, d, todo[0]) || (r in table && r.id != todo[0].id))
            && (next == table <==> Finalized(table, receipt, d, todo[0]) == todo[0])
  {
    hide Finalized;
    FinalizedKeepsId(table, receipt, d, todo[0]);
    assert todo[0] in todo;
    SetPresent(table, Finalized(table, receipt, d, todo[0]), todo[0]);
    forall r | r in todo[1..] ensures r in table && r.id != todo[0].id {
      var i :| 0 <= i < |todo[1..]| && todo[1..][i] == r;
      assert todo[i + 1] == r && r in todo;
    }
  }

  /** A pass changes nothing exactly when each of its rows is already final. */
  lemma {:induction false} PassIsIdentityIff(table: seq<Row>, receipt: Receipt, d: Decoded, todo: seq<Row>)
    requires Ascending(table) && InTable(table, todo)
    ensures FinalizeRows(table, receipt, d, todo) == table <==>
            forall r :: r in todo ==> Finalized(table, receipt, d, r) == r
    decreases |todo|
  {
    hide Finalized;
    if |todo| > 0 {
      var f := Finalized(table, receipt, d, todo[0]);
      var next := SetRow(table, f);
      Advance(table, receipt, d, todo);
      assert todo == [todo[0]] + todo[1..];
      if f == todo[0] {
        PassIsIdentityIff(table, receipt, d, todo[1..]);
      } else {
        forall x | x in todo[1..] ensures x.id != f.id {
          var i :| 0 <= i < |todo[1..]| && todo[1..][i] == x;
          assert todo[i + 1] == x;
        }
        PassKeepsOthers(next, receipt, d, todo[1..], f);
        if FinalizeRows(table, receipt, d, todo) == table {
          SameIdSame(table, f, todo[0]);
        }
      }
    }
  }

  /** A row as a pass leaves it: stamped, and unlinked where the receipt clears the link. */
  ghost predicate Final(receipt: Receipt, d: Decoded, r: Row) {
    Stamp(receipt, d, r) == r && (ClearsLink(r, d) ==> r.link.None?)
  }

  lemma FinalizedIsFinal(table: seq<Row>, receipt: Receipt, d: Decoded, row: Row)
    ensures Final(receipt, d, Finalized(table, receipt, d, row))
  {
    hide RoundKickId, FirstKick, FirstResolve, FirstSweep;
  }

  /** The row wants a round it lacks, and the lookup finds one. */
  ghost predicate Linkable(table: seq<Row>, receipt: Receipt, d: Decoded, r: Row) {
    r.link.None? && WantsRound(r, d) && LatestUnclosedKick(table, r.auction, r.token, Some(receipt.pos)).Some?
  }

  /** Finalizing a final row again keeps it exactly unless it is linkable. */
  lemma RefinalizeIff(table: seq<Row>, receipt: Receipt, d: Decoded, r: Row)
    requires Final(receipt, d, r)
    ensures Finalized(table, receipt, d, r) == r <==> !Linkable(table, receipt, d, r)
  {
    hide LatestUnclosedKick, FirstKick, FirstResolve, FirstSweep;
    assert Finalized(table, receipt, d, r) == r <==> LinkFor(table, receipt, d, r) == r.link;
  }

  ghost predicate Named(todo: seq<Row>, id: int) {
    exists x :: x in todo && x.id == id
  }

  ghost predicate Passed(receipt: Receipt, d: Decoded, table: seq<Row>, t: seq<Row>, todo: seq<Row>) {
    forall r :: r in t ==> if Named(todo, r.id) then Final(receipt, d, r) else r in table
  }

  ghost predicate SameIdentities(table: seq<Row>, t: seq<Row>) {
    |t| == |table| && forall i :: 0 <= i < |t| ==> SameIdentity(t[i], table[i])
  }

  lemma {:induction false} PassFinalizes(table: seq<Row>, receipt: Receipt, d: Decoded, todo: seq<Row>)
    requires Ascending(table) && InTable(table, todo)
    ensures var t := FinalizeRows(table, receipt, d, todo);
            && Ascending(t)
            && (forall r :: r in t ==> if Named(todo, r.id) then Final(receipt, d, r) else r in table)
            && (forall i :: 0 <= i < |t| ==> SameIdentity(t[i], table[i]))
    decreases |todo|
  {
    assert |todo| > 0 ==> todo[0] in todo && todo[0] in table;
    hide Finalized, Final, SameIdentity, InTable, Ascending, Named;
    var t := FinalizeRows(table, receipt, d, todo);
    if |todo| > 0 {
      var f := Finalized(table, receipt, d, todo[0]);
      var next := SetRow(table, f);
      Advance(table, receipt, d, todo);
      FinalizedIsFinal(table, receipt, d, todo[0]);
      PassFinalizes(next, receipt, d, todo[1..]);
      assert f.id == todo[0].id by { FinalizedKeepsId(table, receipt, d, todo[0]); KeepsId(f, todo[0]); }
      FirstThenRest(receipt, d, table, next, t, todo, f);
      SetKeepsIdentity(table, f, todo[0]);
      IdentitiesCompose(table, next, t);
    } else {
      NoneNamed();
      forall i | 0 <= i < |table| ensures SameIdentity(table[i], table[i]) {
        SameIdentityReflexive(table[i]);
      }
    }
  }

  lemma KeepsId(a: Row, b: Row)
    requires SameIdentity(a, b)
    ensures a.id == b.id
  {
  }

  /** A resolve of a real round that a pass left without one. */
  ghost predicate LeftUnlinked(t: seq<Row>, d: Decoded, todo: seq<Row>, r: Row) {
    r in t && Named(todo, r.id) && r.op.Resolve? && WantsRound(r, d) && r.link.None?
  }

  lemma FailedMeans(table: seq<Row>, receipt: Receipt, d: Decoded, row: Row)
    ensures var f := Finalized(table, receipt, d, row);
            LinkFailed(table, receipt, d, row) <==> f.op.Resolve? && WantsRound(f, d) && f.link.None?
  {
    hide LinkFor, FirstResolve, FirstSweep, FirstKick;
  }

  ghost predicate SomeLeft(t: seq<Row>, d: Decoded, todo: seq<Row>) {
    exists r :: LeftUnlinked(t, d, todo, r)
  }

  lemma SplitLeft(t: seq<Row>, d: Decoded, todo: seq<Row>, rest: seq<Row>, f: Row, failed: bool)
    requires forall r :: LeftUnlinked(t, d, todo, r) <==> LeftUnlinked(t, d, rest, r) || (r == f && failed)
    ensures SomeLeft(t, d, todo) <==> SomeLeft(t, d, rest) || failed
  {
    hide LeftUnlinked;
    if failed {
      assert LeftUnlinked(t, d, todo, f);
    }
    if SomeLeft(t, d, rest) {
      var r :| LeftUnlinked(t, d, rest, r);
      assert LeftUnlinked(t, d, todo, r);
    }
    if SomeLeft(t, d, todo) {
      var r :| LeftUnlinked(t, d, todo, r);
      assert LeftUnlinked(t, d, rest, r) || failed;
    }
  }

  lemma FailsStep(table: seq<Row>, receipt: Receipt, d: Decoded, todo: seq<Row>)
    requires |todo| > 0
    ensures PassFails(table, receipt, d, todo)
            == (LinkFailed(table, receipt, d, todo[0])
                || PassFails(SetRow(table, Finalized(table, receipt, d, todo[0])), receipt, d, todo[1..]))
  {
  }

  /** The link failure is reported exactly when the pass leaves some resolve of a real round
      unlinked. */
  lemma {:induction false} LinkFailureMeans(table: seq<Row>, receipt: Receipt, d: Decoded, todo: seq<Row>)
    requires Ascending(table) && InTable(table, todo)
    ensures PassFails(table, receipt, d, todo) <==> SomeLeft(FinalizeRows(table, receipt, d, todo), d, todo)
    decreases |todo|
  {
    if |todo| > 0 {
      hide Finalized, LinkFailed, WantsRound, FinalizeRows, PassFails, LeftUnlinked, SomeLeft, Named;
      var f := Finalized(table, receipt, d, todo[0]);
      var next, rest := SetRow(table, f), todo[1..];
      var t := FinalizeRows(table, receipt, d, todo);
      var failed := LinkFailed(table, receipt, d, todo[0]);
      PassStep(table, receipt, d, todo);
      FailsStep(table, receipt, d, todo);
      Advance(table, receipt, d, todo);
      FailedMeans(table, receipt, d, todo[0]);
      FirstStays(table, receipt, d, todo);
      hide InTable, Ascending, SetRow;
      LinkFailureMeans(next, receipt, d, rest);
      forall r ensures LeftUnlinked(t, d, todo, r) <==> LeftUnlinked(t, d, rest, r) || (r == f && failed) {
        FirstOrLater(t, d, todo, f, r);
      }
      SplitLeft(t, d, todo, rest, f, failed);
    } else {
      NoneNamed();
    }
  }

  lemma PassStep(table: seq<Row>, receipt: Receipt, d: Decoded, todo: seq<Row>)
    requires |todo| > 0
    ensures FinalizeRows(table, receipt, d, todo)
            == FinalizeRows(SetRow(table, Finalized(table, receipt, d, todo[0])), receipt, d, todo[1..])
  {
  }

  /** The first row of a pass is final once finalized. */
  lemma FirstStays(table: seq<Row>, receipt: Receipt, d: Decoded, todo: seq<Row>)
    requires Ascending(table) && InTable(table, todo) && |todo| > 0
    ensures var f, t := Finalized(table, receipt, d, todo[0]), FinalizeRows(table, receipt, d, todo);
            Ascending(t) && f in t && f.id == todo[0].id && !Named(todo[1..], f.id)
  {
    var f := Finalized(table, receipt, d, todo[0]);
    hide Finalized, FinalizeRows;
    FinalizedKeepsId(table, receipt, d, todo[0]);
    Advance(table, receipt, d, todo);
    PassStep(table, receipt, d, todo);
    forall y | y in todo[1..] ensures y.id != f.id {
      var i :| 0 <= i < |todo[1..]| && todo[1..][i] == y;
      assert todo[i + 1] == y;
    }
    PassKeepsOthers(SetRow(table, f), receipt, d, todo[1..], f);
  }

  lemma FirstOrLater(t: seq<Row>, d: Decoded, todo: seq<Row>, f: Row, r: Row)
    requires |todo| > 0 && Ascending(t) && f in t && f.id == todo[0].id && !Named(todo[1..], f.id)
    ensures LeftUnlinked(t, d, todo, r) <==>
            LeftUnlinked(t, d, todo[1..], r) || (r == f && f.op.Resolve? && WantsRound(f, d) && f.link.None?)
  {
    hide WantsRound;
    assert todo == [todo[0]] + todo[1..];
    assert Named(todo, r.id) <==> r.id == f.id || Named(todo[1..], r.id);
    if r in t && r.id == f.id {
      SameIdSame(t, r, f);
    }
  }

  lemma NoneNamed()
    ensures forall id :: !Named([], id)
  {
  }

  lemma FirstThenRest(receipt: Receipt, d: Decoded, table: seq<Row>, next: seq<Row>, t: seq<Row>,
      todo: seq<Row>, f: Row)
    requires |todo| > 0 && f.id == todo[0].id && Final(receipt, d, f) && Passed(receipt, d, next, t, todo[1..])
    requires forall r :: r in next ==> r == f || (r in table && r.id != f.id)
    ensures Passed(receipt, d, table, t, todo)
  {
    hide Final;
    assert todo == [todo[0]] + todo[1..];
    forall id ensures Named(todo, id) <==> id == f.id || Named(todo[1..], id) {
    }
  }

  lemma IdentitiesCompose(a: seq<Row>, b: seq<Row>, c: seq<Row>)
    requires SameIdentities(a, b) && SameIdentities(b, c)
    ensures SameIdentities(a, c)
  {
    hide SameIdentity;
    forall i | 0 <= i < |c| ensures SameIdentity(c[i], a[i]) {
      SameIdentityTransitive(c[i], b[i], a[i]);
    }
  }

  lemma SameIdentityReflexive(a: Row)
    ensures SameIdentity(a, a)
  {
  }

  lemma SetKeepsIdentity(table: seq<Row>, f: Row, was: Row)
    requires Ascending(table) && was in table && SameIdentity(f, was)
    ensures forall i :: 0 <= i < |table| ==> SameIdentity(SetRow(table, f)[i], table[i])
  {
    forall i | 0 <= i < |table| ensures SameIdentity(SetRow(table, f)[i], table[i]) {
      if table[i].id == f.id {
        SameIdSame(table, table[i], was);
      }
    }
  }

  lemma SameIdentityTransitive(a: Row, b: Row, c: Row)
    requires SameIdentity(a, b) && SameIdentity(b, c)
    ensures SameIdentity(a, c)
  {
  }

  // ------------------------------------------------------------ settlements

  ghost predicate Below(table: seq<Row>, nextId: int) {
    forall r :: r in table ==> r.id < nextId
  }

  /** A row a settlement event added: a zero-amount confirmed close at the receipt's
      position, for a pair the receipt settled and did not resolve. */
  ghost predicate AddedClose(receipt: Receipt, d: Decoded, r: Row) {
    && r.op.Settled? && r.status.Confirmed? && r.tx == Some(receipt.tx) && r.Position() == Some(receipt.pos)
    && r.minedAt == Some(receipt.minedAt) && r.amount == Some(0) && r.link.Some?
    && SettlementEvent(r.auction, r.token) in d.settlements && !ResolvedPair(d, r.auction, r.token)
  }

  ghost predicate FromReceipts(items: seq<CloseItem>) {
    forall it :: it in items ==> it.e in it.d.settlements
  }

  ghost predicate AddedBy(items: seq<CloseItem>, r: Row) {
    exists it :: it in items && it.e == SettlementEvent(r.auction, r.token) && AddedClose(it.receipt, it.d, r)
  }

  /** The rows after the first `n`: fresh closes, none a second one for its transaction
      and pair. */
  ghost predicate FreshCloses(t: seq<Row>, n: nat, nextId: int, items: seq<CloseItem>) {
    forall i :: n <= i < |t| ==>
      && t[i].id >= nextId && AddedBy(items, t[i]) && t[i].tx.Some?
      && forall j :: 0 <= j < i ==> !IsExact(t[j], Settled, t[i].tx.value, t[i].auction, t[i].token)
  }

  /** What settlement events add, one close each for the event's own pair, never a second
      one for the same transaction and pair. */
  lemma {:induction false} SettleAdds(table: seq<Row>, nextId: int, items: seq<CloseItem>)
    requires Ascending(table) && Below(table, nextId) && FromReceipts(items)
    ensures var t := SettleAll(table, nextId, items); Ascending(t) && FreshCloses(t, |table|, nextId, items)
    decreases |items|
  {
    hide NewClose, FreshCloses, FromReceipts;
    if |items| > 0 {
      var it, t := items[0], SettleAll(table, nextId, items);
      var close := NewClose(table, it.receipt, it.d, it.e);
      RestFromReceipts(items);
      if close.Some? {
        var r := close.value.(id := nextId);
        NewCloseIsAdded(table, it.receipt, it.d, it.e, r);
        SettleAdds(table + [r], nextId + 1, items[1..]);
        OneMoreClose(table, t, nextId, items, r);
      } else {
        SettleAdds(table, nextId, items[1..]);
        LaterCloses(t, |table|, nextId, items);
      }
    } else {
      NoCloses(table, nextId, items);
    }
  }

  lemma NoCloses(t: seq<Row>, nextId: int, items: seq<CloseItem>)
    ensures FreshCloses(t, |t|, nextId, items)
  {
  }

  lemma RestFromReceipts(items: seq<CloseItem>)
    requires |items| > 0 && FromReceipts(items)
    ensures items[0].e in items[0].d.settlements && FromReceipts(items[1..])
  {
    assert items[0] in items;
    assert forall it :: it in items[1..] ==> it in items;
  }

  lemma AddedByMore(items: seq<CloseItem>, r: Row)
    requires |items| > 0
    requires AddedBy(items[1..], r)
             || (items[0].e == SettlementEvent(r.auction, r.token) && AddedClose(items[0].receipt, items[0].d, r))
    ensures AddedBy(items, r)
  {
    hide AddedClose;
    assert items == [items[0]] + items[1..];
  }

  lemma LaterCloses(t: seq<Row>, n: nat, nextId: int, items: seq<CloseItem>)
    requires |items| > 0 && FreshCloses(t, n, nextId, items[1..])
    ensures FreshCloses(t, n, nextId, items)
  {
    hide AddedBy, IsExact;
    forall i | n <= i < |t| ensures AddedBy(items, t[i]) {
      AddedByMore(items, t[i]);
    }
  }

  lemma OneMoreClose(table: seq<Row>, t: seq<Row>, nextId: int, items: seq<CloseItem>, r: Row)
    requires |items| > 0 && table + [r] <= t && FreshCloses(t, |table| + 1, nextId + 1, items[1..])
    requires AddedClose(items[0].receipt, items[0].d, r) && r.id == nextId
    requires items[0].e == SettlementEvent(r.auction, r.token)
    requires !HasExact(table, Settled, items[0].receipt.tx, r.auction, r.token)
    ensures FreshCloses(t, |table|, nextId, items)
  {
    assert r.tx == Some(items[0].receipt.tx);
    hide AddedBy, AddedClose, IsExact;
    LaterCloses(t, |table| + 1, nextId + 1, items);
    assert t[|table|] == (table + [r])[|table|] == r;
    AddedByMore(items, r);
    forall j | 0 <= j < |table| ensures !IsExact(t[j], Settled, r.tx.value, r.auction, r.token) {
      assert t[j] == (table + [r])[j] == table[j] && table[j] in table;
    }
  }

  lemma NewCloseIsAdded(table: seq<Row>, receipt: Receipt, d: Decoded, e: SettlementEvent, r: Row)
    requires e in d.settlements
    requires var close := NewClose(table, receipt, d, e); close.Some? && r == close.value.(id := r.id)
    ensures AddedClose(receipt, d, r) && !HasExact(table, Settled, receipt.tx, r.auction, r.token)
    ensures e == SettlementEvent(r.auction, r.token)
  {
    hide LatestUnclosedKick, HasExact;
  }

  lemma {:induction false} SettleIsIdentityIff(table: seq<Row>, nextId: int, items: seq<CloseItem>)
    ensures SettleAll(table, nextId, items) == table <==>
            forall it :: it in items ==> NewClose(table, it.receipt, it.d, it.e).None?
    decreases |items|
  {
    hide NewClose;
    if |items| > 0 {
      assert items == [items[0]] + items[1..];
      var close := NewClose(table, items[0].receipt, items[0].d, items[0].e);
      if close.None? {
        SettleIsIdentityIff(table, nextId, items[1..]);
      } else {
        assert |SettleAll(table, nextId, items)| > |table|;
      }
    }
  }

  /** Adding closes never makes a lookup succeed. */
  lemma GrowthFindsNoMore(table: seq<Row>, t: seq<Row>, auction: string, token: string, before: Option<Pos>)
    requires OnlyAddsCloses(table, t)
    requires LatestUnclosedKick(table, auction, token, before).None?
    ensures LatestUnclosedKick(t, auction, token, before).None?
  {
    hide LatestUnclosedKick;
    forall r | r in t ensures !Candidate(t, auction, token, before, r) {
      if r in table {
        assert !Candidate(table, auction, token, before, r);
        if HasConfirmedClose(table, auction, token, r.id) {
          var c :| c in table && OfPair(c, auction, token) && c.link == Some(r.id) && c.status.Confirmed?
              && c.ClosesRound();
          assert c in t;
        }
      }
    }
  }

  /** Once all events were handled, none of them would add anything more. */
  lemma {:induction false} SettleExhausts(table: seq<Row>, nextId: int, items: seq<CloseItem>, it: CloseItem)
    requires it in items
    ensures NewClose(SettleAll(table, nextId, items), it.receipt, it.d, it.e).None?
    decreases |items|
  {
    hide LatestUnclosedKick;
    var t := SettleAll(table, nextId, items);
    assert items == [items[0]] + items[1..];
    var close := NewClose(table, items[0].receipt, items[0].d, items[0].e);
    if it in items[1..] {
      if close.None? {
        SettleExhausts(table, nextId, items[1..], it);
      } else {
        SettleExhausts(table + [close.value.(id := nextId)], nextId + 1, items[1..], it);
      }
    } else if close.Some? {
      var r := close.value.(id := nextId);
      assert t[|table|] == r;
      assert r in t && IsExact(r, Settled, it.receipt.tx, it.e.auction, it.e.token);
    } else if HasExact(table, Settled, it.receipt.tx, it.e.auction, it.e.token) {
      var r :| r in table && IsExact(r, Settled, it.receipt.tx, it.e.auction, it.e.token);
      assert r in t;
    } else if !ResolvedPair(it.d, it.e.auction, it.e.token) {
      SettleAddsCloses(table, nextId, items);
      GrowthFindsNoMore(table, t, it.e.auction, it.e.token, Some(it.receipt.pos));
    }
  }

  ghost predicate OnlyAddsCloses(table: seq<Row>, t: seq<Row>) {
    table <= t && forall i :: |table| <= i < |t| ==> t[i].op.Settled?
  }

  lemma {:induction false} SettleAddsCloses(table: seq<Row>, nextId: int, items: seq<CloseItem>)
    ensures OnlyAddsCloses(table, SettleAll(table, nextId, items))
    decreases |items|
  {
    hide LatestUnclosedKick;
    if |items| > 0 {
      var close := NewClose(table, items[0].receipt, items[0].d, items[0].e);
      if close.None? {
        SettleAddsCloses(table, nextId, items[1..]);
      } else {
        var more := table + [close.value.(id := nextId)];
        SettleAddsCloses(more, nextId + 1, items[1..]);
        var t := SettleAll(table, nextId, items);
        forall i | |table| <= i < |t| ensures t[i].op.Settled? {
          assert i < |more| ==> t[i] == more[i];
        }
      }
    }
  }

  // ----------------------------------------------------------------- replay

  ghost predicate NothingLinkable(table: seq<Row>, receipt: Receipt, d: Decoded, accept: int -> bool) {
    forall r :: r in table && Own(receipt.tx, accept, r) ==> !Linkable(table, receipt, d, r)
  }

  /** Every own row of an applied receipt is final. */
  lemma AppliedIsFinal(table: seq<Row>, nextId: int, receipt: Receipt, d: Decoded, accept: int -> bool, r: Row)
    requires Ascending(table) && Below(table, nextId) && receipt.ok
    requires RowsOf(table, receipt.tx, accept) != []
    requires var t := ApplyReceipt(table, nextId, receipt, Some(d), accept); r in t && Own(receipt.tx, accept, r)
    ensures Final(receipt, d, r)
  {
    hide Filter, FinalizeRows, SettleAll, Stamp;
    var todo := RowsOf(table, receipt.tx, accept);
    var f := FinalizeRows(table, receipt, d, todo);
    var t := SettleAll(f, nextId, ItemsOf(receipt, d));
    OwnRowsInTable(table, receipt.tx, accept);
    PassFinalizes(table, receipt, d, todo);
    PassKeepsBelow(table, f, nextId);
    SettleAdds(f, nextId, ItemsOf(receipt, d));
    var i :| 0 <= i < |t| && t[i] == r;
    if i < |f| {
      assert r == f[i] && SameIdentity(f[i], table[i]);
      assert table[i] in todo;
    } else {
      var it :| it in ItemsOf(receipt, d) && AddedClose(it.receipt, it.d, r);
      SettledIsFinal(receipt, d, r);
    }
  }

  lemma PassKeepsBelow(table: seq<Row>, f: seq<Row>, nextId: int)
    requires Below(table, nextId) && |f| == |table|
    requires forall i :: 0 <= i < |f| ==> SameIdentity(f[i], table[i])
    ensures Below(f, nextId)
  {
    forall r | r in f ensures r.id < nextId {
      var i :| 0 <= i < |f| && f[i] == r;
      assert SameIdentity(f[i], table[i]) && table[i] in table;
    }
  }

  lemma SettledIsFinal(receipt: Receipt, d: Decoded, r: Row)
    requires AddedClose(receipt, d, r)
    ensures Final(receipt, d, r)
  {
  }

  /** Replaying a receipt leaves the whole table as the first application left it exactly
      when that application left no row wanting a round it could now be given. */
  lemma ReplayIff(table: seq<Row>, nextId: int, receipt: Receipt, d: Decoded, accept: int -> bool, again: int)
    requires Ascending(table) && Below(table, nextId) && receipt.ok
    requires RowsOf(table, receipt.tx, accept) != []
    ensures var once := ApplyReceipt(table, nextId, receipt, Some(d), accept);
            ApplyReceipt(once, again, receipt, Some(d), accept) == once <==> NothingLinkable(once, receipt, d, accept)
  {
    hide Filter, FinalizeRows, SettleAll, Stamp, Finalized, Linkable, NewClose;
    var once := ApplyReceipt(table, nextId, receipt, Some(d), accept);
    AppliedAscending(table, nextId, receipt, d, accept);
    OwnRowsInTable(once, receipt.tx, accept);
    var todo := RowsOf(once, receipt.tx, accept);
    forall r | r in todo ensures Finalized(once, receipt, d, r) == r <==> !Linkable(once, receipt, d, r) {
      AppliedIsFinal(table, nextId, receipt, d, accept, r);
      RefinalizeIff(once, receipt, d, r);
    }
    PassIsIdentityIff(once, receipt, d, todo);
    var f := FinalizeRows(table, receipt, d, RowsOf(table, receipt.tx, accept));
    var items := ItemsOf(receipt, d);
    forall it | it in items ensures NewClose(once, it.receipt, it.d, it.e).None? {
      SettleExhausts(f, nextId, items, it);
    }
    SettleIsIdentityIff(once, again, items);
    if todo != [] {
      var g := FinalizeRows(once, receipt, d, todo);
      assert g <= SettleAll(g, again, items);
    }
  }

  lemma AppliedAscending(table: seq<Row>, nextId: int, receipt: Receipt, d: Decoded, accept: int -> bool)
    requires Ascending(table) && Below(table, nextId) && receipt.ok
    ensures Ascending(ApplyReceipt(table, nextId, receipt, Some(d), accept))
  {
    hide Filter, FinalizeRows, SettleAll;
    var todo := RowsOf(table, receipt.tx, accept);
    if todo != [] {
      var f := FinalizeRows(table, receipt, d, todo);
      OwnRowsInTable(table, receipt.tx, accept);
      PassFinalizes(table, receipt, d, todo);
      PassKeepsBelow(table, f, nextId);
      SettleAdds(f, nextId, ItemsOf(receipt, d));
    }
  }

  lemma {:induction false} MinedPointwise(table: seq<Row>, receipt: Receipt, status: Status, todo: seq<Row>)
    requires Ascending(table) && InTable(table, todo)
    ensures var t := MineRows(table, receipt, status, todo);
            forall i :: 0 <= i < |t| ==>
                t[i] == if Named(todo, table[i].id) then Mined(table[i], receipt, status) else table[i]
    decreases |todo|
  {
    hide Mined;
    if |todo| > 0 {
      var m := Mined(todo[0], receipt, status);
      MinedKeepsId(todo[0], receipt, status);
      var next := SetRow(table, m);
      assert todo[0] in todo && todo == [todo[0]] + todo[1..];
      SetPresent(table, m, todo[0]);
      forall r | r in todo[1..] ensures r in next && r.id != todo[0].id {
        var i :| 0 <= i < |todo[1..]| && todo[1..][i] == r;
        assert todo[i + 1] == r && r in todo;
      }
      MinedPointwise(next, receipt, status, todo[1..]);
      var t := MineRows(table, receipt, status, todo);
      forall i | 0 <= i < |t|
        ensures t[i] == if Named(todo, table[i].id) then Mined(table[i], receipt, status) else table[i]
      {
        assert Named(todo, table[i].id) <==> table[i].id == todo[0].id || Named(todo[1..], table[i].id);
        if table[i].id == todo[0].id {
          SameIdSame(table, table[i], todo[0]);
        }
      }
    }
  }

  lemma MinedKeepsId(row: Row, receipt: Receipt, status: Status)
    ensures SameIdentity(Mined(row, receipt, status), row)
    ensures Mined(Mined(row, receipt, status), receipt, status) == Mined(row, receipt, status)
  {
  }

  /** A reverted receipt, or one whose events cannot be decoded, always replays to the
      same table. */
  lemma PlainReplay(table: seq<Row>, nextId: int, receipt: Receipt, decoded: Option<Decoded>,
      accept: int -> bool, again: int)
    requires Ascending(table) && (!receipt.ok || decoded.None?)
    ensures var once := ApplyReceipt(table, nextId, receipt, decoded, accept);
            ApplyReceipt(once, again, receipt, decoded, accept) == once
  {
    hide Filter, Mined, MineRows;
    var status: Status := if receipt.ok then Confirmed else OtherStatus;
    var todo := RowsOf(table, receipt.tx, accept);
    var once := ApplyReceipt(table, nextId, receipt, decoded, accept);
    OwnRowsInTable(table, receipt.tx, accept);
    MinedPointwise(table, receipt, status, todo);
    if todo != [] {
      forall i | 0 <= i < |table| ensures SameIdentity(once[i], table[i]) {
        MinedKeepsId(table[i], receipt, status);
      }
      assert Ascending(once) by {
        assert forall i :: 0 <= i < |once| ==> once[i].id == table[i].id;
      }
      OwnRowsInTable(once, receipt.tx, accept);
      var todo' := RowsOf(once, receipt.tx, accept);
      MinedPointwise(once, receipt, status, todo');
      var twice := MineRows(once, receipt, status, todo');
      forall i | 0 <= i < |once| ensures twice[i] == once[i] {
        assert Named(todo', once[i].id) ==> Own(receipt.tx, accept, table[i]) by {
          if Named(todo', once[i].id) {
            var x :| x in todo' && x.id == once[i].id;
            SameIdSame(once, x, once[i]);
          }
        }
        assert Own(receipt.tx, accept, table[i]) ==> table[i] in todo;
        MinedKeepsId(table[i], receipt, status);
      }
      assert twice == once;
    }
  }

  // ------------------------------------------------- when replay is harmless

  /** Rows already confirmed as closing resolves have a closing path in the receipt too,
      if the receipt says anything about them. A caller can check this beforehand. */
  ghost predicate PathsAgree(todo: seq<Row>, d: Decoded) {
    forall r :: r in todo && r.status.Confirmed? && r.op.Resolve? && r.ClosesRound() ==> KeepsClosing(r, d)
  }

  ghost predicate KeepsClosing(r: Row, d: Decoded) {
    var e := FirstResolve(d.resolves, r.auction, r.token);
    e.Some? ==> e.value.path in {1, 3, 4, 5}
  }

  /** A confirmed close stays one, for the same kick, when its row is finalized. */
  lemma CloseSurvives(table: seq<Row>, receipt: Receipt, d: Decoded, c: Row)
    requires c.status.Confirmed? && c.ClosesRound() && c.link.Some?
    requires c.op.Resolve? ==> KeepsClosing(c, d)
    ensures var f := Finalized(table, receipt, d, c);
            f.status.Confirmed? && f.ClosesRound() && f.link == c.link && SameIdentity(f, c)
  {
    hide LatestUnclosedKick;
  }

  lemma {:induction false} PassImage(table: seq<Row>, receipt: Receipt, d: Decoded, todo: seq<Row>, x: Row)
    requires Ascending(table) && InTable(table, todo) && x in todo
    ensures exists t :: Finalized(t, receipt, d, x) in FinalizeRows(table, receipt, d, todo)
    decreases |todo|
  {
    hide Finalized;
    Advance(table, receipt, d, todo);
    var f := Finalized(table, receipt, d, todo[0]);
    assert todo == [todo[0]] + todo[1..];
    if x in todo[1..] {
      PassImage(SetRow(table, f), receipt, d, todo[1..], x);
    } else {
      forall y | y in todo[1..] ensures y.id != f.id {
        var i :| 0 <= i < |todo[1..]| && todo[1..][i] == y;
        assert todo[i + 1] == y;
      }
      PassKeepsOthers(SetRow(table, f), receipt, d, todo[1..], f);
    }
  }

  /** With agreeing paths, a lookup that fails before the rest of a pass fails after it. */
  lemma LookupStaysEmpty(table: seq<Row>, receipt: Receipt, d: Decoded, todo: seq<Row>, auction: string, token: string)
    requires Ascending(table) && InTable(table, todo) && PathsAgree(todo, d)
    requires LatestUnclosedKick(table, auction, token, Some(receipt.pos)).None?
    ensures LatestUnclosedKick(FinalizeRows(table, receipt, d, todo), auction, token, Some(receipt.pos)).None?
  {
    hide LatestUnclosedKick, Finalized, FinalizeRows, KeepsClosing, Final;
    var f := FinalizeRows(table, receipt, d, todo);
    PassFinalizes(table, receipt, d, todo);
    forall k | k in f ensures !Candidate(f, auction, token, Some(receipt.pos), k) {
      if Named(todo, k.id) {
        FinalPosition(receipt, d, k);
      } else {
        assert k in table && !Candidate(table, auction, token, Some(receipt.pos), k);
        if HasConfirmedClose(table, auction, token, k.id) {
          ClosePersists(table, receipt, d, todo, auction, token, k.id);
        }
      }
    }
  }

  lemma FinalPosition(receipt: Receipt, d: Decoded, r: Row)
    requires Final(receipt, d, r)
    ensures r.Position() == Some(receipt.pos)
  {
  }

  lemma ClosePersists(table: seq<Row>, receipt: Receipt, d: Decoded, todo: seq<Row>, auction: string,
      token: string, kickId: int)
    requires Ascending(table) && InTable(table, todo) && PathsAgree(todo, d)
    requires HasConfirmedClose(table, auction, token, kickId)
    ensures HasConfirmedClose(FinalizeRows(table, receipt, d, todo), auction, token, kickId)
  {
    hide Finalized, FinalizeRows, KeepsClosing;
    var f := FinalizeRows(table, receipt, d, todo);
    var c :| c in table && OfPair(c, auction, token) && c.link == Some(kickId) && c.status.Confirmed?
        && c.ClosesRound();
    if Named(todo, c.id) {
      var x :| x in todo && x.id == c.id;
      SameIdSame(table, c, x);
      PassImage(table, receipt, d, todo, x);
      var t :| Finalized(t, receipt, d, x) in f;
      CloseSurvives(t, receipt, d, x);
    } else {
      PassKeepsOthers(table, receipt, d, todo, c);
    }
  }

  /** The first row of a pass, if left unlinked: the lookup failed then and fails still. */
  lemma HeadNotLinkable(table: seq<Row>, receipt: Receipt, d: Decoded, todo: seq<Row>, r: Row)
    requires Ascending(table) && InTable(table, todo) && PathsAgree(todo, d) && |todo| > 0
    requires r in FinalizeRows(table, receipt, d, todo) && r.id == todo[0].id
    requires r.link.None? && WantsRound(r, d)
    ensures LatestUnclosedKick(FinalizeRows(table, receipt, d, todo), r.auction, r.token, Some(receipt.pos)).None?
  {
    FirstStays(table, receipt, d, todo);
    hide LatestUnclosedKick, Finalized, FinalizeRows, PathsAgree, WantsRound, InTable;
    var f := Finalized(table, receipt, d, todo[0]);
    SameIdSame(FinalizeRows(table, receipt, d, todo), r, f);
    FinalizedKeepsId(table, receipt, d, todo[0]);
    UnlinkedMeansNoKick(table, receipt, d, todo[0]);
    LookupStaysEmpty(table, receipt, d, todo, r.auction, r.token);
  }

  lemma {:induction false} PassLeavesNoneLinkable(table: seq<Row>, receipt: Receipt, d: Decoded, todo: seq<Row>, r: Row)
    requires Ascending(table) && InTable(table, todo) && PathsAgree(todo, d)
    requires r in FinalizeRows(table, receipt, d, todo) && Named(todo, r.id)
    requires r.link.None? && WantsRound(r, d)
    ensures LatestUnclosedKick(FinalizeRows(table, receipt, d, todo), r.auction, r.token, Some(receipt.pos)).None?
    decreases |todo|
  {
    assert |todo| > 0;
    if r.id == todo[0].id {
      HeadNotLinkable(table, receipt, d, todo, r);
    } else {
      Advance(table, receipt, d, todo);
      PassStep(table, receipt, d, todo);
      RestAgrees(todo, d, r.id);
      hide LatestUnclosedKick, Finalized, FinalizeRows, PathsAgree, WantsRound, InTable, Named;
      PassLeavesNoneLinkable(SetRow(table, Finalized(table, receipt, d, todo[0])), receipt, d, todo[1..], r);
    }
  }

  lemma RestAgrees(todo: seq<Row>, d: Decoded, id: int)
    requires |todo| > 0 && PathsAgree(todo, d) && Named(todo, id) && id != todo[0].id
    ensures PathsAgree(todo[1..], d) && Named(todo[1..], id)
  {
    hide KeepsClosing;
    assert todo == [todo[0]] + todo[1..];
  }

  lemma UnlinkedMeansNoKick(table: seq<Row>, receipt: Receipt, d: Decoded, x: Row)
    requires var r := Finalized(table, receipt, d, x); r.link.None? && WantsRound(r, d)
    ensures LatestUnclosedKick(table, x.auction, x.token, Some(receipt.pos)).None?
  {
    hide LatestUnclosedKick;
  }

  /** Replaying a receipt whose paths agree with what its rows already record changes no
      column of any row and adds no row. */
  lemma ReplayHarmless(table: seq<Row>, nextId: int, receipt: Receipt, d: Decoded, accept: int -> bool, again: int)
    requires Ascending(table) && Below(table, nextId) && receipt.ok
    requires PathsAgree(RowsOf(table, receipt.tx, accept), d)
    ensures var once := ApplyReceipt(table, nextId, receipt, Some(d), accept);
            ApplyReceipt(once, again, receipt, Some(d), accept) == once
  {
    hide Filter, FinalizeRows, SettleAll, Stamp, LatestUnclosedKick, PathsAgree, Final;
    var todo := RowsOf(table, receipt.tx, accept);
    var once := ApplyReceipt(table, nextId, receipt, Some(d), accept);
    if todo != [] {
      var f := FinalizeRows(table, receipt, d, todo);
      OwnRowsInTable(table, receipt.tx, accept);
      PassFinalizes(table, receipt, d, todo);
      SettleAddsCloses(f, nextId, ItemsOf(receipt, d));
      forall r | r in once && Own(receipt.tx, accept, r) ensures !Linkable(once, receipt, d, r) {
        if r.link.None? && WantsRound(r, d) {
          var i :| 0 <= i < |once| && once[i] == r;
          assert i < |f| && r == f[i] && SameIdentity(f[i], table[i]);
          assert table[i] in todo;
          PassLeavesNoneLinkable(table, receipt, d, todo, r);
          GrowthFindsNoMore(f, once, r.auction, r.token, Some(receipt.pos));
        }
      }
      ReplayIff(table, nextId, receipt, d, accept, again);
    }
  }
}
