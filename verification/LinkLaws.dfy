/** What rebuilt links guarantee: idempotence, one close per kick, and evidence that is
    never contradicted by chain order. */
module LinkLaws {
  import opened Common
  import opened Rounds
  import opened KickTable
  import opened RoundLinks

  /** Rows equal but for the links of recoveries. */
  ghost predicate LinksOnly(before: seq<Row>, after: seq<Row>) {
    && |before| == |after|
    && forall i :: 0 <= i < |before| ==>
         after[i] == before[i].(link := after[i].link) && (!IsRecovery(before[i]) ==> after[i] == before[i])
  }

  lemma OpenIgnoresLinks(before: seq<Row>, after: seq<Row>, r: Row, r': Row, k: Row)
    requires LinksOnly(before, after)
    requires r.Position().Some? && r' == r.(link := r'.link)
    requires OpenBefore(before, r, k)
    ensures OpenBefore(after, r', k)
  {
    var i :| 0 <= i < |before| && before[i] == k;
    assert after[i] == k;
    forall x | x in after && OnChain(x, r.auction, r.token) && IsMark(x) && ChainLess(x, r') ensures !ChainLess(k, x) {
      var j :| 0 <= j < |after| && after[j] == x;
      assert before[j] in before;
    }
  }

  lemma CanonicalIgnoresLinks(before: seq<Row>, after: seq<Row>, r: Row, r': Row, link: Option<int>)
    requires LinksOnly(before, after)
    requires r.Position().Some? && r' == r.(link := r'.link)
    requires CanonicalLink(before, r, link)
    ensures CanonicalLink(after, r', link)
  {
    hide OpenBefore;
    assert LinksOnly(after, before);
    if link.Some? {
      var k :| OpenBefore(before, r, k) && link.value == k.id;
      OpenIgnoresLinks(before, after, r, r', k);
    } else {
      forall k | OpenBefore(after, r', k) ensures OpenBefore(before, r, k) {
        OpenIgnoresLinks(after, before, r', r, k);
      }
    }
  }

  /** A rebuilt table read back: every confirmed positioned recovery of the pair sits on
      the canonical link of the table itself. */
  lemma RebuiltCanonical(before: seq<Row>, after: seq<Row>, auction: string, token: string, r: Row)
    requires Relinked(before, after, auction, token)
    requires r in after && Relinkable(r, auction, token)
    ensures CanonicalLink(after, r, r.link)
  {
    hide CanonicalLink;
    var i :| 0 <= i < |after| && after[i] == r;
    CanonicalIgnoresLinks(before, after, before[i], r, r.link);
  }

  /** A rebuilt link points at a kick strictly earlier in chain order, with no kick and no
      close of the pair in between. */
  lemma PairPlacement(before: seq<Row>, after: seq<Row>, auction: string, token: string, r: Row)
    requires Relinked(before, after, auction, token)
    requires r in after && Relinkable(r, auction, token) && r.link.Some?
    ensures exists k ::
              && k in after && k.op.Kick? && k.id == r.link.value && OnChain(k, auction, token) && ChainLess(k, r)
              && forall x :: x in after && OnChain(x, auction, token) && IsMark(x) && ChainLess(x, r) ==>
                  !ChainLess(k, x)
  {
    RebuiltCanonical(before, after, auction, token, r);
    var k :| OpenBefore(after, r, k) && r.link.value == k.id;
    assert k in after;
  }

  /** No kick ever has two positioned confirmed closes. */
  lemma PairOneClose(before: seq<Row>, after: seq<Row>, auction: string, token: string, c: Row, d: Row)
    requires Ascending(before) && Relinked(before, after, auction, token)
    requires c in after && d in after && c.link == d.link && c.link.Some?
    requires Relinkable(c, auction, token) && Relinkable(d, auction, token) && c.ClosesRound() && d.ClosesRound()
    ensures c == d
  {
    RelinkedAscending(before, after, auction, token);
    PairPlacement(before, after, auction, token, c);
    PairPlacement(before, after, auction, token, d);
    SameIdSame(after, c, d);
    if ChainLess(c, d) {
      PairCloseBlocks(before, after, auction, token, c, d);
    } else if ChainLess(d, c) {
      PairCloseBlocks(before, after, auction, token, d, c);
    }
  }

  lemma SameIdSame(rows: seq<Row>, a: Row, b: Row)
    requires Ascending(rows) && a in rows && b in rows
    ensures a.id == b.id ==> a == b
  {
    var i :| 0 <= i < |rows| && rows[i] == a;
    var j :| 0 <= j < |rows| && rows[j] == b;
    assert a.id == b.id ==> i == j;
  }

  lemma RelinkedAscending(before: seq<Row>, after: seq<Row>, auction: string, token: string)
    requires Ascending(before) && Relinked(before, after, auction, token)
    ensures Ascending(after)
  {
    forall i, j | 0 <= i < j < |after| ensures after[i].id < after[j].id {
      assert before[i].id < before[j].id;
    }
  }

  /** A recovery after a close is never linked to the kick that close ended. */
  lemma PairCloseBlocks(before: seq<Row>, after: seq<Row>, auction: string, token: string, c: Row, r: Row)
    requires Ascending(before) && Relinked(before, after, auction, token)
    requires c in after && r in after && Relinkable(c, auction, token) && Relinkable(r, auction, token)
    requires c.ClosesRound() && ChainLess(c, r)
    ensures c.link.None? || r.link != c.link
  {
    if c.link.Some? && r.link == c.link {
      RelinkedAscending(before, after, auction, token);
      RebuiltCanonical(before, after, auction, token, c);
      RebuiltCanonical(before, after, auction, token, r);
      var k :| OpenBefore(after, c, k) && c.link.value == k.id;
      var l :| OpenBefore(after, r, l) && r.link.value == l.id;
      SameIdSame(after, k, l);
    }
  }

  // ------------------------------------------------------ what is classified

  ghost predicate UnlinkedKicks(rows: seq<Row>) {
    forall r :: r in rows && r.op.Kick? ==> r.link.None?
  }

  lemma {:induction false} FilterAscending(p: Row -> bool, rows: seq<Row>)
    requires Ascending(rows)
    ensures Ascending(Filter(p, rows))
  {
    if |rows| > 0 {
      var init, last := rows[..|rows| - 1], rows[|rows| - 1];
      FilterAscending(p, init);
      var f := Filter(p, init);
      forall i | 0 <= i < |f| ensures f[i].id < last.id {
        assert f[i] in f && f[i] in init;
        var j :| 0 <= j < |init| && init[j] == f[i];
        assert rows[j].id < rows[|rows| - 1].id;
      }
    }
  }

  lemma CleanRowDefect(kick: Row, linked: seq<Row>, r: Row)
    requires FirstRowDefect(kick, linked).None?
    requires r in linked && r.status.Confirmed?
    ensures r.Position().Some?
  {
    hide FirstRowDefect, RowDefect;
    assert RowDefect(kick, r).None?;
    NoDefectPlaced(kick, r);
  }

  lemma NoDefectPlaced(kick: Row, r: Row)
    requires RowDefect(kick, r).None? && r.status.Confirmed?
    ensures r.Position().Some? && r.minedAt.Some?
  {
  }

  /** Where each of the chain-order reasons comes from. */
  lemma ReasonSource(kick: Row, ops: seq<Row>)
    ensures var e, linked := ClassifyRound(kick, ops), Filter(LinkedTo(kick.id), ops);
            && (e.reason.RecoveryBeforeKick? ==>
                exists r :: r in linked && RowDefect(kick, r) == Some(RecoveryBeforeKick))
            && (e.reason.DuplicateLogicalClose? ==>
                  FirstRowDefect(kick, linked).None? && |Closes(Filter(IS_CONFIRMED, linked))| >= 2)
            && (e.reason.RecoveryAfterClose? ==>
                  && FirstRowDefect(kick, linked).None? && |Closes(Filter(IS_CONFIRMED, linked))| == 1
                  && exists r :: r in Filter(IS_SWEEP, Filter(IS_CONFIRMED, linked)) && r.Position().Some?
                       && Closes(Filter(IS_CONFIRMED, linked))[0].Position().Some?
                       && Closes(Filter(IS_CONFIRMED, linked))[0].Position().value.Before(r.Position().value))
  {
    hide Filter, Sum, Map, FirstRowDefect, FirstPathDefect;
    var linked := Filter(LinkedTo(kick.id), ops);
    assert forall r :: r in linked ==>
      RowDefect(kick, r) != Some(DuplicateLogicalClose) && RowDefect(kick, r) != Some(RecoveryAfterClose);
    assert forall r :: r in Filter(IS_RESOLVE, Filter(IS_CONFIRMED, linked)) ==>
      PathDefect(r) != Some(DuplicateLogicalClose) && PathDefect(r) != Some(RecoveryAfterClose)
          && PathDefect(r) != Some(RecoveryBeforeKick);
    if FirstRowDefect(kick, linked).None? {
      forall r | r in Filter(IS_CONFIRMED, linked) ensures r.Position().Some? {
        NoDefectPlaced(kick, r);
      }
    }
  }

  /** After a rebuild, no round of the pair is in doubt because of chain order: never two
      closes, never a sweep after the close, and a recovery "before" its kick only if it
      shares the kick's own transaction. */
  lemma PairEvidence(before: seq<Row>, after: seq<Row>, auction: string, token: string, kick: Row)
    requires Ascending(before) && Relinked(before, after, auction, token)
    requires UnlinkedKicks(before)
    requires kick in after && OfPair(kick, auction, token) && kick.op.Kick?
    ensures var e := ClassifyRound(kick, PairOperations(after, auction, token));
            && !e.reason.DuplicateLogicalClose? && !e.reason.RecoveryAfterClose?
            && (e.reason.RecoveryBeforeKick? ==>
                  exists r :: r in after && Relinkable(r, auction, token) && r.Position() == kick.Position())
  {
    hide Filter, ClassifyRound, FirstRowDefect, Closes, Relinked;
    var ops := PairOperations(after, auction, token);
    var linked := Filter(LinkedTo(kick.id), ops);
    var confirmed := Filter(IS_CONFIRMED, linked);
    ReasonSource(kick, ops);
    KicksStayUnlinked(before, after, auction, token);
    var e := ClassifyRound(kick, ops);
    if e.reason.DuplicateLogicalClose? {
      TwoCloses(before, after, auction, token, kick);
    } else if e.reason.RecoveryAfterClose? {
      var r :| r in Filter(IS_SWEEP, confirmed) && r.Position().Some? && Closes(confirmed)[0].Position().Some?
               && Closes(confirmed)[0].Position().value.Before(r.Position().value);
      CloseIsConfirmedClose(confirmed, Closes(confirmed)[0]);
      PairCloseBlocks(before, after, auction, token, Closes(confirmed)[0], r);
    } else if e.reason.RecoveryBeforeKick? {
      var r :| r in linked && RowDefect(kick, r) == Some(RecoveryBeforeKick);
      PairPlacement(before, after, auction, token, r);
      var k :| k in after && k.op.Kick? && k.id == r.link.value && OnChain(k, auction, token) && ChainLess(k, r);
      RelinkedAscending(before, after, auction, token);
      SameIdSame(after, k, kick);
    }
  }

  lemma KicksStayUnlinked(before: seq<Row>, after: seq<Row>, auction: string, token: string)
    requires Relinked(before, after, auction, token) && UnlinkedKicks(before)
    ensures UnlinkedKicks(after)
  {
    hide CanonicalLink;
    forall r | r in after && r.op.Kick? ensures r.link.None? {
      var i :| 0 <= i < |after| && after[i] == r;
      assert before[i] in before;
    }
  }

  lemma CloseIsConfirmedClose(confirmed: seq<Row>, c: Row)
    requires c in Closes(confirmed)
    ensures c in confirmed && c.ClosesRound()
  {
    hide Filter;
  }

  lemma TwoCloses(before: seq<Row>, after: seq<Row>, auction: string, token: string, kick: Row)
    requires Ascending(before) && Relinked(before, after, auction, token) && UnlinkedKicks(after)
    requires FirstRowDefect(kick, Filter(LinkedTo(kick.id), PairOperations(after, auction, token))).None?
    ensures |Closes(Filter(IS_CONFIRMED, Filter(LinkedTo(kick.id), PairOperations(after, auction, token))))| <= 1
  {
    hide Filter, FirstRowDefect, Relinked, Closes;
    var ops := PairOperations(after, auction, token);
    RelinkedAscending(before, after, auction, token);
    FilterAscending(InPair(auction, token), after);
    var closes := Filter(ClosesKick(kick.id), ops);
    FilterAscending(ClosesKick(kick.id), ops);
    CountFilters(kick, ops);
    SameMembers(Closes(Filter(IS_CONFIRMED, Filter(LinkedTo(kick.id), ops))), closes);
    if |closes| >= 2 {
      var c, d := closes[0], closes[1];
      assert c in closes && d in closes;
      CleanRowDefect(kick, Filter(LinkedTo(kick.id), ops), c);
      CleanRowDefect(kick, Filter(LinkedTo(kick.id), ops), d);
      PairOneClose(before, after, auction, token, c, d);
    }
  }

  // -------------------------------------------------------------- all pairs

  ghost predicate InPairs(r: Row, pairs: seq<(string, string)>) {
    exists p :: p in pairs && Relinkable(r, p.0, p.1)
  }

  ghost predicate RelinkedAll(before: seq<Row>, after: seq<Row>, pairs: seq<(string, string)>) {
    && LinksOnly(before, after)
    && forall i :: 0 <= i < |before| ==>
         if InPairs(before[i], pairs) then CanonicalLink(before, before[i], after[i].link) else after[i] == before[i]
  }

  lemma RelinkMore(before: seq<Row>, mid: seq<Row>, after: seq<Row>, done: seq<(string, string)>, p: (string, string))
    requires RelinkedAll(before, mid, done) && Relinked(mid, after, p.0, p.1)
    ensures RelinkedAll(before, after, done + [p])
  {
    hide CanonicalLink;
    var more := done + [p];
    assert LinksOnly(mid, before);
    assert forall q :: q in done ==> q in more;
    forall i | 0 <= i < |before|
      ensures if InPairs(before[i], more) then CanonicalLink(before, before[i], after[i].link)
              else after[i] == before[i]
    {
      assert Relinkable(mid[i], p.0, p.1) <==> Relinkable(before[i], p.0, p.1);
      if Relinkable(before[i], p.0, p.1) {
        assert p in more;
        CanonicalIgnoresLinks(mid, before, mid[i], before[i], after[i].link);
      } else if InPairs(before[i], more) {
        var q :| q in more && Relinkable(before[i], q.0, q.1);
        assert q in done;
      }
    }
  }

  /** Rebuild every listed pair; rows of other pairs, and rows not confirmed on chain, are
      untouched, and the canonical links are those of the table before the call. */
  method RebuildRoundLinks(table: KickTxTable, pairs: seq<(string, string)>) returns (changed: bool)
    requires table.Valid()
    modifies table`rows
    ensures table.Valid()
    ensures RelinkedAll(old(table.rows), table.rows, pairs)
    ensures !changed ==> table.rows == old(table.rows)
  {
    hide RelinkedAll, Relinked;
    changed := false;
    NothingRelinked(table.rows);
    for n := 0 to |pairs|
      invariant table.Valid()
      invariant RelinkedAll(old(table.rows), table.rows, pairs[..n])
      invariant !changed ==> table.rows == old(table.rows)
    {
      ghost var mid := table.rows;
      var moved := RebuildPair(table, pairs[n].0, pairs[n].1);
      changed := changed || moved;
      assert pairs[..n + 1] == pairs[..n] + [pairs[n]];
      RelinkMore(old(table.rows), mid, table.rows, pairs[..n], pairs[n]);
    }
    assert pairs[..|pairs|] == pairs;
  }

  lemma NothingRelinked(rows: seq<Row>)
    ensures RelinkedAll(rows, rows, [])
  {
  }

  // ------------------------------------------ the laws for every listed pair

  /** Seen from one listed pair, a rebuild of many pairs is a rebuild of that pair. */
  lemma SeenFromPair(before: seq<Row>, after: seq<Row>, pairs: seq<(string, string)>, p: (string, string))
      returns (mid: seq<Row>)
    requires Ascending(before) && RelinkedAll(before, after, pairs) && p in pairs
    ensures Relinked(mid, after, p.0, p.1) && Ascending(mid)
    ensures UnlinkedKicks(before) ==> UnlinkedKicks(mid)
  {
    hide CanonicalLink;
    mid := seq(|after|, i requires 0 <= i < |after| => if Relinkable(after[i], p.0, p.1) then before[i] else after[i]);
    assert LinksOnly(before, mid);
    forall i | 0 <= i < |mid|
      ensures if Relinkable(mid[i], p.0, p.1) then CanonicalLink(mid, mid[i], after[i].link) else after[i] == mid[i]
    {
      if Relinkable(mid[i], p.0, p.1) {
        assert InPairs(before[i], pairs);
        CanonicalIgnoresLinks(before, mid, before[i], mid[i], after[i].link);
      }
    }
    forall i, j | 0 <= i < j < |mid| ensures mid[i].id < mid[j].id {
      assert before[i].id < before[j].id;
    }
    if UnlinkedKicks(before) {
      forall r | r in mid && r.op.Kick? ensures r.link.None? {
        var i :| 0 <= i < |mid| && mid[i] == r;
        assert before[i] in before;
      }
    }
  }

  /** Rebuilding any set of pairs twice is rebuilding it once, from any starting links. */
  lemma RebuildIdempotent(before: seq<Row>, once: seq<Row>, twice: seq<Row>, pairs: seq<(string, string)>)
    requires RelinkedAll(before, once, pairs) && RelinkedAll(once, twice, pairs)
    ensures twice == once
  {
    hide CanonicalLink;
    forall i | 0 <= i < |once| ensures twice[i] == once[i] {
      if p :| p in pairs && Relinkable(before[i], p.0, p.1) {
        assert Relinkable(once[i], p.0, p.1) && InPairs(before[i], pairs) && InPairs(once[i], pairs);
        CanonicalIgnoresLinks(before, once, before[i], once[i], once[i].link);
        CanonicalUnique(once, once[i], once[i].link, twice[i].link);
      } else {
        assert !InPairs(once[i], pairs);
      }
    }
  }

  /** Every rebuilt link names a kick strictly earlier in chain order, with no kick and no
      close of the pair in between. */
  lemma LinkPlacement(before: seq<Row>, after: seq<Row>, pairs: seq<(string, string)>, p: (string, string), r: Row)
    requires Ascending(before) && RelinkedAll(before, after, pairs) && p in pairs
    requires r in after && Relinkable(r, p.0, p.1) && r.link.Some?
    ensures exists k ::
              && k in after && k.op.Kick? && k.id == r.link.value && OnChain(k, p.0, p.1) && ChainLess(k, r)
              && forall x :: x in after && OnChain(x, p.0, p.1) && IsMark(x) && ChainLess(x, r) ==> !ChainLess(k, x)
  {
    var mid := SeenFromPair(before, after, pairs, p);
    PairPlacement(mid, after, p.0, p.1, r);
  }

  /** No kick of any listed pair has two positioned confirmed closes. */
  lemma OneClosePerKick(before: seq<Row>, after: seq<Row>, pairs: seq<(string, string)>, p: (string, string), c: Row,
                        d: Row)
    requires Ascending(before) && RelinkedAll(before, after, pairs) && p in pairs
    requires c in after && d in after && c.link == d.link && c.link.Some?
    requires Relinkable(c, p.0, p.1) && Relinkable(d, p.0, p.1) && c.ClosesRound() && d.ClosesRound()
    ensures c == d
  {
    var mid := SeenFromPair(before, after, pairs, p);
    PairOneClose(mid, after, p.0, p.1, c, d);
  }

  /** In no listed pair is a recovery after a close linked to the kick that close ended. */
  lemma CloseBlocks(before: seq<Row>, after: seq<Row>, pairs: seq<(string, string)>, p: (string, string), c: Row,
                    r: Row)
    requires Ascending(before) && RelinkedAll(before, after, pairs) && p in pairs
    requires c in after && r in after && Relinkable(c, p.0, p.1) && Relinkable(r, p.0, p.1)
    requires c.ClosesRound() && ChainLess(c, r)
    ensures c.link.None? || r.link != c.link
  {
    var mid := SeenFromPair(before, after, pairs, p);
    PairCloseBlocks(mid, after, p.0, p.1, c, r);
  }

  /** After a rebuild no round of any listed pair is in doubt because of chain order: never
      two closes, never a sweep after the close, and a recovery "before" its kick only if
      it shares the kick's own position. */
  lemma RebuiltEvidence(before: seq<Row>, after: seq<Row>, pairs: seq<(string, string)>, p: (string, string), kick: Row)
    requires Ascending(before) && RelinkedAll(before, after, pairs) && p in pairs && UnlinkedKicks(before)
    requires kick in after && OfPair(kick, p.0, p.1) && kick.op.Kick?
    ensures var e := ClassifyRound(kick, PairOperations(after, p.0, p.1));
            && !e.reason.DuplicateLogicalClose? && !e.reason.RecoveryAfterClose?
            && (e.reason.RecoveryBeforeKick? ==>
                  exists r :: r in after && Relinkable(r, p.0, p.1) && r.Position() == kick.Position())
  {
    hide ClassifyRound, Relinked, RelinkedAll;
    var mid := SeenFromPair(before, after, pairs, p);
    PairEvidence(mid, after, p.0, p.1, kick);
  }
}
