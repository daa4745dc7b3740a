/** Linking each recovery as it confirms, against the canonical batch scan
    (_round_kick_id in tidal/operation_reconciler.py and latest_confirmed_unclosed_kick in
    tidal/persistence/repositories.py). */
module Incremental {
  import opened Common
  import opened Rounds
  import opened KickTable
  import opened RoundLinks

  /** Confirmed operations of one pair, in chain order at distinct positions, not yet
      linked. */
  ghost predicate History(h: seq<Row>, auction: string, token: string) {
    && (forall i :: 0 <= i < |h| ==> OnChain(h[i], auction, token) && h[i].link.None?)
    && (forall i, j :: 0 <= i < j < |h| ==> h[i].Position().value.Before(h[j].Position().value) && h[i].id != h[j].id)
  }

  /** The link a confirming recovery is given from the table so far. */
  function LinkNow(table: seq<Row>, r: Row): Option<int> {
    if r.op.Resolve? && r.path == Some(0) then None
    else
      var kick := LatestUnclosedKick(table, r.auction, r.token, r.Position());
      if kick.Some? then Some(kick.value.id) else None
  }

  /** The table after confirming a history one row at a time. */
  function LinkEach(h: seq<Row>): (t: seq<Row>)
    ensures |t| == |h|
  {
    if |h| == 0 then []
    else
      var t, r := LinkEach(h[..|h| - 1]), h[|h| - 1];
      t + [if IsRecovery(r) then r.(link := LinkNow(t, r)) else r]
  }

  /** The batch scan over the same history. */
  function LinkByScan(h: seq<Row>): (t: seq<Row>)
    ensures |t| == |h|
  {
    seq(|h|, i requires 0 <= i < |h| =>
      if IsRecovery(h[i]) then h[i].(link := Target(h[i], OpenAfter(h[..i]))) else h[i])
  }

  /** The kick at `j` was superseded by a later kick while its round was open. */
  ghost predicate Abandoned(h: seq<Row>, j: nat, n: nat)
    requires j < n <= |h|
  {
    h[j].op.Kick? && exists m :: j < m < n && h[m].op.Kick? && OpenAfter(h[..m]) == Some(h[j].id)
  }

  /** A recovery that expects a round arrives when none is open, yet an abandoned kick is
      still unclosed. */
  ghost predicate StrayRecovery(h: seq<Row>, n: nat)
    requires n < |h|
  {
    && IsRecovery(h[n]) && !(h[n].op.Resolve? && h[n].path == Some(0))
    && OpenAfter(h[..n]).None?
    && exists j :: 0 <= j < n && Abandoned(h, j, n)
  }

  ghost predicate NoOverlap(h: seq<Row>) {
    forall n :: 0 <= n < |h| && h[n].op.Kick? ==> OpenAfter(h[..n]).None?
  }

  /** The scan closed the kick at `j` at some later row before `n`. */
  ghost predicate ClosedBy(h: seq<Row>, j: nat, n: nat)
    requires j < n <= |h|
  {
    exists c :: j < c < n && IsRecovery(h[c]) && h[c].ClosesRound() && OpenAfter(h[..c]) == Some(h[j].id)
  }

  lemma OpenNext(h: seq<Row>, n: nat)
    requires n < |h|
    ensures OpenAfter(h[..n + 1]) == if h[n].op.Kick? then Some(h[n].id)
                                     else if IsRecovery(h[n]) && h[n].ClosesRound() then None
                                     else OpenAfter(h[..n])
  {
    assert h[..n + 1][..n] == h[..n];
  }

  lemma FateStays(h: seq<Row>, j: nat, m: nat)
    requires j < m < |h| && h[j].op.Kick? && OpenAfter(h[..m]) != Some(h[j].id)
    ensures ClosedBy(h, j, m + 1) <==> ClosedBy(h, j, m)
    ensures Abandoned(h, j, m + 1) <==> Abandoned(h, j, m)
  {
    hide OpenAfter;
  }

  lemma FateEnds(h: seq<Row>, j: nat, m: nat)
    requires j < m < |h| && h[j].op.Kick? && OpenAfter(h[..m]) == Some(h[j].id)
    requires !ClosedBy(h, j, m) && !Abandoned(h, j, m)
    ensures ClosedBy(h, j, m + 1) <==> IsRecovery(h[m]) && h[m].ClosesRound()
    ensures Abandoned(h, j, m + 1) <==> h[m].op.Kick?
  {
    hide OpenAfter;
  }

  lemma FateStarts(h: seq<Row>, j: nat)
    requires j < |h| && h[j].op.Kick?
    ensures OpenAfter(h[..j + 1]) == Some(h[j].id) && !ClosedBy(h, j, j + 1) && !Abandoned(h, j, j + 1)
  {
    OpenNext(h, j);
  }

  lemma IdsDiffer(h: seq<Row>, auction: string, token: string, i: nat, j: nat)
    requires History(h, auction, token) && i < j < |h|
    ensures h[i].id != h[j].id
  {
  }

  /** Each kick is open, closed by the scan, or abandoned: exactly one of the three. */
  lemma {:induction false} Fate(h: seq<Row>, auction: string, token: string, j: nat, n: nat)
    requires History(h, auction, token) && j < n <= |h| && h[j].op.Kick?
    ensures OpenAfter(h[..n]) == Some(h[j].id) ==> !ClosedBy(h, j, n) && !Abandoned(h, j, n)
    ensures OpenAfter(h[..n]) != Some(h[j].id) ==> (ClosedBy(h, j, n) <==> !Abandoned(h, j, n))
    decreases n
  {
    hide History, OpenAfter, ClosedBy, Abandoned;
    if n == j + 1 {
      FateStarts(h, j);
    } else {
      var m := n - 1;
      OpenNext(h, m);
      Fate(h, auction, token, j, m);
      IdsDiffer(h, auction, token, j, m);
      if OpenAfter(h[..m]) == Some(h[j].id) {
        FateEnds(h, j, m);
      } else {
        FateStays(h, j, m);
      }
    }
  }

  /** The open kick is the latest kick. */
  lemma {:induction false} OpenIsLatest(h: seq<Row>, n: nat) returns (m: int)
    requires n <= |h|
    ensures -1 <= m < n
    ensures OpenAfter(h[..n]).Some? <==> m >= 0
    ensures m >= 0 ==> h[m].op.Kick? && OpenAfter(h[..n]) == Some(h[m].id)
    ensures m >= 0 ==> forall j :: m < j < n ==> !h[j].op.Kick?
  {
    m := -1;
    if n > 0 {
      OpenNext(h, n - 1);
      if h[n - 1].op.Kick? {
        m := n - 1;
      } else if !(IsRecovery(h[n - 1]) && h[n - 1].ClosesRound()) {
        m := OpenIsLatest(h, n - 1);
      }
    }
  }

  lemma ScanPrefix(h: seq<Row>, n: nat)
    requires n <= |h|
    ensures LinkByScan(h)[..n] == LinkByScan(h[..n])
  {
    forall i | 0 <= i < n ensures LinkByScan(h)[i] == LinkByScan(h[..n])[i] {
      assert h[..n][..i] == h[..i];
    }
  }

  lemma ClosedHasClose(h: seq<Row>, auction: string, token: string, j: nat, c: nat)
    requires History(h, auction, token) && j < c < |h|
    requires IsRecovery(h[c]) && h[c].ClosesRound() && OpenAfter(h[..c]) == Some(h[j].id)
    ensures HasConfirmedClose(LinkByScan(h), auction, token, h[j].id)
  {
    hide OpenAfter;
    var t := LinkByScan(h);
    assert t[c] in t;
  }

  lemma CloseClosed(h: seq<Row>, auction: string, token: string, j: nat, c: nat)
    requires History(h, auction, token) && j < |h| && c < |h| && h[j].op.Kick?
    requires LinkByScan(h)[c].link == Some(h[j].id) && LinkByScan(h)[c].ClosesRound()
    ensures ClosedBy(h, j, |h|)
  {
    hide OpenAfter;
    assert h[c].link.None?;
    var m := OpenIsLatest(h, c);
    assert h[m].id == h[j].id;
    assert m == j;
  }

  /** In a table linked by the scan, a kick lacks a confirmed close exactly while it is
      open or abandoned. */
  lemma UnclosedIff(h: seq<Row>, auction: string, token: string, j: nat)
    requires History(h, auction, token) && j < |h| && h[j].op.Kick?
    ensures HasConfirmedClose(LinkByScan(h), auction, token, h[j].id) <==> ClosedBy(h, j, |h|)
  {
    hide LinkByScan, History, OpenAfter;
    var t := LinkByScan(h);
    if ClosedBy(h, j, |h|) {
      var c :| j < c < |h| && IsRecovery(h[c]) && h[c].ClosesRound() && OpenAfter(h[..c]) == Some(h[j].id);
      ClosedHasClose(h, auction, token, j, c);
    }
    if HasConfirmedClose(t, auction, token, h[j].id) {
      var r :| r in t && OfPair(r, auction, token) && r.link == Some(h[j].id) && r.status.Confirmed? && r.ClosesRound();
      var c :| 0 <= c < |t| && t[c] == r;
      CloseClosed(h, auction, token, j, c);
    }
  }

  /** A kick of a scan-linked table is a candidate exactly while open or abandoned. */
  lemma CandidateIff(h: seq<Row>, auction: string, token: string, at: Pos, j: nat)
    requires History(h, auction, token) && j < |h| && h[j].op.Kick?
    requires h[j].Position().value.Before(at)
    ensures var t := LinkByScan(h);
            && t[j] == h[j]
            && (Candidate(t, auction, token, Some(at), t[j]) <==> OpenAfter(h) == Some(h[j].id) || Abandoned(h, j, |h|))
  {
    UnclosedIff(h, auction, token, j);
    Fate(h, auction, token, j, |h|);
    assert h[..|h|] == h;
    hide HasConfirmedClose, OpenAfter, Abandoned, ClosedBy;
  }

  /** The lookup in a scan-linked table: the open kick if there is one; otherwise some
      kick exactly when one was abandoned. */
  lemma LookupMeans(h: seq<Row>, auction: string, token: string, at: Pos)
    requires History(h, auction, token)
    requires forall i :: 0 <= i < |h| ==> h[i].Position().value.Before(at)
    ensures var k := LatestUnclosedKick(LinkByScan(h), auction, token, Some(at));
            && (OpenAfter(h).Some? ==> k.Some? && OpenAfter(h) == Some(k.value.id))
            && (OpenAfter(h).None? ==> (k.Some? <==> exists j :: 0 <= j < |h| && Abandoned(h, j, |h|)))
  {
    hide LatestUnclosedKick, OpenAfter, Abandoned;
    var t, n := LinkByScan(h), |h|;
    var k := LatestUnclosedKick(t, auction, token, Some(at));
    assert h[..n] == h;
    forall j | 0 <= j < n && h[j].op.Kick?
      ensures t[j] == h[j]
      ensures Candidate(t, auction, token, Some(at), t[j]) <==> OpenAfter(h) == Some(h[j].id) || Abandoned(h, j, n)
    {
      CandidateIff(h, auction, token, at, j);
    }
    if k.Some? {
      var p :| 0 <= p < n && t[p] == k.value;
      assert h[p].op.Kick?;
    }
    var m := OpenIsLatest(h, n);
    if m >= 0 {
      OpenWins(h, auction, token, at, m);
    } else if exists j :: 0 <= j < n && Abandoned(h, j, n) {
      var j :| 0 <= j < n && Abandoned(h, j, n);
      AbandonedKick(h, j);
      assert t[j] in t && Candidate(t, auction, token, Some(at), t[j]);
    }
  }

  lemma AbandonedKick(h: seq<Row>, j: nat)
    requires j < |h| && Abandoned(h, j, |h|)
    ensures h[j].op.Kick?
  {
    hide OpenAfter;
  }

  lemma ScanKick(h: seq<Row>, p: nat)
    requires p < |h| && LinkByScan(h)[p].op.Kick?
    ensures LinkByScan(h)[p] == h[p] && h[p].op.Kick?
  {
    hide OpenAfter;
  }

  lemma ChainKeys(h: seq<Row>, auction: string, token: string, p: nat, m: nat)
    requires History(h, auction, token) && p < m < |h|
    ensures KeyLess(h[p], h[m])
  {
    KeyFollowsChain(h[p], h[m]);
  }

  /** The lookup finds a kick no candidate of which has a greater key. */
  lemma LookupBeats(t: seq<Row>, auction: string, token: string, at: Pos, c: Row)
    requires c in t && Candidate(t, auction, token, Some(at), c)
    ensures var k := LatestUnclosedKick(t, auction, token, Some(at));
            k.Some? && k.value in t && k.value.op.Kick? && !KeyLess(k.value, c)
  {
    hide LatestUnclosedKick, HasConfirmedClose, KeyLess;
  }

  /** The open kick is later on chain than any other kick, so the lookup prefers it. */
  lemma OpenWins(h: seq<Row>, auction: string, token: string, at: Pos, m: nat)
    requires History(h, auction, token) && m < |h| && h[m].op.Kick? && OpenAfter(h) == Some(h[m].id)
    requires forall j :: m < j < |h| ==> !h[j].op.Kick?
    requires forall i :: 0 <= i < |h| ==> h[i].Position().value.Before(at)
    ensures LatestUnclosedKick(LinkByScan(h), auction, token, Some(at)) == Some(h[m])
  {
    CandidateIff(h, auction, token, at, m);
    hide LatestUnclosedKick, OpenAfter, Candidate, History, LinkByScan, KeyLess;
    var t := LinkByScan(h);
    assert t[m] in t;
    LookupBeats(t, auction, token, at, t[m]);
    var k := LatestUnclosedKick(t, auction, token, Some(at));
    var p :| 0 <= p < |h| && t[p] == k.value;
    ScanKick(h, p);
    if p < m {
      ChainKeys(h, auction, token, p, m);
    }
  }

  /** The lookup's sort key orders placed rows as the chain does. */
  lemma KeyFollowsChain(a: Row, b: Row)
    requires a.Position().Some? && b.Position().Some? && a.Position().value.Before(b.Position().value)
    ensures KeyLess(a, b)
  {
  }

  /** One step: given agreement so far, the row at `n` is linked alike by both exactly
      unless it is a stray recovery. */
  lemma StepAgrees(h: seq<Row>, auction: string, token: string, n: nat)
    requires History(h, auction, token) && n < |h|
    requires LinkEach(h[..n]) == LinkByScan(h[..n])
    ensures LinkEach(h[..n + 1]) == LinkByScan(h[..n + 1]) <==> !StrayRecovery(h, n)
  {
    hide LatestUnclosedKick, OpenAfter, Abandoned, LinkEach, LinkByScan, LinkNow;
    var p, r := h[..n], h[n];
    EachNext(h, n);
    ScanNext(h, n);
    HistoryPrefix(h, auction, token, n);
    AbandonedPrefix(h, n);
    NowMatchesScan(p, auction, token, r);
    assert p[..n] == p;
    assert StrayRecovery(h, n) <==> IsRecovery(r) && LinkNow(LinkByScan(p), r) != Target(r, OpenAfter(p));
    var t, now, target := LinkByScan(p), LinkNow(LinkByScan(p), r), Target(r, OpenAfter(p));
    assert (t + [r.(link := now)])[n] == r.(link := now) && (t + [r.(link := target)])[n] == r.(link := target);
    assert r.(link := now) == r.(link := target) <==> now == target;
  }

  /** The lookup for one row against the scan's target for it. */
  lemma NowMatchesScan(p: seq<Row>, auction: string, token: string, r: Row)
    requires History(p, auction, token) && OnChain(r, auction, token)
    requires forall i :: 0 <= i < |p| ==> p[i].Position().value.Before(r.Position().value)
    ensures LinkNow(LinkByScan(p), r) != Target(r, OpenAfter(p)) <==>
              && !(r.op.Resolve? && r.path == Some(0))
              && OpenAfter(p).None?
              && exists j :: 0 <= j < |p| && Abandoned(p, j, |p|)
  {
    LookupMeans(p, auction, token, r.Position().value);
    hide LatestUnclosedKick, OpenAfter, Abandoned, LinkByScan;
  }

  lemma EachNext(h: seq<Row>, n: nat)
    requires n < |h|
    ensures LinkEach(h[..n + 1]) == LinkEach(h[..n]) +
              [if IsRecovery(h[n]) then h[n].(link := LinkNow(LinkEach(h[..n]), h[n])) else h[n]]
  {
    hide LatestUnclosedKick;
    assert h[..n + 1][..n] == h[..n];
  }

  lemma ScanNext(h: seq<Row>, n: nat)
    requires n < |h|
    ensures LinkByScan(h[..n + 1]) == LinkByScan(h[..n]) +
              [if IsRecovery(h[n]) then h[n].(link := Target(h[n], OpenAfter(h[..n]))) else h[n]]
  {
    ScanPrefix(h[..n + 1], n);
    assert h[..n + 1][..n] == h[..n];
    var s := LinkByScan(h[..n + 1]);
    assert s == s[..n] + [s[n]];
  }

  lemma HistoryPrefix(h: seq<Row>, auction: string, token: string, n: nat)
    requires History(h, auction, token) && n < |h|
    ensures History(h[..n], auction, token)
    ensures forall i :: 0 <= i < n ==> h[..n][i].Position().value.Before(h[n].Position().value)
  {
  }

  lemma AbandonedPrefix(h: seq<Row>, n: nat)
    requires n <= |h|
    ensures forall j :: 0 <= j < n ==> (Abandoned(h[..n], j, n) <==> Abandoned(h, j, n))
  {
    hide OpenAfter;
    forall m | 0 <= m <= n ensures h[..n][..m] == h[..m] {}
  }

  lemma {:induction false} LinkEachPrefix(h: seq<Row>, n: nat)
    requires n <= |h|
    ensures LinkEach(h)[..n] == LinkEach(h[..n])
    decreases |h|
  {
    if n < |h| {
      LinkEachPrefix(h[..|h| - 1], n);
      assert h[..|h| - 1][..n] == h[..n];
    } else {
      assert h[..n] == h;
    }
  }

  lemma {:induction false} AgreeWithoutStrays(h: seq<Row>, auction: string, token: string, n: nat)
    requires History(h, auction, token) && n <= |h|
    requires forall i :: 0 <= i < n ==> !StrayRecovery(h, i)
    ensures LinkEach(h[..n]) == LinkByScan(h[..n])
    decreases n
  {
    if n > 0 {
      AgreeWithoutStrays(h, auction, token, n - 1);
      StepAgrees(h, auction, token, n - 1);
    }
  }

  /** Linking as rows confirm and scanning the finished history give the same links
      exactly when no recovery arrives, with no round open, while an abandoned kick is
      still unclosed. */
  lemma IncrementalAgreesIff(h: seq<Row>, auction: string, token: string)
    requires History(h, auction, token)
    ensures LinkEach(h) == LinkByScan(h) <==> forall n :: 0 <= n < |h| ==> !StrayRecovery(h, n)
  {
    hide History, StrayRecovery, LinkEach, LinkByScan;
    assert h[..|h|] == h;
    if forall n :: 0 <= n < |h| ==> !StrayRecovery(h, n) {
      AgreeWithoutStrays(h, auction, token, |h|);
    } else if LinkEach(h) == LinkByScan(h) {
      var n :| 0 <= n < |h| && StrayRecovery(h, n);
      LinkEachPrefix(h, n);
      ScanPrefix(h, n);
      LinkEachPrefix(h, n + 1);
      ScanPrefix(h, n + 1);
      StepAgrees(h, auction, token, n);
    }
  }

  /** In particular they agree whenever no kick is confirmed over an open round. */
  lemma IncrementalAgrees(h: seq<Row>, auction: string, token: string)
    requires History(h, auction, token) && NoOverlap(h)
    ensures LinkEach(h) == LinkByScan(h)
  {
    IncrementalAgreesIff(h, auction, token);
  }

  /** The scan over a history is the canonical relinking of the table holding it. */
  lemma ScanIsRebuild(h: seq<Row>, auction: string, token: string)
    requires History(h, auction, token) && Ascending(h)
    ensures Relinked(h, LinkByScan(h), auction, token)
  {
    var s := Chain(h, auction, token);
    ChainFacts(h, auction, token);
    ChainIsHistory(h, auction, token);
    hide Chain, CanonicalLink, OpenAfter;
    var t := LinkByScan(h);
    forall i | 0 <= i < |h|
      ensures if Relinkable(h[i], auction, token) then CanonicalLink(h, h[i], t[i].link) else t[i] == h[i]
    {
      if Relinkable(h[i], auction, token) {
        ScanIsCanonical(h, auction, token, i);
      }
    }
  }

  lemma {:induction false} SortedUnchanged(rows: seq<Row>)
    requires forall x :: x in rows ==> x.Position().Some?
    requires forall i, j :: 0 <= i < j < |rows| ==> ChainLess(rows[i], rows[j])
    ensures SortByChain(rows) == rows
  {
    if |rows| > 0 {
      SortedUnchanged(rows[..|rows| - 1]);
      InsertLast(rows[..|rows| - 1], rows[|rows| - 1]);
    }
  }

  lemma {:induction false} InsertLast(s: seq<Row>, r: Row)
    requires r.Position().Some? && forall x :: x in s ==> x.Position().Some? && ChainLess(x, r)
    ensures InsertByChain(s, r) == s + [r]
  {
    if |s| > 0 {
      InsertLast(s[1..], r);
    }
  }

  lemma {:induction false} FilterAll(p: Row -> bool, s: seq<Row>)
    requires forall x :: x in s ==> p(x)
    ensures Filter(p, s) == s
  {
    if |s| > 0 {
      FilterAll(p, s[..|s| - 1]);
    }
  }

  lemma ChainIsHistory(h: seq<Row>, auction: string, token: string)
    requires History(h, auction, token)
    ensures Chain(h, auction, token) == h
  {
    hide Filter, SortByChain;
    FilterAll(ChainOf(auction, token), h);
    assert forall x :: x in h ==> x.Position().Some?;
    SortedUnchanged(h);
  }
}
