/** Retiring rounds whose outcome can no longer be proved (tidal/auction_round_repair.py). */
module RoundRepair {
  import opened Common
  import opened Rounds
  import opened PairHistory
  import opened Baselines
  import opened KickTable

  type Pair = (string, string)

  /** The chain's answer to "is this pair's auction active", or none if it cannot be read. */
  type Activity = Pair -> Option<bool>

  // ------------------------------------------------------------ one pair

  /** Any row of the pair, whatever its kind, can carry the mark. */
  predicate Reviewed(rows: seq<Row>, id: int) {
    exists r :: r in rows && r.baseline && r.id == id
  }

  predicate Unprovable(e: Evidence) {
    e.outcome.Unknown? || e.outcome.Incomplete?
  }

  /** Round `i` is retired: nobody reviewed it, it cannot be proved, and if it is the newest
      the chain says the auction is over. */
  predicate Retires(rows: seq<Row>, active: Option<bool>, i: nat) {
    var rounds := AllRounds(rows);
    i < |rounds| && Unprovable(rounds[i]) && !Reviewed(rows, rounds[i].kickId) && (i == 0 ==> active == Some(false))
  }

  predicate RetiresKick(rows: seq<Row>, active: Option<bool>, id: int) {
    exists i :: 0 <= i < |AllRounds(rows)| && AllRounds(rows)[i].kickId == id && Retires(rows, active, i)
  }

  function Mark(p: Row -> bool): Row -> Row {
    (r: Row) => if p(r) then r.(baseline := true) else r
  }

  function MarkIf(p: Row -> bool, rows: seq<Row>): seq<Row> {
    Map(Mark(p), rows)
  }

  function RetiredIn(rows: seq<Row>, active: Option<bool>): Row -> bool {
    (r: Row) => RetiresKick(rows, active, r.id)
  }

  /** The pair's rows after its unprovable rounds were marked. */
  function RetirePair(rows: seq<Row>, active: Option<bool>): seq<Row> {
    MarkIf(RetiredIn(rows, active), rows)
  }

  lemma MarkedAlike(p: Row -> bool, rows: seq<Row>)
    ensures Alike(MarkIf(p, rows), rows)
  {
  }

  lemma MarkReviewed(p: Row -> bool, rows: seq<Row>, id: int)
    ensures Reviewed(MarkIf(p, rows), id) <==> exists r :: r in rows && r.id == id && (r.baseline || p(r))
  {
    var after := MarkIf(p, rows);
    if r :| r in rows && r.id == id && (r.baseline || p(r)) {
      var i :| 0 <= i < |rows| && rows[i] == r;
      assert after[i] in after;
    }
    if Reviewed(after, id) {
      var r :| r in after && r.baseline && r.id == id;
      var i :| 0 <= i < |after| && after[i] == r;
      assert rows[i] in rows;
    }
  }

  lemma RoundKickPresent(rows: seq<Row>, i: nat)
    requires i < |AllRounds(rows)|
    ensures exists r :: r in rows && r.op.Kick? && r.id == AllRounds(rows)[i].kickId
  {
    RoundIds(rows);
    KickMembers(rows);
    hide KicksNewestFirst, AllRounds;
    assert KicksNewestFirst(rows)[i] in KicksNewestFirst(rows);
  }

  /** Retiring reviews the retired kicks and no others, and classifies nothing anew. */
  lemma RetiredReviewed(rows: seq<Row>, active: Option<bool>, id: int)
    ensures AllRounds(RetirePair(rows, active)) == AllRounds(rows)
    ensures Reviewed(RetirePair(rows, active), id) <==> Reviewed(rows, id) || RetiresKick(rows, active, id)
  {
    hide AllRounds, Retires, Map, Alike;
    MarkedAlike(RetiredIn(rows, active), rows);
    AllRoundsAlike(RetirePair(rows, active), rows);
    MarkReviewed(RetiredIn(rows, active), rows, id);
    if RetiresKick(rows, active, id) {
      var i :| 0 <= i < |AllRounds(rows)| && AllRounds(rows)[i].kickId == id && Retires(rows, active, i);
      RoundKickPresent(rows, i);
    }
  }

  lemma NothingLeftToRetire(rows: seq<Row>, active: Option<bool>, id: int)
    ensures !RetiresKick(RetirePair(rows, active), active, id)
  {
    hide AllRounds, RetirePair;
    var after := RetirePair(rows, active);
    RetiredReviewed(rows, active, id);
    forall i | 0 <= i < |AllRounds(after)| && AllRounds(after)[i].kickId == id
      ensures Retires(after, active, i) ==> Retires(rows, active, i)
    {
    }
  }

  lemma MarkNone(p: Row -> bool, rows: seq<Row>)
    requires forall r :: r in rows ==> !p(r)
    ensures MarkIf(p, rows) == rows
  {
  }

  /** With the chain's answer fixed, retiring twice is retiring once. */
  lemma RetireIdempotent(rows: seq<Row>, active: Option<bool>)
    ensures RetirePair(RetirePair(rows, active), active) == RetirePair(rows, active)
  {
    hide RetiresKick, Map;
    var after := RetirePair(rows, active);
    forall r | r in after ensures !RetiredIn(after, active)(r) {
      NothingLeftToRetire(rows, active, r.id);
    }
    MarkNone(RetiredIn(after, active), after);
  }

  lemma RoundIdsDiffer(rows: seq<Row>)
    requires UniqueIds(rows)
    ensures forall i, j :: 0 <= i < j < |AllRounds(rows)| ==> AllRounds(rows)[i].kickId != AllRounds(rows)[j].kickId
  {
    KicksUnique(rows);
    RoundIds(rows);
    hide KicksNewestFirst, AllRounds;
  }

  /** A completed round's kick is never retired. */
  lemma CompletedNeverRetired(rows: seq<Row>, active: Option<bool>, i: nat)
    requires UniqueIds(rows) && i < |AllRounds(rows)| && AllRounds(rows)[i].Completed()
    ensures !RetiresKick(rows, active, AllRounds(rows)[i].kickId)
  {
    hide AllRounds;
    RoundIdsDiffer(rows);
  }

  /** Which rounds are reviewed after the repair: those reviewed before, every older one
      that is unknown or incomplete, and the newest if it is and the chain says its auction
      is over. The newest round of an active auction, or of one that cannot be read, is
      left alone. */
  lemma ReviewedIff(rows: seq<Row>, active: Option<bool>, i: nat)
    requires UniqueIds(rows) && i < |AllRounds(rows)|
    ensures var e := AllRounds(rows)[i];
            Reviewed(RetirePair(rows, active), e.kickId) <==>
              || Reviewed(rows, e.kickId)
              || ((e.outcome == Unknown || e.outcome == Incomplete) && (i > 0 || active == Some(false)))
  {
    hide AllRounds, RetirePair;
    RetiredReviewed(rows, active, AllRounds(rows)[i].kickId);
    RoundIdsDiffer(rows);
  }

  /** The repair sets marks and nothing else, and none on a row that is not a round's kick. */
  lemma OnlyMarks(rows: seq<Row>, active: Option<bool>, j: nat)
    requires j < |rows|
    ensures var after := RetirePair(rows, active);
            && |after| == |rows| && after[j] == rows[j].(baseline := after[j].baseline)
            && (rows[j].baseline ==> after[j].baseline)
            && (after[j].baseline && !rows[j].baseline ==>
                  exists i :: 0 <= i < |AllRounds(rows)| && AllRounds(rows)[i].kickId == rows[j].id)
  {
    hide AllRounds, Retires;
  }

  // --------------------------------------------------------------- audit

  predicate StillOpen(rows: seq<Row>, e: Evidence) {
    Unprovable(e) && !Reviewed(rows, e.kickId)
  }

  function OpenIn(rows: seq<Row>): Evidence -> bool {
    (e: Evidence) => StillOpen(rows, e)
  }

  /** The audit of one pair: clean, or live with nothing but its newest round open. The
      chain is asked only when the newest round is the first one still open. */
  predicate AuditPasses(rows: seq<Row>, active: Option<bool>) {
    var rounds := AllRounds(rows);
    var open := Filter(OpenIn(rows), rounds);
    var newestOpen := |open| > 0 && open[0].kickId == rounds[0].kickId;
    var live := if newestOpen then active else None;
    |open| == 0 || (|open| == 1 && open[0].outcome.Incomplete? && newestOpen && live == Some(true))
  }

  /** If only the first element can pass, the filter keeps it or nothing. */
  lemma {:induction false} FilterHead(p: Evidence -> bool, s: seq<Evidence>)
    requires forall i :: 0 < i < |s| ==> !p(s[i])
    ensures Filter(p, s) == if |s| > 0 && p(s[0]) then [s[0]] else []
  {
    if |s| > 0 {
      FilterHead(p, s[..|s| - 1]);
    }
  }

  lemma OnlyNewestOpen(rows: seq<Row>, active: Option<bool>, i: nat)
    requires i < |AllRounds(rows)| && StillOpen(RetirePair(rows, active), AllRounds(rows)[i])
    ensures i == 0 && active != Some(false)
  {
    hide AllRounds, RetirePair;
    RetiredReviewed(rows, active, AllRounds(rows)[i].kickId);
    assert !Retires(rows, active, i);
  }

  /** The newest round was never reviewed and the chain's answer does not settle it. */
  predicate NewestUnsettled(rows: seq<Row>, active: Option<bool>) {
    var rounds := AllRounds(rows);
    && |rounds| > 0 && !Reviewed(rows, rounds[0].kickId)
    && ((rounds[0].outcome.Unknown? && active != Some(false)) || (rounds[0].outcome.Incomplete? && active.None?))
  }

  /** After the repair the audit fails for exactly the pairs whose newest round is
      unreviewed and either unknown with the auction not known to be over, or incomplete
      with its activity unreadable; the same holds of the rows before the repair. */
  lemma AuditFailsIff(rows: seq<Row>, active: Option<bool>)
    requires UniqueIds(rows)
    ensures !AuditPasses(RetirePair(rows, active), active) <==> NewestUnsettled(RetirePair(rows, active), active)
    ensures NewestUnsettled(RetirePair(rows, active), active) <==> NewestUnsettled(rows, active)
  {
    hide AllRounds, RetirePair, Filter;
    var after, rounds := RetirePair(rows, active), AllRounds(rows);
    if |rounds| > 0 {
      RetiredReviewed(rows, active, rounds[0].kickId);
      NewestRetired(rows, active);
    } else {
      RetiredReviewed(rows, active, 0);
    }
    forall i | 0 < i < |rounds| ensures !OpenIn(after)(rounds[i]) {
      if StillOpen(after, rounds[i]) {
        OnlyNewestOpen(rows, active, i);
      }
    }
    FilterHead(OpenIn(after), rounds);
    if |rounds| > 0 && StillOpen(after, rounds[0]) {
      OnlyNewestOpen(rows, active, 0);
    }
    assert active.Some? ==> active == if active.value then Some(true) else Some(false);
    assert |rounds| > 0 ==> Filter(OpenIn(after), rounds) == if StillOpen(after, rounds[0]) then [rounds[0]] else [];
  }

  lemma NewestRetired(rows: seq<Row>, active: Option<bool>)
    requires UniqueIds(rows) && |AllRounds(rows)| > 0
    ensures RetiresKick(rows, active, AllRounds(rows)[0].kickId) <==> Retires(rows, active, 0)
  {
    RoundIdsDiffer(rows);
    hide AllRounds;
  }

  /** After the repair only the newest round can be held against the pair: everything older
      in the current history is complete. */
  lemma OnlyNewestHolds(rows: seq<Row>, active: Option<bool>, i: nat)
    requires UniqueIds(rows) && 0 < i < |CurrentRounds(RetirePair(rows, active))|
    ensures CurrentRounds(RetirePair(rows, active))[i].Completed()
  {
    hide AllRounds, RetirePair, CurrentRounds, Baselined;
    var after := RetirePair(rows, active);
    var current, rounds := CurrentRounds(after), AllRounds(after);
    CurrentIsPrefix(after);
    RetiredReviewed(rows, active, rounds[i].kickId);
    assert current[i] == rounds[i] && current[i] in current;
    CurrentUnmarked(after, current[i]);
    if Unprovable(current[i]) {
      RoundKickPresent(after, i);
      if Reviewed(after, rounds[i].kickId) {
        ReviewedKick(rows, active, rounds[i].kickId);
      }
      OnlyNewestOpen(rows, active, i);
    }
  }

  lemma CurrentUnmarked(rows: seq<Row>, e: Evidence)
    requires e in CurrentRounds(rows)
    ensures !Baselined(rows, e.kickId)
  {
    hide AllRounds, Baselined;
  }

  lemma ReviewedKick(rows: seq<Row>, active: Option<bool>, id: int)
    requires UniqueIds(rows) && Reviewed(RetirePair(rows, active), id)
    requires exists r :: r in RetirePair(rows, active) && r.op.Kick? && r.id == id
    ensures Baselined(RetirePair(rows, active), id)
  {
    hide RetiresKick;
    var after := RetirePair(rows, active);
    var a :| a in after && a.baseline && a.id == id;
    var b :| b in after && b.op.Kick? && b.id == id;
    var i :| 0 <= i < |after| && after[i] == a;
    var j :| 0 <= j < |after| && after[j] == b;
    assert rows[i].id == id && rows[j].id == id;
  }

  // --------------------------------------------------------- the whole table

  predicate RetiredSomewhere(rows: seq<Row>, pairs: seq<Pair>, active: Activity, r: Row) {
    exists p :: p in pairs && OfPair(r, p.0, p.1) && RetiresKick(PairOperations(rows, p.0, p.1), active(p), r.id)
  }

  function RetiredBy(rows: seq<Row>, pairs: seq<Pair>, active: Activity): Row -> bool {
    (r: Row) => RetiredSomewhere(rows, pairs, active, r)
  }

  /** The table after the repair of the given pairs. */
  function RetirePairs(rows: seq<Row>, pairs: seq<Pair>, active: Activity): seq<Row> {
    MarkIf(RetiredBy(rows, pairs, active), rows)
  }

  lemma {:induction false} FilterMark(p: Row -> bool, q: Row -> bool, rows: seq<Row>)
    requires forall r: Row :: p(r.(baseline := true)) == p(r)
    ensures Filter(p, MarkIf(q, rows)) == MarkIf(q, Filter(p, rows))
  {
    if |rows| > 0 {
      var init, last := rows[..|rows| - 1], rows[|rows| - 1];
      FilterMark(p, q, init);
      assert MarkIf(q, rows)[..|rows| - 1] == MarkIf(q, init);
      assert MarkIf(q, Filter(p, init) + [last]) == MarkIf(q, Filter(p, init)) + [Mark(q)(last)];
    }
  }

  lemma MarkCongruent(p: Row -> bool, q: Row -> bool, rows: seq<Row>)
    requires forall r :: r in rows ==> p(r) == q(r)
    ensures MarkIf(p, rows) == MarkIf(q, rows)
  {
  }

  /** Repairing the table repairs each of the pairs on its own and leaves the others be. */
  lemma RetiresPairwise(rows: seq<Row>, pairs: seq<Pair>, active: Activity, p: Pair)
    ensures var ops := PairOperations(rows, p.0, p.1);
            PairOperations(RetirePairs(rows, pairs, active), p.0, p.1) ==
            if p in pairs then RetirePair(ops, active(p)) else ops
  {
    hide Filter, Map, RetiresKick;
    var ops := PairOperations(rows, p.0, p.1);
    FilterMark(InPair(p.0, p.1), RetiredBy(rows, pairs, active), rows);
    forall r | r in ops ensures RetiredBy(rows, pairs, active)(r) == (p in pairs && RetiresKick(ops, active(p), r.id)) {
      if RetiredSomewhere(rows, pairs, active, r) {
        var q :| q in pairs && OfPair(r, q.0, q.1) && RetiresKick(PairOperations(rows, q.0, q.1), active(q), r.id);
        assert q == p;
      }
    }
    if p in pairs {
      MarkCongruent(RetiredBy(rows, pairs, active), RetiredIn(ops, active(p)), ops);
    } else {
      MarkNone(RetiredBy(rows, pairs, active), ops);
    }
  }

  /** Repairing the table again, the chain answering alike, changes nothing. */
  lemma RepairIdempotent(rows: seq<Row>, pairs: seq<Pair>, active: Activity)
    ensures var after := RetirePairs(rows, pairs, active); RetirePairs(after, pairs, active) == after
  {
    hide RetirePair, RetiresKick, Map, Filter;
    var after := RetirePairs(rows, pairs, active);
    forall r | r in after ensures !RetiredBy(after, pairs, active)(r) {
      if RetiredSomewhere(after, pairs, active, r) {
        var p :| p in pairs && OfPair(r, p.0, p.1) && RetiresKick(PairOperations(after, p.0, p.1), active(p), r.id);
        RetiresPairwise(rows, pairs, active, p);
        NothingLeftToRetire(PairOperations(rows, p.0, p.1), active(p), r.id);
      }
    }
    MarkNone(RetiredBy(after, pairs, active), after);
  }

  // ------------------------------------------------------- the source's loops

  predicate RetiredAmong(rows: seq<Row>, active: Option<bool>, n: nat, id: int) {
    exists i :: 0 <= i < n && i < |AllRounds(rows)| && AllRounds(rows)[i].kickId == id && Retires(rows, active, i)
  }

  function RetiredUpTo(ops: seq<Row>, active: Option<bool>, n: nat): Row -> bool {
    (r: Row) => RetiredAmong(ops, active, n, r.id)
  }

  function WithId(id: int): Row -> bool {
    (r: Row) => r.id == id
  }

  lemma RetireStep(rows: seq<Row>, ops: seq<Row>, active: Option<bool>, i: nat)
    requires i < |AllRounds(ops)|
    ensures var marked := MarkIf(RetiredUpTo(ops, active, i), rows);
            MarkIf(RetiredUpTo(ops, active, i + 1), rows)
            == if Retires(ops, active, i) then MarkIf(WithId(AllRounds(ops)[i].kickId), marked) else marked
  {
    hide AllRounds, Retires, RetiredAmong;
    var id := AllRounds(ops)[i].kickId;
    forall r: Row ensures RetiredAmong(ops, active, i + 1, r.id)
                          == (RetiredAmong(ops, active, i, r.id) || (Retires(ops, active, i) && r.id == id))
    {
      RetiredOneMore(ops, active, i, r.id);
    }
  }

  lemma RetiredOneMore(ops: seq<Row>, active: Option<bool>, i: nat, id: int)
    requires i < |AllRounds(ops)|
    ensures RetiredAmong(ops, active, i + 1, id)
            == (RetiredAmong(ops, active, i, id) || (Retires(ops, active, i) && id == AllRounds(ops)[i].kickId))
  {
    hide AllRounds, Retires;
  }

  method SetBaseline(table: KickTxTable, id: int)
    requires table.Valid()
    modifies table`rows
    ensures table.Valid()
    ensures table.rows == MarkIf(WithId(id), old(table.rows))
  {
    var rows := table.rows;
    if k :| 0 <= k < |rows| && rows[k].id == id {
      table.Update(rows[k].(baseline := true));
      forall i | 0 <= i < |rows| && rows[i].id == id ensures i == k {
      }
      assert table.rows == MarkIf(WithId(id), rows);
    } else {
      MarkNone(WithId(id), rows);
    }
  }

  /** The ids retired for a pair belong to rows of that pair. */
  lemma RetiredWithin(rows: seq<Row>, p: Pair, active: Option<bool>, r: Row)
    requires Ascending(rows) && r in rows && RetiresKick(PairOperations(rows, p.0, p.1), active, r.id)
    ensures OfPair(r, p.0, p.1)
  {
    hide AllRounds, Retires;
    var ops := PairOperations(rows, p.0, p.1);
    var i :| 0 <= i < |AllRounds(ops)| && AllRounds(ops)[i].kickId == r.id && Retires(ops, active, i);
    RoundKickPresent(ops, i);
    var k :| k in ops && k.op.Kick? && k.id == r.id;
    var x :| 0 <= x < |rows| && rows[x] == k;
    var y :| 0 <= y < |rows| && rows[y] == r;
  }

  /** One pair: the rounds newest first, the chain asked at most once, the marks written
      one by one. */
  method BaselinePair(table: KickTxTable, p: Pair, active: Activity)
    requires table.Valid()
    modifies table`rows
    ensures table.Valid()
    ensures table.rows == RetirePairs(old(table.rows), [p], active)
  {
    hide AllRounds, Map, Filter, Ascending;
    ghost var rows := table.rows;
    var ops := PairOperations(table.rows, p.0, p.1);
    var rounds := AllRounds(ops);
    var latestActive: Option<bool>, checked := None, false;
    MarkNone(RetiredUpTo(ops, active(p), 0), rows);
    for i := 0 to |rounds|
      invariant table.Valid()
      invariant checked ==> latestActive == active(p)
      invariant table.rows == MarkIf(RetiredUpTo(ops, active(p), i), rows)
    {
      RetireStep(rows, ops, active(p), i);
      if Reviewed(ops, rounds[i].kickId) || !Unprovable(rounds[i]) {
        continue;
      }
      if i == 0 {
        if !checked {
          latestActive := active(p);
          checked := true;
        }
        if latestActive != Some(false) {
          continue;
        }
      }
      SetBaseline(table, rounds[i].kickId);
    }
    forall r | r in rows
      ensures RetiredUpTo(ops, active(p), |rounds|)(r) == RetiredBy(rows, [p], active)(r)
    {
      if RetiresKick(ops, active(p), r.id) {
        RetiredWithin(rows, p, active(p), r);
        assert p in [p];
      }
    }
    MarkCongruent(RetiredUpTo(ops, active(p), |rounds|), RetiredBy(rows, [p], active), rows);
  }

  /** Repairing one pair more, whether or not it was already among them. */
  lemma RetireOneMore(rows: seq<Row>, pairs: seq<Pair>, active: Activity, p: Pair)
    ensures RetirePairs(RetirePairs(rows, pairs, active), [p], active) == RetirePairs(rows, pairs + [p], active)
  {
    hide RetiresKick, Filter, RetirePair;
    var once := RetirePairs(rows, pairs, active);
    RetiresPairwise(rows, pairs, active, p);
    var ops := PairOperations(rows, p.0, p.1);
    forall i | 0 <= i < |rows|
      ensures Mark(RetiredBy(once, [p], active))(once[i]) == Mark(RetiredBy(rows, pairs + [p], active))(rows[i])
    {
      var r := rows[i];
      RetiredPlus(rows, pairs, active, p, r);
      RetiredPlus(once, [], active, p, once[i]);
      if p in pairs {
        NothingLeftToRetire(ops, active(p), r.id);
      }
    }
  }

  lemma RetiredPlus(rows: seq<Row>, pairs: seq<Pair>, active: Activity, p: Pair, r: Row)
    ensures RetiredSomewhere(rows, pairs + [p], active, r)
            == (RetiredSomewhere(rows, pairs, active, r)
                || (OfPair(r, p.0, p.1) && RetiresKick(PairOperations(rows, p.0, p.1), active(p), r.id)))
    ensures pairs == [] ==> !RetiredSomewhere(rows, pairs, active, r) && pairs + [p] == [p]
  {
    hide RetiresKick, PairOperations;
    assert p in pairs + [p];
  }

  method BaselineUnprovableRounds(table: KickTxTable, pairs: seq<Pair>, active: Activity)
    requires table.Valid()
    modifies table`rows
    ensures table.Valid()
    ensures table.rows == RetirePairs(old(table.rows), pairs, active)
  {
    hide Map, RetiredSomewhere, Ascending;
    ghost var rows := table.rows;
    NoPairs(rows, active);
    assert pairs[..0] == [];
    for i := 0 to |pairs|
      invariant table.Valid()
      invariant table.rows == RetirePairs(rows, pairs[..i], active)
    {
      BaselinePair(table, pairs[i], active);
      RetireOneMore(rows, pairs[..i], active, pairs[i]);
      assert pairs[..i + 1] == pairs[..i] + [pairs[i]];
    }
    assert pairs[..|pairs|] == pairs;
  }

  lemma NoPairs(rows: seq<Row>, active: Activity)
    ensures RetirePairs(rows, [], active) == rows
  {
    MarkNone(RetiredBy(rows, [], active), rows);
  }

  /** The audit of one pair as the source runs it. */
  method AuditPair(rows: seq<Row>, active: Option<bool>) returns (passed: bool, live: Option<bool>)
    ensures passed == AuditPasses(rows, active)
    ensures live.Some? ==> live == active
  {
    hide AllRounds;
    var rounds := AllRounds(rows);
    var unreviewed := Filter(OpenIn(rows), rounds);
    live := None;
    if |unreviewed| > 0 && |rounds| > 0 && unreviewed[0].kickId == rounds[0].kickId {
      live := active;
    }
    passed := |unreviewed| == 0
              || (|unreviewed| == 1 && unreviewed[0].outcome.Incomplete? && |rounds| > 0
                  && unreviewed[0].kickId == rounds[0].kickId && live == Some(true));
  }

  /** The repair's last two steps over the table: a pair fails its audit exactly when its
      newest round was left unsettled. */
  method RepairAndAudit(table: KickTxTable, pairs: seq<Pair>, active: Activity) returns (passed: seq<bool>)
    requires table.Valid()
    modifies table`rows
    ensures table.Valid() && |passed| == |pairs|
    ensures table.rows == RetirePairs(old(table.rows), pairs, active)
    ensures forall i :: 0 <= i < |pairs| ==>
              passed[i] == !NewestUnsettled(PairOperations(old(table.rows), pairs[i].0, pairs[i].1), active(pairs[i]))
  {
    hide NewestUnsettled, AuditPasses, RetirePairs, RetirePair;
    ghost var rows := table.rows;
    BaselineUnprovableRounds(table, pairs, active);
    passed := [];
    for i := 0 to |pairs|
      invariant table.Valid() && table.rows == RetirePairs(rows, pairs, active)
      invariant |passed| == i
      invariant forall k :: 0 <= k < i ==>
                  passed[k] == !NewestUnsettled(PairOperations(rows, pairs[k].0, pairs[k].1), active(pairs[k]))
    {
      var p := pairs[i];
      var ok, _ := AuditPair(PairOperations(table.rows, p.0, p.1), active(p));
      ghost var ops := PairOperations(rows, p.0, p.1);
      RetiresPairwise(rows, pairs, active, p);
      PairUnique(rows, p);
      AuditFailsIff(ops, active(p));
      passed := passed + [ok];
    }
  }

  lemma {:induction false} PairUnique(rows: seq<Row>, p: Pair)
    requires Ascending(rows)
    ensures UniqueIds(PairOperations(rows, p.0, p.1))
  {
    if |rows| > 0 {
      var init, last := rows[..|rows| - 1], rows[|rows| - 1];
      PairUnique(init, p);
      forall r | r in PairOperations(init, p.0, p.1) ensures r.id < last.id {
        assert r in init;
        var k :| 0 <= k < |init| && init[k] == r;
        assert rows[k] == r;
      }
    }
  }
}
